/**
 What the key of a remembered approval says of a call, on the command's own text and the call's own arguments.
 */
module GrantFields {
  import opened Wrappers
  import opened Text
  import opened StableJson
  import opened JsonMeaning
  import opened Grants

  // ---- commands ----

  predicate Blank(s: string) { forall i :: 0 <= i < |s| ==> IsSpace(s[i]) }

  predicate Solid(s: string) { s != "" && forall i :: 0 <= i < |s| ==> !IsSpace(s[i]) }

  /** The text is these words with white space before, between and after them. */
  ghost predicate Spells(s: string, words: seq<string>)
    decreases |words|
  {
    if words == [] then Blank(s)
    else exists i: nat :: SpellsFrom(s, words, i)
  }

  ghost predicate SpellsFrom(s: string, words: seq<string>, i: nat)
    requires words != []
    decreases |words|, 0
  {
    var w := words[0];
    && i + |w| <= |s| && Blank(s[..i]) && s[i..i + |w|] == w && Solid(w)
    && (i + |w| < |s| ==> IsSpace(s[i + |w|])) && Spells(s[i + |w|..], words[1..])
  }

  /** NAME=value, with a name of letters, digits and underscores, and some value. */
  ghost predicate Assigns(token: string) {
    exists name: string, value: string :: AssignsTo(token, name, value)
  }

  predicate AssignsTo(token: string, name: string, value: string) {
    && token == name + "=" + value && name != "" && value != ""
    && forall i :: 0 <= i < |name| ==> 'a' <= name[i] <= 'z' || 'A' <= name[i] <= 'Z' || '0' <= name[i] <= '9' || name[i] == '_'
  }

  lemma AssignmentMeans(token: string)
    ensures IsAssignment(token) <==> Assigns(token)
  {
    if IsAssignment(token) {
      var k :| 0 < k < |token| - 1 && token[k] == '=' && forall i :: 0 <= i < k ==> IsWordChar(token[i]);
      assert token == token[..k] + "=" + token[k + 1..];
      assert AssignsTo(token, token[..k], token[k + 1..]);
    }
    if Assigns(token) {
      var name: string, value: string :| AssignsTo(token, name, value);
      assert token[|name|] == '=' && forall i :: 0 <= i < |name| ==> token[i] == name[i];
    }
  }

  lemma {:induction false} WordsSpell(s: string)
    ensures Spells(s, Words(s))
    decreases |s|
  {
    if s == "" {
    } else if IsSpace(s[0]) {
      WordsSpell(s[1..]);
      SpaceBefore(s, Words(s[1..]));
    } else {
      var w := Run(s);
      WordsSpell(s[|w|..]);
      var ws := [w] + Words(s[|w|..]);
      assert ws[1..] == Words(s[|w|..]) && s[..0] == "" && s[0..|w|] == w;
      assert SpellsFrom(s, ws, 0);
    }
  }

  lemma SpaceBefore(s: string, words: seq<string>)
    requires s != "" && IsSpace(s[0]) && Spells(s[1..], words)
    ensures Spells(s, words)
  {
    var t := s[1..];
    assert forall i :: 0 <= i < |t| ==> t[i] == s[i + 1];
    if words == [] {
      forall i | 0 <= i < |s| ensures IsSpace(s[i]) { assert i > 0 ==> s[i] == t[i - 1]; }
    } else {
      var i: nat :| SpellsFrom(t, words, i);
      var w := words[0];
      assert s[i + 1..i + 1 + |w|] == t[i..i + |w|] && s[i + 1 + |w|..] == t[i + |w|..];
      var gap := s[..i + 1];
      forall j | 0 <= j < |gap| ensures IsSpace(gap[j]) { assert j > 0 ==> t[..i][j - 1] == s[j]; }
      assert SpellsFrom(s, words, i + 1);
    }
  }

  /** The words a command runs: those it spells, less the assignments in front. */
  ghost predicate RunsAs(raw: string, run: seq<string>) {
    exists all: seq<string>, n: nat :: Spells(raw, all) && Leads(all, n) && run == all[n..]
  }

  ghost predicate Leads(words: seq<string>, n: nat) {
    n <= |words| && (forall i :: 0 <= i < n ==> Assigns(words[i])) && (n < |words| ==> !Assigns(words[n]))
  }

  lemma {:induction false} DroppedLead(words: seq<string>) returns (n: nat)
    ensures Leads(words, n) && DropAssignments(words) == words[n..]
  {
    hide Assigns, IsAssignment;
    if words != [] { AssignmentMeans(words[0]); }
    if words != [] && IsAssignment(words[0]) {
      n := DroppedLead(words[1..]);
      n := n + 1;
      forall i | 0 <= i < n ensures Assigns(words[i]) { assert i > 0 ==> words[i] == words[1..][i - 1]; }
    } else {
      n := 0;
    }
  }

  /** The name of a command is the words it runs, joined by single blanks. */
  lemma NameIsWhatRuns(raw: string) returns (run: seq<string>)
    ensures RunsAs(raw, run) && Canonical(raw) == Join(run) && Words(Canonical(raw)) == run
  {
    WordsSpell(raw);
    var n := DroppedLead(Words(raw));
    run := Words(raw)[n..];
    WordsAreWords(raw);
    hide Words, Spells, DropAssignments;
    assert forall w :: w in run ==> w in Words(raw);
    WordsOfJoin(run);
  }

  // ---- reading a text in one way ----

  lemma {:induction false} OneSpelling(s: string, a: seq<string>, b: seq<string>)
    requires Spells(s, a) && Spells(s, b)
    ensures a == b
    decreases |a|
  {
    if a == [] || b == [] {
      if b != [] {
        var i: nat :| SpellsFrom(s, b, i);
        SolidIsThere(s, b[0], i);
      }
      if a != [] {
        var i: nat :| SpellsFrom(s, a, i);
        SolidIsThere(s, a[0], i);
      }
    } else {
      var i: nat :| SpellsFrom(s, a, i);
      var j: nat :| SpellsFrom(s, b, j);
      FirstWordsAgree(s, a[0], i, b[0], j);
      OneSpelling(s[i + |a[0]|..], a[1..], b[1..]);
      assert a == [a[0]] + a[1..] && b == [b[0]] + b[1..];
    }
  }

  lemma SolidIsThere(s: string, w: string, i: nat)
    requires i + |w| <= |s| && s[i..i + |w|] == w && Solid(w)
    ensures !Blank(s)
  {
    assert s[i] == s[i..i + |w|][0] == w[0];
  }

  predicate WordAt(s: string, w: string, i: nat) {
    i + |w| <= |s| && Blank(s[..i]) && s[i..i + |w|] == w && Solid(w) && (i + |w| < |s| ==> IsSpace(s[i + |w|]))
  }

  lemma FirstWordsAgree(s: string, v: string, i: nat, w: string, j: nat)
    requires WordAt(s, v, i) && WordAt(s, w, j)
    ensures i == j && v == w
  {
    WordChars(s, v, i);
    WordChars(s, w, j);
    assert !IsSpace(s[i]) && !IsSpace(s[j]);
    assert i == j;
    assert |v| == |w|;
  }

  lemma WordChars(s: string, w: string, i: nat)
    requires WordAt(s, w, i)
    ensures forall k :: 0 <= k < i ==> IsSpace(s[k])
    ensures forall k :: i <= k < i + |w| ==> !IsSpace(s[k])
  {
    forall k | 0 <= k < i ensures IsSpace(s[k]) { assert s[..i][k] == s[k]; }
    forall k | i <= k < i + |w| ensures !IsSpace(s[k]) { assert s[i..i + |w|][k - i] == s[k]; }
  }

  /** Two commands share a name exactly when they run the same words. */
  lemma SameNameIffSameRun(a: string, b: string, run: seq<string>)
    requires RunsAs(a, run)
    ensures Canonical(a) == Canonical(b) <==> RunsAs(b, run)
  {
    var r := NameIsWhatRuns(a);
    var q := NameIsWhatRuns(b);
    RunsOneWay(a, r, run);
    if RunsAs(b, run) { RunsOneWay(b, q, run); }
  }

  lemma RunsOneWay(raw: string, a: seq<string>, b: seq<string>)
    requires RunsAs(raw, a) && RunsAs(raw, b)
    ensures a == b
  {
    var x: seq<string>, m: nat :| Spells(raw, x) && Leads(x, m) && a == x[m..];
    var y: seq<string>, n: nat :| Spells(raw, y) && Leads(y, n) && b == y[n..];
    hide Spells, Assigns;
    OneSpelling(raw, x, y);
  }

  /** A command whose first word assigns nothing keeps every word. */
  lemma NoAssignmentKeepsAll(raw: string, words: seq<string>)
    requires Spells(raw, words) && (words != [] ==> !Assigns(words[0]))
    ensures Canonical(raw) == Join(words)
  {
    var run := NameIsWhatRuns(raw);
    hide Spells, Assigns, Canonical, Join;
    assert Leads(words, 0) && words[0..] == words;
    RunsOneWay(raw, run, words);
  }

  // ---- the scope, on the call ----

  /** Some declared path argument of this name that is read, and one of its paths counts by this directory. */
  ghost predicate InDirectory(c: Call, dirOf: DirOf, arg: string, d: string) {
    exists spec :: spec in c.specs && Reads(spec, c, arg) && exists i :: 0 <= i < |spec.paths.value| && dirOf(spec.paths.value[i]) == d
  }

  /** A path argument is read when it is a single record's, the call has it, and its value is well formed. */
  predicate Reads(spec: Spec, c: Call, arg: string) {
    spec.arg == arg && !spec.each && Has(c.args, arg) && spec.paths.Some?
  }

  predicate Has(args: seq<Member>, k: string) { exists i :: 0 <= i < |args| && args[i].key == k }

  lemma {:induction false} GetMeans(args: seq<Member>, k: string)
    ensures Get(args, k).Some? <==> Has(args, k)
    ensures Get(args, k).Some? ==> exists i :: 0 <= i < |args| && args[i] == Member(k, Get(args, k).value)
                                                  && forall j :: 0 <= j < i ==> args[j].key != k
  {
    if args != [] && args[0].key != k {
      GetMeans(args[1..], k);
      assert args == [args[0]] + args[1..];
      if Get(args, k).Some? {
        var i :| 0 <= i < |args[1..]| && args[1..][i] == Member(k, Get(args, k).value) && forall j :: 0 <= j < i ==> args[1..][j].key != k;
        assert args[i + 1] == args[1..][i];
        assert forall j :: 0 < j < i + 1 ==> args[j] == args[1..][j - 1];
      }
      if Has(args, k) {
        var i :| 0 <= i < |args| && args[i].key == k;
        assert args[1..][i - 1] == args[i];
      }
    }
  }

  ghost predicate SomeReads(specs: seq<Spec>, args: seq<Member>, arg: string) {
    exists i :: 0 <= i < |specs| && specs[i].arg == arg && Counts(specs[i], args)
  }

  ghost predicate DirOfSome(specs: seq<Spec>, args: seq<Member>, arg: string, dirOf: DirOf, d: string) {
    exists i :: 0 <= i < |specs| && specs[i].arg == arg && Counts(specs[i], args) && PathIn(specs[i].paths.value, dirOf, d)
  }

  predicate PathIn(paths: seq<string>, dirOf: DirOf, d: string) { exists i :: 0 <= i < |paths| && dirOf(paths[i]) == d }

  lemma {:induction false} DirsMean(specs: seq<Spec>, args: seq<Member>, arg: string, dirOf: DirOf, d: string)
    ensures DirsFor(specs, args, arg, dirOf).Some? <==> SomeReads(specs, args, arg)
    ensures DirsFor(specs, args, arg, dirOf).Some? ==>
              (d in DirsFor(specs, args, arg, dirOf).value <==> DirOfSome(specs, args, arg, dirOf, d))
  {
    if specs != [] {
      var front, last := specs[..|specs| - 1], specs[|specs| - 1];
      DirsMean(front, args, arg, dirOf, d);
      var before := DirsFor(front, args, arg, dirOf);
      if last.arg == arg && Counts(last, args) {
        AddAllAdds(before.GetOr([]), last.paths.value, dirOf, d);
      }
      hide AddAll, Counts, PathIn;
      ReadsOneMore(specs, args, arg, dirOf, d);
    }
  }

  lemma ReadsOneMore(specs: seq<Spec>, args: seq<Member>, arg: string, dirOf: DirOf, d: string)
    requires specs != []
    ensures var front, last := specs[..|specs| - 1], specs[|specs| - 1]; var here := last.arg == arg && Counts(last, args);
            && (SomeReads(specs, args, arg) <==> SomeReads(front, args, arg) || here)
            && (DirOfSome(specs, args, arg, dirOf, d)
                <==> DirOfSome(front, args, arg, dirOf, d) || (here && PathIn(last.paths.value, dirOf, d)))
  {
    hide Counts, PathIn;
    assert specs == specs[..|specs| - 1] + [specs[|specs| - 1]];
  }

  /** A list of these directories, each once, in order of their texts. */
  ghost predicate ListsDirectories(v: Json, c: Call, dirOf: DirOf, arg: string) {
    exists texts: seq<string> :: v == Texts(texts) && Ascending(texts) && forall d :: d in texts <==> InDirectory(c, dirOf, arg, d)
  }

  ghost predicate PathArgument(c: Call, arg: string) { exists spec :: spec in c.specs && Reads(spec, c, arg) }

  lemma PathsMean(c: Call, dirOf: DirOf, arg: string)
    ensures DirsFor(c.specs, c.args, arg, dirOf).Some? <==> PathArgument(c, arg)
    ensures DirsFor(c.specs, c.args, arg, dirOf).Some? ==>
              ListsDirectories(Texts(SortTexts(DirsFor(c.specs, c.args, arg, dirOf).value)), c, dirOf, arg)
  {
    GetMeans(c.args, arg);
    var dirs := DirsFor(c.specs, c.args, arg, dirOf);
    DirsMean(c.specs, c.args, arg, dirOf, "");
    SomeReadsMeans(c, arg);
    if dirs.Some? {
      DirsAreDistinct(c.specs, c.args, arg, dirOf);
      SortTextsSorts(dirs.value);
      hide SortTexts, Ascending, DirsFor, Distinct, InDirectory, DirOfSome;
      forall d ensures d in SortTexts(dirs.value) <==> InDirectory(c, dirOf, arg, d) {
        DirsMean(c.specs, c.args, arg, dirOf, d);
        DirOfSomeMeans(c, dirOf, arg, d);
      }
      assert ListsDirectories(Texts(SortTexts(dirs.value)), c, dirOf, arg);
    }
  }

  lemma SomeReadsMeans(c: Call, arg: string)
    ensures SomeReads(c.specs, c.args, arg) <==> PathArgument(c, arg)
  {
    GetMeans(c.args, arg);
    if SomeReads(c.specs, c.args, arg) {
      var i :| 0 <= i < |c.specs| && c.specs[i].arg == arg && Counts(c.specs[i], c.args);
      assert c.specs[i] in c.specs && Reads(c.specs[i], c, arg);
    }
    if spec :| spec in c.specs && Reads(spec, c, arg) {
      var i :| 0 <= i < |c.specs| && c.specs[i] == spec;
      assert Counts(c.specs[i], c.args);
    }
  }

  lemma DirOfSomeMeans(c: Call, dirOf: DirOf, arg: string, d: string)
    ensures DirOfSome(c.specs, c.args, arg, dirOf, d) <==> InDirectory(c, dirOf, arg, d)
  {
    GetMeans(c.args, arg);
    if DirOfSome(c.specs, c.args, arg, dirOf, d) {
      var i :| 0 <= i < |c.specs| && c.specs[i].arg == arg && Counts(c.specs[i], c.args) && PathIn(c.specs[i].paths.value, dirOf, d);
      assert c.specs[i] in c.specs && Reads(c.specs[i], c, arg);
    }
    if InDirectory(c, dirOf, arg, d) {
      var spec :| spec in c.specs && Reads(spec, c, arg) && exists i :: 0 <= i < |spec.paths.value| && dirOf(spec.paths.value[i]) == d;
      var i :| 0 <= i < |c.specs| && c.specs[i] == spec;
      assert Counts(c.specs[i], c.args) && PathIn(c.specs[i].paths.value, dirOf, d);
    }
  }

  /** The scope's value at a name, told from the call; see ScopeHolds. */
  ghost predicate HoldsAt(v: Option<Json>, c: Call, dirOf: DirOf, k: string) {
    if k == "__proto__" then v.None?
    else if k == "_recipients" && c.recipients.Some? then v == Some(Texts(c.recipients.value))
    else if (c.recipients.Some? || c.writesWorkspace) && k != "action" && k !in c.declared then v.None?
    else if k == "command" && c.command.Some? then
      v.Some? && exists run :: RunsAs(c.command.value, run) && v.value == Str(Join(run))
    else if PathArgument(c, k) then v.Some? && ListsDirectories(v.value, c, dirOf, k)
    else if k != "" && k[0] == '_' then v.None?
    else if Has(c.args, k) then
      v.Some? && exists i :: 0 <= i < |c.args| && c.args[i] == Member(k, v.value) && forall j :: 0 <= j < i ==> c.args[j].key != k
    else v.None?
  }

  /**
   The scope under which an approval is remembered, name by name: the recipients; of a send or a workspace write nothing else
   but the action and the declared arguments; the command as the words it runs; a path argument as its directories; none of
   the dispatcher's arguments; and any other argument as it is.
   */
  lemma ScopeHolds(c: Call, dirOf: DirOf, k: string)
    ensures HoldsAt(ScopeAt(c, dirOf, k), c, dirOf, k)
  {
    hide Texts, Canonical, SortTexts, DirsFor, PathArgument, ListsDirectories, Get, Join, RunsAs, Has;
    GetMeans(c.args, k);
    PathsMean(c, dirOf, k);
    if c.command.Some? { var run := NameIsWhatRuns(c.command.value); }
  }

  // ---- what a shared key shares ----

  /** The argument counts as it is: neither the command nor a path nor the dispatcher's, of a call whose arguments all count. */
  ghost predicate CountsAsItIs(c: Call, k: string) {
    && k != "__proto__" && !(k != "" && k[0] == '_') && !(k == "command" && c.command.Some?) && !PathArgument(c, k)
    && ((c.recipients.None? && !c.writesWorkspace) || k == "action" || k in c.declared)
  }

  /** Calls that share a key have the same arguments wherever arguments count as they are. */
  lemma GrantIsBoundToArguments(tool: string, c: Call, d: Call, a: seq<Member>, b: seq<Member>, k: string, dirOf: DirOf)
    requires IsScope(a, c, dirOf) && IsScope(b, d, dirOf) && CacheKey(tool, a) == CacheKey(tool, b)
    requires CountsAsItIs(c, k) && CountsAsItIs(d, k)
    ensures MeaningAtKey(Get(c.args, k)) == MeaningAtKey(Get(d.args, k))
  {
    hide Meaning, CacheKey, DirsFor, Get, IsScope, MeaningAtKey, PathArgument;
    GrantCoversExactlyItsScope(tool, c, d, a, b, dirOf);
    PathsMean(c, dirOf, k);
    PathsMean(d, dirOf, k);
    assert MeaningAtKey(ScopeAt(c, dirOf, k)) == MeaningAtKey(ScopeAt(d, dirOf, k));
  }

  /** What a workspace write writes does not count: two calls that agree on every declared name and the action share a key. */
  lemma PayloadDoesNotCount(tool: string, c: Call, d: Call, a: seq<Member>, b: seq<Member>, dirOf: DirOf)
    requires IsScope(a, c, dirOf) && IsScope(b, d, dirOf)
    requires c.writesWorkspace && d.writesWorkspace && c.recipients.None? && d.recipients.None? && c.declared == d.declared
    requires forall k :: k == "action" || k in c.declared ==> ScopeAt(c, dirOf, k) == ScopeAt(d, dirOf, k)
    ensures CacheKey(tool, a) == CacheKey(tool, b)
  {
    hide Meaning, CacheKey, DirsFor, Get, IsScope, MeaningAtKey, Canonical;
    forall k ensures MeaningAtKey(ScopeAt(c, dirOf, k)) == MeaningAtKey(ScopeAt(d, dirOf, k)) {
    }
    GrantCoversExactlyItsScope(tool, c, d, a, b, dirOf);
  }
}
