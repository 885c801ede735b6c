/**
 What a remembered approval covers: the scope of a call, as its tool declares it, and the key
 under which the grant is kept.
 */
module Grants {
  import opened Wrappers
  import opened StableJson
  import opened JsonMeaning
  import opened Text

  // ---- the command a grant names ----

  predicate IsWordChar(c: char) { 'a' <= c <= 'z' || 'A' <= c <= 'Z' || '0' <= c <= '9' || c == '_' }

  /** The maximal runs of other characters between white space. */
  function Words(s: string): seq<string> {
    if s == "" then []
    else if IsSpace(s[0]) then Words(s[1..])
    else
      var w := Run(s);
      [w] + Words(s[|w|..])
  }

  function Run(s: string): (w: string)
    ensures |w| <= |s| && s[..|w|] == w
    ensures forall i :: 0 <= i < |w| ==> !IsSpace(w[i])
    ensures |w| < |s| ==> IsSpace(s[|w|])
    ensures s != "" && !IsSpace(s[0]) ==> w != ""
  {
    if s == "" || IsSpace(s[0]) then "" else [s[0]] + Run(s[1..])
  }

  /** NAME=value, with a name and a value. */
  predicate IsAssignment(token: string) {
    exists k :: 0 < k < |token| - 1 && token[k] == '=' && forall i :: 0 <= i < k ==> IsWordChar(token[i])
  }

  function Join(words: seq<string>): string {
    if words == [] then "" else if |words| == 1 then words[0] else words[0] + " " + Join(words[1..])
  }

  function DropAssignments(words: seq<string>): seq<string> {
    if words != [] && IsAssignment(words[0]) then DropAssignments(words[1..]) else words
  }

  /** canonicalCommand, whose split of a blank command gives one empty word instead of none. */
  function Canonical(raw: string): string { Join(DropAssignments(Words(raw))) }

  predicate IsWord(w: string) { w != "" && forall i :: 0 <= i < |w| ==> !IsSpace(w[i]) }

  lemma {:induction false} WordsAreWords(s: string)
    ensures forall w :: w in Words(s) ==> IsWord(w)
    decreases |s|
  {
    if s == "" {
    } else if IsSpace(s[0]) {
      WordsAreWords(s[1..]);
    } else {
      WordsAreWords(s[|Run(s)|..]);
    }
  }

  lemma {:induction false} RunOfWord(w: string, rest: string)
    requires (forall i :: 0 <= i < |w| ==> !IsSpace(w[i])) && (rest == "" || IsSpace(rest[0]))
    ensures Run(w + rest) == w
  {
    if w == "" {
      assert w + rest == rest;
    } else {
      assert (w + rest)[1..] == w[1..] + rest;
      RunOfWord(w[1..], rest);
    }
  }

  /** Joining words with single spaces and splitting again gives the words back. */
  lemma {:induction false} WordsOfJoin(words: seq<string>)
    requires forall w :: w in words ==> IsWord(w)
    ensures Words(Join(words)) == words
  {
    if words != [] {
      var w, s := words[0], Join(words);
      assert w in words;
      var rest := if |words| == 1 then "" else " " + Join(words[1..]);
      assert s == w + rest;
      RunOfWord(w, rest);
      assert s[|w|..] == rest;
      if |words| > 1 {
        assert rest[1..] == Join(words[1..]);
        assert Words(rest) == Words(rest[1..]);
      }
      WordsOfJoin(words[1..]);
      assert words == [w] + words[1..];
    }
  }

  lemma {:induction false} DropAssignmentsStops(words: seq<string>)
    ensures var kept := DropAssignments(words); DropAssignments(kept) == kept
    ensures forall w :: w in DropAssignments(words) ==> w in words
  {
    if words != [] && IsAssignment(words[0]) { DropAssignmentsStops(words[1..]); }
  }

  /** Naming a command twice names it once. */
  lemma CanonicalIsIdempotent(raw: string)
    ensures Canonical(Canonical(raw)) == Canonical(raw)
  {
    WordsAreWords(raw);
    DropAssignmentsStops(Words(raw));
    WordsOfJoin(DropAssignments(Words(raw)));
  }

  /** Two commands share a name exactly when they run the same words after their leading assignments. */
  lemma SameCommandIffSameWords(a: string, b: string)
    ensures Canonical(a) == Canonical(b) <==> DropAssignments(Words(a)) == DropAssignments(Words(b))
  {
    WordsAreWords(a);
    WordsAreWords(b);
    DropAssignmentsStops(Words(a));
    DropAssignmentsStops(Words(b));
    WordsOfJoin(DropAssignments(Words(a)));
    WordsOfJoin(DropAssignments(Words(b)));
  }

  method CanonicalCommand(raw: string) returns (r: string)
    ensures r == Canonical(raw)
  {
    var tokens := Words(raw);
    var i := 0;
    while i < |tokens| && IsAssignment(tokens[i])
      invariant 0 <= i <= |tokens| && DropAssignments(tokens[i..]) == DropAssignments(tokens)
    {
      assert tokens[i..][1..] == tokens[i + 1..];
      i := i + 1;
    }
    r := Join(tokens[i..]);
  }

  // ---- sorted sets of texts ----

  function InsertText(t: string, sorted: seq<string>): seq<string> {
    if sorted == [] then [t] else if Less(t, sorted[0]) then [t] + sorted else [sorted[0]] + InsertText(t, sorted[1..])
  }

  function SortTexts(ts: seq<string>): seq<string> {
    if ts == [] then [] else InsertText(ts[0], SortTexts(ts[1..]))
  }

  predicate Ascending(ts: seq<string>) { forall i, j :: 0 <= i < j < |ts| ==> Less(ts[i], ts[j]) }

  predicate Distinct(ts: seq<string>) { forall i, j :: 0 <= i < j < |ts| ==> ts[i] != ts[j] }

  lemma {:induction false} InsertTextKeeps(t: string, sorted: seq<string>)
    requires Ascending(sorted) && t !in sorted
    ensures Ascending(InsertText(t, sorted)) && forall x :: x in InsertText(t, sorted) <==> x == t || x in sorted
  {
    hide Less;
    if sorted == [] {
    } else if Less(t, sorted[0]) {
      forall j | 0 <= j < |sorted| ensures Less(t, sorted[j]) { LessIsOrder(t, sorted[0], sorted[j]); }
    } else {
      var rest := InsertText(t, sorted[1..]);
      LessIsOrder(sorted[0], t, "");
      InsertTextKeeps(t, sorted[1..]);
      forall j | 0 <= j < |rest| ensures Less(sorted[0], rest[j]) {
        assert rest[j] in rest;
        if rest[j] != t {
          var k :| 0 <= k < |sorted[1..]| && sorted[1..][k] == rest[j];
          assert sorted[1 + k] == rest[j];
        }
      }
      assert sorted == [sorted[0]] + sorted[1..];
    }
  }

  lemma {:induction false} SortTextsSorts(ts: seq<string>)
    requires Distinct(ts)
    ensures Ascending(SortTexts(ts)) && forall x :: x in SortTexts(ts) <==> x in ts
  {
    if ts != [] {
      SortTextsSorts(ts[1..]);
      assert ts == [ts[0]] + ts[1..];
      InsertTextKeeps(ts[0], SortTexts(ts[1..]));
    }
  }

  lemma {:induction false} OneListing(a: seq<string>, b: seq<string>)
    requires Ascending(a) && Ascending(b) && forall x :: x in a <==> x in b
    ensures a == b
  {
    hide Less;
    assert b != [] ==> b[0] in b;
    if a == [] {
    } else {
      assert a[0] in b && b[0] in a;
      var i :| 0 <= i < |b| && b[i] == a[0];
      var j :| 0 <= j < |a| && a[j] == b[0];
      LessIsOrder(a[0], b[0], a[0]);
      assert a == [a[0]] + a[1..] && b == [b[0]] + b[1..];
      FirstOnce(a);
      FirstOnce(b);
      forall x ensures x in a[1..] <==> x in b[1..] {
        assert x in a <==> x in b;
        assert x in a <==> x == a[0] || x in a[1..];
        assert x in b <==> x == b[0] || x in b[1..];
      }
      OneListing(a[1..], b[1..]);
    }
  }

  lemma FirstOnce(a: seq<string>)
    requires Ascending(a) && a != []
    ensures a[0] !in a[1..]
  {
    hide Less;
    LessIsOrder(a[0], a[0], a[0]);
    assert forall k :: 0 <= k < |a[1..]| ==> a[1..][k] == a[1 + k];
  }

  /** Sorted listings agree exactly when the sets do. */
  lemma SameListingIffSameSet(a: seq<string>, b: seq<string>)
    requires Distinct(a) && Distinct(b)
    ensures SortTexts(a) == SortTexts(b) <==> forall x :: x in a <==> x in b
  {
    SortTextsSorts(a);
    SortTextsSorts(b);
    if forall x :: x in a <==> x in b { OneListing(SortTexts(a), SortTexts(b)); }
  }

  // ---- the scope of a call ----

  /** A declared path argument: `each` marks a list of records; `paths` is what the helper reads in it, if it is well formed. */
  datatype Spec = Spec(arg: string, each: bool, paths: Option<seq<string>>)

  /**
   A call as the fingerprint sees it: its arguments; the path specs pathSpecsForCall picks, each read by declaredPaths;
   the names its tool's table declares; the command of shellCommandOf; the destinations of recipientsOf; and whether
   hasCapability says it writes the workspace.
   */
  datatype Call = Call(args: seq<Member>, specs: seq<Spec>, declared: set<string>, command: Option<string>,
                       recipients: Option<seq<string>>, writesWorkspace: bool)

  /** The directory a path counts by is a parameter. */
  type DirOf = string -> string

  const RECIPIENTS := "_recipients"

  function Texts(ts: seq<string>): Json { Arr(seq(|ts|, i requires 0 <= i < |ts| => Str(ts[i]))) }

  /** obj[k] = v: no own property for `__proto__`; an existing key keeps its place. */
  function Put(obj: seq<Member>, k: string, v: Json): seq<Member> {
    if k == PROTO then obj
    else if obj == [] then [Member(k, v)]
    else if obj[0].key == k then [Member(k, v)] + obj[1..]
    else [obj[0]] + Put(obj[1..], k, v)
  }

  function Get(obj: seq<Member>, k: string): Option<Json> {
    if obj == [] then None else if obj[0].key == k then Some(obj[0].value) else Get(obj[1..], k)
  }

  function Keep(obj: seq<Member>, kept: set<string>): seq<Member> {
    if obj == [] then [] else (if obj[0].key in kept then [obj[0]] else []) + Keep(obj[1..], kept)
  }

  predicate Internal(k: string) { k != "" && k[0] == '_' }

  function AddAll(dirs: seq<string>, paths: seq<string>, dirOf: DirOf): seq<string>
    decreases |paths|
  {
    if paths == [] then dirs
    else
      var d := dirOf(paths[0]);
      AddAll(if d in dirs then dirs else dirs + [d], paths[1..], dirOf)
  }

  predicate Counts(spec: Spec, args: seq<Member>) { !spec.each && Get(args, spec.arg).Some? && spec.paths.Some? }

  /** The directories an argument counts by, over all its specs, in the order met; none if no spec reads it. */
  function DirsFor(specs: seq<Spec>, args: seq<Member>, arg: string, dirOf: DirOf): Option<seq<string>> {
    if specs == [] then None
    else
      var last := specs[|specs| - 1];
      var before := DirsFor(specs[..|specs| - 1], args, arg, dirOf);
      if last.arg == arg && Counts(last, args) then Some(AddAll(before.GetOr([]), last.paths.value, dirOf)) else before
  }

  predicate PayloadIsFree(c: Call) { c.recipients.Some? || c.writesWorkspace }

  /** The scope's value at a key. */
  function ScopeAt(c: Call, dirOf: DirOf, k: string): Option<Json> {
    if k == PROTO then None
    else if k == RECIPIENTS && c.recipients.Some? then Some(Texts(c.recipients.value))
    else if PayloadIsFree(c) && k != "action" && k !in c.declared then None
    else if k == "command" && c.command.Some? then Some(Str(Canonical(c.command.value)))
    else
      var dirs := DirsFor(c.specs, c.args, k, dirOf);
      if dirs.Some? then Some(Texts(SortTexts(dirs.value)))
      else if Internal(k) then None
      else Get(c.args, k)
  }

  lemma {:induction false} GetPut(obj: seq<Member>, k: string, v: Json, j: string)
    ensures Get(Put(obj, k, v), j) == if j == k && k != PROTO then Some(v) else Get(obj, j)
  {
    if k != PROTO && obj != [] {
      if obj[0].key == k {
        assert Put(obj, k, v)[1..] == obj[1..];
      } else {
        GetPut(obj[1..], k, v, j);
        assert Put(obj, k, v)[1..] == Put(obj[1..], k, v);
      }
    }
  }

  lemma {:induction false} GetKeep(obj: seq<Member>, kept: set<string>, j: string)
    ensures Get(Keep(obj, kept), j) == if j in kept then Get(obj, j) else None
  {
    if obj != [] {
      GetKeep(obj[1..], kept, j);
      if obj[0].key in kept {
        assert Keep(obj, kept)[1..] == Keep(obj[1..], kept);
      } else {
        assert Keep(obj, kept) == Keep(obj[1..], kept);
      }
    }
  }

  /** A member whose key is not among the old ones, nor the new one's, can stand before them. */
  lemma KeysCons(first: Member, rest: seq<Member>, was: seq<Member>, m: Member)
    requires DistinctKeys(rest) && DistinctKeys([first] + was) && (forall x :: x in rest ==> x == m || x in was)
    requires m in rest ==> m.key != first.key || m in was
    ensures DistinctKeys([first] + rest)
  {
    forall j | 0 <= j < |rest| ensures rest[j].key != first.key {
      assert rest[j] in rest;
      if rest[j] in was {
        var k :| 0 <= k < |was| && was[k] == rest[j];
        assert ([first] + was)[1 + k] == rest[j] && ([first] + was)[0] == first;
      }
    }
  }

  lemma {:induction false} KeysAfterPut(obj: seq<Member>, k: string, v: Json)
    requires DistinctKeys(obj)
    ensures DistinctKeys(Put(obj, k, v)) && forall m :: m in Put(obj, k, v) ==> m == Member(k, v) || m in obj
  {
    if k != PROTO && obj != [] && obj[0].key != k {
      KeysAfterPut(obj[1..], k, v);
      KeysCons(obj[0], Put(obj[1..], k, v), obj[1..], Member(k, v));
    }
  }

  lemma {:induction false} KeysAfterKeep(obj: seq<Member>, kept: set<string>)
    requires DistinctKeys(obj)
    ensures DistinctKeys(Keep(obj, kept)) && forall m :: m in Keep(obj, kept) ==> m in obj
  {
    if obj != [] {
      KeysAfterKeep(obj[1..], kept);
      if obj[0].key in kept {
        KeysCons(obj[0], Keep(obj[1..], kept), obj[1..], obj[0]);
      } else {
        assert Keep(obj, kept) == Keep(obj[1..], kept);
      }
    }
  }

  /** Every value the scope may hold is a JSON value. */
  predicate GoodObject(obj: seq<Member>) { DistinctKeys(obj) && forall m :: m in obj ==> Valid(m.value) }

  lemma GoodAfterPut(obj: seq<Member>, k: string, v: Json)
    requires GoodObject(obj) && Valid(v)
    ensures GoodObject(Put(obj, k, v)) && forall j :: Get(Put(obj, k, v), j) == if j == k && k != PROTO then Some(v) else Get(obj, j)
  {
    hide Valid;
    KeysAfterPut(obj, k, v);
    forall j ensures Get(Put(obj, k, v), j) == if j == k && k != PROTO then Some(v) else Get(obj, j) { GetPut(obj, k, v, j); }
  }

  lemma GoodAfterKeep(obj: seq<Member>, kept: set<string>)
    requires GoodObject(obj)
    ensures GoodObject(Keep(obj, kept)) && forall j :: Get(Keep(obj, kept), j) == if j in kept then Get(obj, j) else None
  {
    hide Valid;
    KeysAfterKeep(obj, kept);
    forall j ensures Get(Keep(obj, kept), j) == if j in kept then Get(obj, j) else None { GetKeep(obj, kept, j); }
  }

  lemma {:induction false} GetLast(obj: seq<Member>, j: string)
    requires obj != [] && DistinctKeys(obj)
    ensures Get(obj, j) == if j == obj[|obj| - 1].key then Some(obj[|obj| - 1].value) else Get(obj[..|obj| - 1], j)
  {
    if |obj| > 1 {
      GetLast(obj[1..], j);
      assert obj[1..][..|obj| - 2] == obj[..|obj| - 1][1..];
    }
  }

  /** The arguments that are the model's own. */
  method OwnArguments(args: seq<Member>) returns (scope: seq<Member>)
    requires GoodObject(args)
    ensures GoodObject(scope) && forall k :: Get(scope, k) == if k == PROTO || Internal(k) then None else Get(args, k)
  {
    hide Valid;
    scope := [];
    for i := 0 to |args|
      invariant GoodObject(scope)
      invariant forall k :: Get(scope, k) == if k == PROTO || Internal(k) then None else Get(args[..i], k)
    {
      assert args[..i + 1][..i] == args[..i] && args[i] in args;
      forall k ensures Get(args[..i + 1], k) == if k == args[i].key then Some(args[i].value) else Get(args[..i], k) {
        GetLast(args[..i + 1], k);
      }
      if !Internal(args[i].key) {
        GoodAfterPut(scope, args[i].key, args[i].value);
        scope := Put(scope, args[i].key, args[i].value);
      }
    }
    assert args[..|args|] == args;
  }

  /** Each argument that declares paths, with its directories. */
  method PathDirs(specs: seq<Spec>, args: seq<Member>, dirOf: DirOf) returns (dirs: map<string, seq<string>>)
    ensures forall k :: DirsFor(specs, args, k, dirOf) == if k in dirs then Some(dirs[k]) else None
  {
    dirs := map[];
    for i := 0 to |specs|
      invariant forall k :: DirsFor(specs[..i], args, k, dirOf) == if k in dirs then Some(dirs[k]) else None
    {
      assert specs[..i + 1][..i] == specs[..i];
      var spec := specs[i];
      if spec.each || Get(args, spec.arg).None? || spec.paths.None? {
        continue;
      }
      dirs := dirs[spec.arg := AddAll(if spec.arg in dirs then dirs[spec.arg] else [], spec.paths.value, dirOf)];
    }
    assert specs[..|specs|] == specs;
  }

  lemma TextsAreValid(ts: seq<string>)
    ensures Valid(Texts(ts))
  {
  }

  /** computeArgsFingerprint, up to the printing, for a tool that is neither granted whole nor use_secret. */
  method BuildScope(c: Call, dirOf: DirOf) returns (scope: seq<Member>)
    requires GoodObject(c.args)
    ensures GoodObject(scope) && forall k :: Get(scope, k) == ScopeAt(c, dirOf, k)
  {
    hide Valid, DirsFor, Canonical, SortTexts;
    scope := OwnArguments(c.args);
    var pathDirs := PathDirs(c.specs, c.args, dirOf);
    scope := PutDirs(scope, pathDirs);
    if c.command.Some? {
      var name := CanonicalCommand(c.command.value);
      StrIsValid(name);
      GoodAfterPut(scope, "command", Str(name));
      scope := Put(scope, "command", Str(name));
    }
    if c.recipients.Some? || c.writesWorkspace {
      GoodAfterKeep(scope, {"action"} + c.declared);
      scope := Keep(scope, {"action"} + c.declared);
    }
    if c.recipients.Some? {
      TextsAreValid(c.recipients.value);
      GoodAfterPut(scope, RECIPIENTS, Texts(c.recipients.value));
      scope := Put(scope, RECIPIENTS, Texts(c.recipients.value));
    }
  }

  lemma StrIsValid(s: string)
    ensures Valid(Str(s))
  {
  }

  method PutDirs(before: seq<Member>, pathDirs: map<string, seq<string>>) returns (scope: seq<Member>)
    requires GoodObject(before)
    ensures GoodObject(scope)
    ensures forall k :: Get(scope, k) == if k in pathDirs && k != PROTO then Some(Texts(SortTexts(pathDirs[k]))) else Get(before, k)
  {
    hide Valid, SortTexts, GoodObject;
    scope := before;
    var todo := pathDirs.Keys;
    while todo != {}
      invariant GoodObject(scope) && todo <= pathDirs.Keys
      invariant forall k ::
        Get(scope, k) == if k in pathDirs && k !in todo && k != PROTO then Some(Texts(SortTexts(pathDirs[k]))) else Get(before, k)
      decreases |todo|
    {
      var arg :| arg in todo;
      todo := todo - {arg};
      TextsAreValid(SortTexts(pathDirs[arg]));
      GoodAfterPut(scope, arg, Texts(SortTexts(pathDirs[arg])));
      scope := Put(scope, arg, Texts(SortTexts(pathDirs[arg])));
    }
  }

  // ---- what shares a key ----

  function MeaningAtKey(v: Option<Json>): Option<Value> {
    match v
    case Some(x) => Some(Meaning(x))
    case None => None
  }

  lemma {:induction false} MeaningOfObject(obj: seq<Member>, k: string)
    requires DistinctKeys(obj)
    ensures k != PROTO && Get(obj, k).Some? ==>
              k in MembersMeaning(obj) && MembersMeaning(obj)[k] == Meaning(Get(obj, k).value)
    ensures k == PROTO || Get(obj, k).None? ==> k !in MembersMeaning(obj)
  {
    hide Meaning;
    if obj != [] { MeaningOfObject(obj[1..], k); }
  }

  /** Two objects hold, up to key order, the same value at every key. */
  ghost predicate Agree(a: seq<Member>, b: seq<Member>) {
    forall k :: MeaningAtKey(Get(a, k)) == MeaningAtKey(Get(b, k))
  }

  ghost predicate SameScope(c: Call, d: Call, dirOf: DirOf) {
    forall k :: MeaningAtKey(ScopeAt(c, dirOf, k)) == MeaningAtKey(ScopeAt(d, dirOf, k))
  }

  /** Two scopes print alike exactly when they agree, up to key order, at every key. */
  lemma SameScopeText(a: seq<Member>, b: seq<Member>)
    requires GoodObject(a) && GoodObject(b)
    requires Get(a, PROTO).None? && Get(b, PROTO).None?
    ensures Stable(Obj(a)) == Stable(Obj(b)) <==> Agree(a, b)
  {
    hide Meaning, Stable, Get;
    ObjectIsValid(a);
    ObjectIsValid(b);
    SameTextIffSameMeaning(Obj(a), Obj(b));
    ObjMeaning(a);
    ObjMeaning(b);
    AgreeIffSameMap(a, b);
  }

  lemma MapAt(a: seq<Member>, k: string)
    requires GoodObject(a) && Get(a, PROTO).None?
    ensures MeaningAtKey(Get(a, k)) == if k in MembersMeaning(a) then Some(MembersMeaning(a)[k]) else None
  {
    hide Meaning;
    MeaningOfObject(a, k);
  }

  lemma AgreeIffSameMap(a: seq<Member>, b: seq<Member>)
    requires GoodObject(a) && GoodObject(b)
    requires Get(a, PROTO).None? && Get(b, PROTO).None?
    ensures Agree(a, b) <==> MembersMeaning(a) == MembersMeaning(b)
  {
    hide Meaning, Get, MeaningAtKey, MembersMeaning, GoodObject;
    var x, y := MembersMeaning(a), MembersMeaning(b);
    forall k ensures MeaningAtKey(Get(a, k)) == (if k in x then Some(x[k]) else None) { MapAt(a, k); }
    forall k ensures MeaningAtKey(Get(b, k)) == (if k in y then Some(y[k]) else None) { MapAt(b, k); }
    if Agree(a, b) {
      forall k ensures k in x <==> k in y { assert MeaningAtKey(Get(a, k)) == MeaningAtKey(Get(b, k)); }
      forall k | k in x ensures x[k] == y[k] { assert MeaningAtKey(Get(a, k)) == MeaningAtKey(Get(b, k)); }
      assert x == y;
    }
  }

  lemma ObjMeaning(members: seq<Member>)
    ensures Meaning(Obj(members)) == VObj(MembersMeaning(members))
  {
  }

  lemma ObjectIsValid(obj: seq<Member>)
    requires GoodObject(obj)
    ensures Valid(Obj(obj))
  {
    forall i | 0 <= i < |obj| ensures Valid(obj[i].value) { assert obj[i] in obj; }
  }

  /** Some way to list a call's scope as an object. */
  ghost predicate IsScope(scope: seq<Member>, c: Call, dirOf: DirOf) {
    GoodObject(scope) && forall k :: Get(scope, k) == ScopeAt(c, dirOf, k)
  }

  /** cacheKey: the tool's name and the fingerprint of the scope. */
  function CacheKey(tool: string, scope: seq<Member>): string { tool + "::" + Stable(Obj(scope)) }

  /** Two calls of a tool share a grant exactly when their scopes agree at every key, up to key order. */
  lemma GrantCoversExactlyItsScope(tool: string, c: Call, d: Call, a: seq<Member>, b: seq<Member>, dirOf: DirOf)
    requires IsScope(a, c, dirOf) && IsScope(b, d, dirOf)
    ensures CacheKey(tool, a) == CacheKey(tool, b) <==> SameScope(c, d, dirOf)
  {
    hide Meaning, Stable, Get, MeaningAtKey, ScopeAt, Agree;
    var p := tool + "::";
    assert CacheKey(tool, a)[|p|..] == Stable(Obj(a)) && CacheKey(tool, b)[|p|..] == Stable(Obj(b));
    NoProtoInScope(c, dirOf);
    NoProtoInScope(d, dirOf);
    SameScopeText(a, b);
    AgreeIffSameScope(c, d, a, b, dirOf);
  }

  lemma NoProtoInScope(c: Call, dirOf: DirOf)
    ensures ScopeAt(c, dirOf, PROTO).None?
  {
  }

  lemma AgreeIffSameScope(c: Call, d: Call, a: seq<Member>, b: seq<Member>, dirOf: DirOf)
    requires IsScope(a, c, dirOf) && IsScope(b, d, dirOf)
    ensures Agree(a, b) <==> SameScope(c, d, dirOf)
  {
    hide Meaning, Get, MeaningAtKey, ScopeAt, GoodObject;
    if Agree(a, b) {
      forall k ensures MeaningAtKey(ScopeAt(c, dirOf, k)) == MeaningAtKey(ScopeAt(d, dirOf, k)) {
        assert MeaningAtKey(Get(a, k)) == MeaningAtKey(Get(b, k));
      }
    }
    if SameScope(c, d, dirOf) {
      forall k ensures MeaningAtKey(Get(a, k)) == MeaningAtKey(Get(b, k)) {
        assert MeaningAtKey(ScopeAt(c, dirOf, k)) == MeaningAtKey(ScopeAt(d, dirOf, k));
      }
    }
  }

  lemma {:induction false} AddAllDistinct(dirs: seq<string>, paths: seq<string>, dirOf: DirOf)
    requires Distinct(dirs)
    ensures Distinct(AddAll(dirs, paths, dirOf))
    decreases |paths|
  {
    if paths != [] {
      var d := dirOf(paths[0]);
      AddAllDistinct(if d in dirs then dirs else dirs + [d], paths[1..], dirOf);
    }
  }

  /** A directory counts exactly when one of the paths is in it. */
  lemma {:induction false} AddAllAdds(dirs: seq<string>, paths: seq<string>, dirOf: DirOf, d: string)
    ensures d in AddAll(dirs, paths, dirOf) <==> d in dirs || exists i :: 0 <= i < |paths| && dirOf(paths[i]) == d
    decreases |paths|
  {
    if paths != [] {
      var e := dirOf(paths[0]);
      AddAllAdds(if e in dirs then dirs else dirs + [e], paths[1..], dirOf, d);
      if i :| 0 <= i < |paths| && dirOf(paths[i]) == d && d != e {
        assert paths[1..][i - 1] == paths[i];
      }
    }
  }

  lemma {:induction false} DirsAreDistinct(specs: seq<Spec>, args: seq<Member>, arg: string, dirOf: DirOf)
    ensures DirsFor(specs, args, arg, dirOf).Some? ==> Distinct(DirsFor(specs, args, arg, dirOf).value)
  {
    if specs != [] {
      DirsAreDistinct(specs[..|specs| - 1], args, arg, dirOf);
      var last := specs[|specs| - 1];
      if last.arg == arg && Counts(last, args) {
        AddAllDistinct(DirsFor(specs[..|specs| - 1], args, arg, dirOf).GetOr([]), last.paths.value, dirOf);
      }
    }
  }

  lemma TextsMeaning(a: seq<string>, b: seq<string>)
    ensures Meaning(Texts(a)) == Meaning(Texts(b)) <==> a == b
  {
    var x, y := ItemsMeaning(Texts(a).items), ItemsMeaning(Texts(b).items);
    if x == y {
      assert |a| == |x| == |y| == |b|;
      forall i | 0 <= i < |a| ensures a[i] == b[i] { assert x[i] == VStr(a[i]) && y[i] == VStr(b[i]); }
    }
  }

  /** A grant for one set of directories never covers another: calls that share a key name the same directories. */
  lemma GrantIsBoundToDirectories(tool: string, c: Call, d: Call, a: seq<Member>, b: seq<Member>, arg: string, dirOf: DirOf)
    requires IsScope(a, c, dirOf) && IsScope(b, d, dirOf) && CacheKey(tool, a) == CacheKey(tool, b)
    requires arg in c.declared && arg in d.declared && arg !in {PROTO, RECIPIENTS, "command"}
    requires DirsFor(c.specs, c.args, arg, dirOf).Some? && DirsFor(d.specs, d.args, arg, dirOf).Some?
    ensures forall x :: x in DirsFor(c.specs, c.args, arg, dirOf).value <==> x in DirsFor(d.specs, d.args, arg, dirOf).value
  {
    hide Meaning, CacheKey, SortTexts, DirsFor, Distinct;
    var x, y := DirsFor(c.specs, c.args, arg, dirOf).value, DirsFor(d.specs, d.args, arg, dirOf).value;
    GrantCoversExactlyItsScope(tool, c, d, a, b, dirOf);
    assert MeaningAtKey(ScopeAt(c, dirOf, arg)) == MeaningAtKey(ScopeAt(d, dirOf, arg));
    TextsMeaning(SortTexts(x), SortTexts(y));
    DirsAreDistinct(c.specs, c.args, arg, dirOf);
    DirsAreDistinct(d.specs, d.args, arg, dirOf);
    SameListingIffSameSet(x, y);
  }

  /** The command counts unless the call is a send or a workspace write that does not declare it. */
  predicate CommandCounts(c: Call) { c.command.Some? && (PayloadIsFree(c) ==> "command" in c.declared) }

  /** A grant for one command never covers another: calls that share a key run the same words after their assignments. */
  lemma GrantIsBoundToCommand(tool: string, c: Call, d: Call, a: seq<Member>, b: seq<Member>, dirOf: DirOf)
    requires IsScope(a, c, dirOf) && IsScope(b, d, dirOf) && CacheKey(tool, a) == CacheKey(tool, b)
    requires CommandCounts(c) && CommandCounts(d)
    ensures DropAssignments(Words(c.command.value)) == DropAssignments(Words(d.command.value))
  {
    hide Meaning, CacheKey, Canonical, Words, DirsFor;
    GrantCoversExactlyItsScope(tool, c, d, a, b, dirOf);
    assert MeaningAtKey(ScopeAt(c, dirOf, "command")) == MeaningAtKey(ScopeAt(d, dirOf, "command"));
    StrMeaning(Canonical(c.command.value), Canonical(d.command.value));
    SameCommandIffSameWords(c.command.value, d.command.value);
  }

  lemma StrMeaning(x: string, y: string)
    ensures Meaning(Str(x)) == Meaning(Str(y)) <==> x == y
  {
  }

  /** No tool declares paths under the internal name the recipients are kept at. */
  predicate RecipientsApart(c: Call) { forall spec :: spec in c.specs ==> spec.arg != RECIPIENTS }

  lemma {:induction false} NoDirsThere(specs: seq<Spec>, args: seq<Member>, arg: string, dirOf: DirOf)
    requires forall spec :: spec in specs ==> spec.arg != arg
    ensures DirsFor(specs, args, arg, dirOf).None?
  {
    if specs != [] {
      assert specs[|specs| - 1] in specs;
      NoDirsThere(specs[..|specs| - 1], args, arg, dirOf);
    }
  }

  /** A grant for one set of recipients never covers another, nor a call whose recipients cannot be named. */
  lemma GrantIsBoundToRecipients(tool: string, c: Call, d: Call, a: seq<Member>, b: seq<Member>, dirOf: DirOf)
    requires IsScope(a, c, dirOf) && IsScope(b, d, dirOf) && CacheKey(tool, a) == CacheKey(tool, b)
    requires RecipientsApart(c) && RecipientsApart(d)
    ensures c.recipients == d.recipients
  {
    hide Meaning, CacheKey, DirsFor;
    GrantCoversExactlyItsScope(tool, c, d, a, b, dirOf);
    NoDirsThere(c.specs, c.args, RECIPIENTS, dirOf);
    NoDirsThere(d.specs, d.args, RECIPIENTS, dirOf);
    assert MeaningAtKey(ScopeAt(c, dirOf, RECIPIENTS)) == MeaningAtKey(ScopeAt(d, dirOf, RECIPIENTS));
    if c.recipients.Some? && d.recipients.Some? {
      TextsMeaning(c.recipients.value, d.recipients.value);
    }
  }
}
