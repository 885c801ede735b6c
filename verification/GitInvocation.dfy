/**
 Reading git's own options off a command line, up to the subcommand.
 */
module GitInvocation {
  import opened Wrappers

  datatype GitOption = GitOption(name: string, value: Option<string>)

  /** The options that take the next word as their value. */
  predicate TakesValue(w: string) {
    w == "-C" || w == "-c" || w == "--git-dir" || w == "--work-tree" || w == "--namespace" || w == "--config-env"
    || w == "--super-prefix" || w == "--attr-source" || w == "--shallow-file"
  }

  predicate IsOption(w: string) { w != "" && w[0] == '-' }

  predicate IsLong(w: string) { |w| >= 2 && w[0] == '-' && w[1] == '-' }

  function IndexOf(s: string, c: char): (i: nat)
    ensures i <= |s| && (i < |s| ==> s[i] == c) && forall j :: 0 <= j < i ==> s[j] != c
  {
    if s == "" || s[0] == c then 0 else 1 + IndexOf(s[1..], c)
  }

  datatype Parsed = Parsed(options: seq<GitOption>, sub: nat)

  /** One option and how many words it takes; a value that is missing at the end counts as a word. */
  function ParseOne(words: seq<string>): (r: (GitOption, nat))
    requires words != [] && IsOption(words[0])
    ensures 1 <= r.1 <= 2
  {
    var w := words[0];
    if IsLong(w) && IndexOf(w, '=') < |w| then (GitOption(w[..IndexOf(w, '=')], Some(w[IndexOf(w, '=') + 1..])), 1)
    else if TakesValue(w) then (GitOption(w, if |words| > 1 then Some(words[1]) else None), 2)
    else (GitOption(w, None), 1)
  }

  function Parse(words: seq<string>): Parsed
    decreases |words|
  {
    if words == [] || !IsOption(words[0]) then Parsed([], 0)
    else
      var (option, n) := ParseOne(words);
      if n > |words| then Parsed([option], n)
      else
        var rest := Parse(words[n..]);
        Parsed([option] + rest.options, n + rest.sub)
  }

  /** The last `-C`. */
  function DirArg(options: seq<GitOption>): Option<string> {
    if options == [] then None
    else if options[|options| - 1].name == "-C" then options[|options| - 1].value
    else DirArg(options[..|options| - 1])
  }

  /** The directory git works in is the value of the last `-C`, if there is one. */
  lemma {:induction false} LastDirectoryWins(options: seq<GitOption>)
    ensures if exists i :: 0 <= i < |options| && options[i].name == "-C"
            then exists i :: 0 <= i < |options| && options[i].name == "-C" && DirArg(options) == options[i].value
                             && forall j :: i < j < |options| ==> options[j].name != "-C"
            else DirArg(options) == None
  {
    if options != [] && options[|options| - 1].name != "-C" {
      var front := options[..|options| - 1];
      LastDirectoryWins(front);
      assert forall i :: 0 <= i < |front| ==> front[i] == options[i];
      if i :| 0 <= i < |front| && front[i].name == "-C" && DirArg(front) == front[i].value
              && forall j :: i < j < |front| ==> front[j].name != "-C" {
        assert options[i].name == "-C";
      }
    }
  }

  /** The next option, and where the one after it starts. */
  method NextOption(words: seq<string>, at: nat) returns (option: GitOption, next: nat)
    requires at < |words| && IsOption(words[at])
    ensures (option, next - at) == ParseOne(words[at..]) && next > at
  {
    hide TakesValue;
    var w := words[at];
    var eq := IndexOf(w, '=');
    next := at;
    if IsLong(w) && eq < |w| {
      option := GitOption(w[..eq], Some(w[eq + 1..]));
    } else if TakesValue(w) {
      next := next + 1;
      option := GitOption(w, if next < |words| then Some(words[next]) else None);
    } else {
      option := GitOption(w, None);
    }
    next := next + 1;
  }

  /** Where reading has got to: before the words' end, or past it after a missing value. */
  ghost predicate ReadUpTo(words: seq<string>, sub: nat, options: seq<GitOption>) {
    if sub <= |words| then
      Parsed(options + Parse(words[sub..]).options, sub + Parse(words[sub..]).sub) == Parse(words)
    else Parsed(options, sub) == Parse(words)
  }

  lemma ReadOneMore(words: seq<string>, sub: nat, options: seq<GitOption>, option: GitOption, next: nat)
    requires sub < |words| && IsOption(words[sub]) && ReadUpTo(words, sub, options)
    requires (option, next - sub) == ParseOne(words[sub..]) && next > sub
    ensures ReadUpTo(words, next, options + [option]) && DirArg(options + [option]) == if option.name == "-C" then option.value else DirArg(options)
  {
    hide ParseOne, TakesValue;
    var left := words[sub..];
    assert left[0] == words[sub];
    assert (options + [option])[..|options|] == options;
    if next <= |words| {
      assert left[next - sub..] == words[next..];
      var rest := Parse(words[next..]);
      assert Parse(left) == Parsed([option] + rest.options, next - sub + rest.sub);
      assert options + ([option] + rest.options) == options + [option] + rest.options;
    }
  }

  /** gitInvocation, on the words after `git`. */
  method Invocation(words: seq<string>) returns (sub: nat, options: seq<GitOption>, dirArg: Option<string>)
    ensures Parsed(options, sub) == Parse(words) && dirArg == DirArg(options)
  {
    hide ParseOne, ReadUpTo, DirArg;
    sub, options, dirArg := 0, [], None;
    NothingYet(words);
    while sub < |words| && IsOption(words[sub])
      invariant ReadUpTo(words, sub, options) && dirArg == DirArg(options)
    {
      var option, next := NextOption(words, sub);
      ReadOneMore(words, sub, options, option, next);
      if option.name == "-C" {
        dirArg := option.value;
      }
      options := options + [option];
      sub := next;
    }
    AllRead(words, sub, options);
  }

  lemma NothingYet(words: seq<string>)
    ensures ReadUpTo(words, 0, []) && DirArg([]) == None
  {
    assert words[0..] == words;
  }

  lemma AllRead(words: seq<string>, sub: nat, options: seq<GitOption>)
    requires ReadUpTo(words, sub, options) && (sub < |words| ==> !IsOption(words[sub]))
    ensures Parsed(options, sub) == Parse(words)
  {
    if sub <= |words| {
      assert Parse(words[sub..]) == Parsed([], 0);
      assert options + [] == options;
    }
  }

  // ---- spelling options out ----

  /** The three ways to write an option. */
  datatype Spelled = Bare(name: string) | Joined(name: string, value: string) | Separate(name: string, value: string)

  predicate WellSpelled(s: Spelled) {
    match s
    case Bare(name) => IsOption(name) && !TakesValue(name) && (IsLong(name) ==> '=' !in name)
    case Joined(name, _) => IsLong(name) && '=' !in name
    case Separate(name, _) => TakesValue(name)
  }

  function Spell(s: Spelled): seq<string> {
    match s
    case Bare(name) => [name]
    case Joined(name, value) => [name + "=" + value]
    case Separate(name, value) => [name, value]
  }

  function OptionOf(s: Spelled): GitOption { GitOption(s.name, if s.Bare? then None else Some(s.value)) }

  function SpellAll(ss: seq<Spelled>): seq<string> {
    if ss == [] then [] else Spell(ss[0]) + SpellAll(ss[1..])
  }

  function OptionsOf(ss: seq<Spelled>): (r: seq<GitOption>)
    ensures |r| == |ss| && forall i :: 0 <= i < |r| ==> r[i] == OptionOf(ss[i])
  {
    seq(|ss|, i requires 0 <= i < |ss| => OptionOf(ss[i]))
  }

  lemma ValueOptsHaveNoEquals(w: string)
    requires TakesValue(w)
    ensures IsOption(w) && '=' !in w
  {
  }

  lemma {:induction false} IndexOfJoined(name: string, value: string)
    requires '=' !in name
    ensures IndexOf(name + "=" + value, '=') == |name|
  {
    if name != "" {
      assert (name + "=" + value)[1..] == name[1..] + "=" + value;
      IndexOfJoined(name[1..], value);
    }
  }

  lemma ParseOneSpelled(s: Spelled, rest: seq<string>)
    requires WellSpelled(s)
    ensures var words := Spell(s) + rest;
            IsOption(words[0]) && ParseOne(words) == (OptionOf(s), |Spell(s)|)
  {
    hide TakesValue;
    match s
    case Bare(name) =>
    case Joined(name, value) =>
      IndexOfJoined(name, value);
      var w := name + "=" + value;
      assert w[..|name|] == name && w[|name| + 1..] == value;
    case Separate(name, value) => ValueOptsHaveNoEquals(name);
  }

  /** Options written in any of their spellings are read back, up to exactly where the subcommand starts. */
  lemma {:induction false} ParseReadsSpelling(ss: seq<Spelled>, rest: seq<string>)
    requires (forall s :: s in ss ==> WellSpelled(s)) && (rest == [] || !IsOption(rest[0]))
    ensures Parse(SpellAll(ss) + rest) == Parsed(OptionsOf(ss), |SpellAll(ss)|)
    decreases |ss|
  {
    hide TakesValue, ParseOne, WellSpelled, Spell, OptionOf, IsOption;
    if ss == [] {
      assert SpellAll(ss) + rest == rest;
      assert OptionsOf(ss) == [];
    } else {
      var words, tail := SpellAll(ss) + rest, SpellAll(ss[1..]) + rest;
      assert words == Spell(ss[0]) + tail;
      assert ss[0] in ss;
      ParseOneSpelled(ss[0], tail);
      assert words[|Spell(ss[0])|..] == tail;
      ParseReadsSpelling(ss[1..], rest);
      assert [OptionOf(ss[0])] + OptionsOf(ss[1..]) == OptionsOf(ss);
    }
  }

  lemma OneIsSpelled(words: seq<string>) returns (s: Spelled)
    requires words != [] && IsOption(words[0]) && ParseOne(words).1 <= |words|
    ensures WellSpelled(s) && Spell(s) == words[..ParseOne(words).1] && OptionOf(s) == ParseOne(words).0
  {
    hide TakesValue;
    var w := words[0];
    var eq := IndexOf(w, '=');
    if IsLong(w) && eq < |w| {
      s := Joined(w[..eq], w[eq + 1..]);
      assert w == w[..eq] + "=" + w[eq + 1..];
    } else if TakesValue(w) {
      s := Separate(w, words[1]);
    } else {
      s := Bare(w);
    }
  }

  /** Whatever is read off a command line was spelled there: no word is lost, and the first one left is no option. */
  lemma {:induction false} ParsedWasSpelled(words: seq<string>) returns (ss: seq<Spelled>)
    requires Parse(words).sub <= |words|
    ensures forall s :: s in ss ==> WellSpelled(s)
    ensures SpellAll(ss) == words[..Parse(words).sub] && OptionsOf(ss) == Parse(words).options
    ensures Parse(words).sub < |words| ==> !IsOption(words[Parse(words).sub])
    decreases |words|
  {
    hide TakesValue, ParseOne, WellSpelled, Spell, OptionOf;
    if words == [] || !IsOption(words[0]) {
      ss := [];
    } else {
      var n := ParseOne(words).1;
      var s := OneIsSpelled(words);
      var rest := ParsedWasSpelled(words[n..]);
      ss := [s] + rest;
      assert ss[0] == s && ss[1..] == rest;
      assert OptionsOf(ss) == [OptionOf(s)] + OptionsOf(rest);
      assert words[..Parse(words).sub] == words[..n] + words[n..][..Parse(words[n..]).sub];
    }
  }
}
