/**
 Stripping by regular expression until nothing changes: pseudo-system tags out of untrusted
 text, and HTML comments out of memory text.
 */
module Sanitize {
  import opened Wrappers

  /** A pattern: the length of the match at an index of a text, if there is one. */
  type Matcher = (string, nat) -> Option<nat>

  datatype Rule = Rule(find: Matcher, replacement: string)

  /** All a pattern has to promise: a match lies in the text and starts with an angle bracket, and what replaces it has none. */
  ghost predicate Safe(r: Rule) {
    && '<' !in r.replacement
    && forall s: string, i: nat :: i < |s| && r.find(s, i).Some? ==>
         1 <= r.find(s, i).value <= |s| - i && s[i] == '<'
  }

  ghost predicate AllSafe(rules: seq<Rule>) { forall i :: 0 <= i < |rules| ==> Safe(rules[i]) }

  function MatchLength(r: Rule, s: string, i: nat): (n: nat)
    requires i < |s|
    ensures n <= |s| - i
  {
    var n := r.find(s, i).GetOr(0);
    if 1 <= n <= |s| - i then n else 0
  }

  /** text.replace(pattern, replacement) with the global flag: leftmost matches, none inside another. */
  function ReplaceFrom(r: Rule, s: string, i: nat): string
    requires i <= |s|
    decreases |s| - i
  {
    if i == |s| then ""
    else
      var n := MatchLength(r, s, i);
      if n > 0 then r.replacement + ReplaceFrom(r, s, i + n) else [s[i]] + ReplaceFrom(r, s, i + 1)
  }

  function ReplaceAll(r: Rule, s: string): string { ReplaceFrom(r, s, 0) }

  /** The rule matches nowhere from i up to j. */
  ghost predicate NoMatch(r: Rule, s: string, i: nat, j: nat) {
    forall k: nat :: i <= k < j && k < |s| ==> r.find(s, k).None?
  }

  /**
   The text from i on with its leftmost matches replaced: what stands before the first match is kept character for
   character, the replacement stands where the match was, and so on behind it.
   */
  ghost predicate Replaced(r: Rule, s: string, i: nat, out: string)
    requires i <= |s|
    decreases |s| - i
  {
    || (NoMatch(r, s, i, |s|) && out == s[i..])
    || exists j: nat, rest: string :: ReplacedAt(r, s, i, j, rest, out)
  }

  ghost predicate ReplacedAt(r: Rule, s: string, i: nat, j: nat, rest: string, out: string)
    requires i <= |s|
    decreases |s| - i, 0
  {
    && i <= j < |s| && NoMatch(r, s, i, j) && r.find(s, j).Some? && 1 <= r.find(s, j).value <= |s| - j
    && out == s[i..j] + r.replacement + rest && Replaced(r, s, j + r.find(s, j).value, rest)
  }

  /** A replacement changes its matches and nothing else. */
  lemma {:induction false} ReplaceKeepsTheRest(r: Rule, s: string, i: nat)
    requires Safe(r) && i <= |s|
    ensures Replaced(r, s, i, ReplaceFrom(r, s, i))
    decreases |s| - i
  {
    hide Safe;
    if i == |s| {
      assert NoMatch(r, s, i, |s|) && s[i..] == "";
    } else {
      MatchIsMeant(r, s, i);
      if r.find(s, i).Some? {
        var rest := ReplaceFrom(r, s, i + r.find(s, i).value);
        ReplaceKeepsTheRest(r, s, i + r.find(s, i).value);
        assert NoMatch(r, s, i, i) && s[i..i] + r.replacement + rest == r.replacement + rest;
        assert ReplacedAt(r, s, i, i, rest, ReplaceFrom(r, s, i));
      } else {
        ReplaceKeepsTheRest(r, s, i + 1);
        KeptOneMore(r, s, i, ReplaceFrom(r, s, i + 1));
      }
    }
  }

  lemma MatchIsMeant(r: Rule, s: string, i: nat)
    requires Safe(r) && i < |s|
    ensures MatchLength(r, s, i) == r.find(s, i).GetOr(0)
    ensures r.find(s, i).Some? ==> 1 <= r.find(s, i).value <= |s| - i
  {
  }

  /** A character that starts no match is kept in front. */
  lemma KeptOneMore(r: Rule, s: string, i: nat, out: string)
    requires i < |s| && r.find(s, i).None? && Replaced(r, s, i + 1, out)
    ensures Replaced(r, s, i, [s[i]] + out)
  {
    assert s[i..] == [s[i]] + s[i + 1..];
    if NoMatch(r, s, i + 1, |s|) && out == s[i + 1..] {
      assert NoMatch(r, s, i, |s|);
    } else {
      var j: nat, rest: string :| ReplacedAt(r, s, i + 1, j, rest, out);
      KeptBeforeMatch(r, s, i, j, rest, out);
    }
  }

  lemma KeptBeforeMatch(r: Rule, s: string, i: nat, j: nat, rest: string, out: string)
    requires i < |s| && r.find(s, i).None? && ReplacedAt(r, s, i + 1, j, rest, out)
    ensures ReplacedAt(r, s, i, j, rest, [s[i]] + out)
  {
    hide Replaced;
    assert s[i..j] == [s[i]] + s[i + 1..j];
    assert NoMatch(r, s, i, j);
  }

  /** A pass does this with each rule in turn. */
  ghost predicate Passed(rules: seq<Rule>, s: string, out: string)
    decreases |rules|
  {
    if rules == [] then out == s
    else exists mid: string :: Replaced(rules[0], s, 0, mid) && Passed(rules[1..], mid, out)
  }

  lemma {:induction false} PassKeepsTheRest(rules: seq<Rule>, s: string)
    requires AllSafe(rules)
    ensures Passed(rules, s, Pass(rules, s))
  {
    hide Replaced;
    if rules != [] {
      ReplaceKeepsTheRest(rules[0], s, 0);
      PassKeepsTheRest(rules[1..], ReplaceAll(rules[0], s));
    }
  }

  /** One pass: each rule in turn. */
  function Pass(rules: seq<Rule>, s: string): string {
    if rules == [] then s else Pass(rules[1..], ReplaceAll(rules[0], s))
  }

  function Angles(s: string): nat {
    if s == "" then 0 else (if s[0] == '<' then 1 else 0) + Angles(s[1..])
  }

  /** No rule matches anywhere. */
  ghost predicate Clean(rules: seq<Rule>, s: string) {
    forall k, i: nat :: 0 <= k < |rules| && i < |s| ==> rules[k].find(s, i).None?
  }

  lemma {:induction false} AnglesAppend(a: string, b: string)
    ensures Angles(a + b) == Angles(a) + Angles(b)
  {
    if a == "" {
      assert a + b == b;
    } else {
      assert (a + b)[1..] == a[1..] + b;
      AnglesAppend(a[1..], b);
    }
  }

  lemma {:induction false} NoAngles(s: string)
    requires '<' !in s
    ensures Angles(s) == 0
  {
    if s != "" { NoAngles(s[1..]); }
  }

  lemma {:induction false} AnglesTail(s: string, i: nat, j: nat)
    requires i <= j <= |s|
    ensures Angles(s[j..]) <= Angles(s[i..])
  {
    assert s[i..] == s[i..j] + s[j..];
    AnglesAppend(s[i..j], s[j..]);
  }

  lemma AnglesHead(s: string, i: nat)
    requires i < |s|
    ensures Angles(s[i..]) == Angles([s[i]]) + Angles(s[i + 1..])
    ensures Angles([s[i]]) == if s[i] == '<' then 1 else 0
  {
    assert s[i..] == [s[i]] + s[i + 1..];
    AnglesAppend([s[i]], s[i + 1..]);
  }

  lemma MatchSplits(r: Rule, s: string, i: nat)
    requires Safe(r) && i < |s|
    ensures MatchLength(r, s, i) > 0 <==> r.find(s, i).Some?
    ensures MatchLength(r, s, i) > 0 ==> Angles(s[i + MatchLength(r, s, i)..]) < Angles(s[i..])
    ensures Angles(s[i..]) == Angles([s[i]]) + Angles(s[i + 1..])
  {
    hide Angles;
    AnglesHead(s, i);
    var n := MatchLength(r, s, i);
    if n > 0 { AnglesTail(s, i + 1, i + n); }
  }

  /** Replacing never adds an angle bracket. */
  lemma {:induction false} ReplaceAddsNoAngles(r: Rule, s: string, i: nat)
    requires Safe(r) && i <= |s|
    ensures Angles(ReplaceFrom(r, s, i)) <= Angles(s[i..])
    decreases |s| - i
  {
    hide Safe, MatchLength, Angles;
    if i < |s| {
      var n := MatchLength(r, s, i);
      MatchSplits(r, s, i);
      if n > 0 {
        ReplaceAddsNoAngles(r, s, i + n);
        ReplacementHasNone(r, ReplaceFrom(r, s, i + n));
      } else {
        ReplaceAddsNoAngles(r, s, i + 1);
        AnglesAppend([s[i]], ReplaceFrom(r, s, i + 1));
      }
    } else {
      assert s[i..] == "";
    }
  }

  lemma ReplacementHasNone(r: Rule, rest: string)
    requires Safe(r)
    ensures Angles(r.replacement + rest) == Angles(rest)
  {
    AnglesAppend(r.replacement, rest);
    NoAngles(r.replacement);
  }

  /** It takes one away wherever something matches. */
  lemma {:induction false} ReplaceLowersAngles(r: Rule, s: string, i: nat, j: nat)
    requires Safe(r) && i <= j < |s| && r.find(s, j).Some?
    ensures Angles(ReplaceFrom(r, s, i)) < Angles(s[i..])
    decreases |s| - i
  {
    hide Safe, MatchLength, Angles;
    var n := MatchLength(r, s, i);
    MatchSplits(r, s, i);
    if n > 0 {
      ReplaceAddsNoAngles(r, s, i + n);
      ReplacementHasNone(r, ReplaceFrom(r, s, i + n));
    } else {
      ReplaceLowersAngles(r, s, i + 1, j);
      AnglesAppend([s[i]], ReplaceFrom(r, s, i + 1));
    }
  }

  lemma {:induction false} ReplaceNothing(r: Rule, s: string, i: nat)
    requires i <= |s| && forall j: nat :: i <= j < |s| ==> r.find(s, j).None?
    ensures ReplaceFrom(r, s, i) == s[i..]
    decreases |s| - i
  {
    if i < |s| {
      ReplaceNothing(r, s, i + 1);
      assert s[i..] == [s[i]] + s[i + 1..];
    }
  }

  /** A pass changes a text exactly when some rule matches it, and then it has fewer angle brackets. */
  lemma {:induction false} PassChangesExactlyWhenMatched(rules: seq<Rule>, s: string)
    requires AllSafe(rules)
    ensures Pass(rules, s) == s <==> Clean(rules, s)
    ensures Angles(Pass(rules, s)) <= Angles(s) && (Pass(rules, s) != s ==> Angles(Pass(rules, s)) < Angles(s))
  {
    if rules != [] {
      var t := ReplaceAll(rules[0], s);
      assert s[0..] == s;
      ReplaceAddsNoAngles(rules[0], s, 0);
      PassChangesExactlyWhenMatched(rules[1..], t);
      if forall j: nat :: j < |s| ==> rules[0].find(s, j).None? {
        ReplaceNothing(rules[0], s, 0);
        assert Clean(rules, s) <==> Clean(rules[1..], s) by {
          assert forall k :: 0 <= k < |rules[1..]| ==> rules[1..][k] == rules[1 + k];
        }
      } else {
        var j: nat :| j < |s| && rules[0].find(s, j).Some?;
        ReplaceLowersAngles(rules[0], s, 0, j);
        assert !Clean(rules, s);
      }
    }
  }

  /** Passes until one changes nothing. */
  ghost function Strip(rules: seq<Rule>, s: string): string
    requires AllSafe(rules)
    decreases Angles(s)
  {
    PassChangesExactlyWhenMatched(rules, s);
    var t := Pass(rules, s);
    if t == s then s else Strip(rules, t)
  }

  /** The result matches no rule, and stripping it again changes nothing; only a text that matches is changed at all. */
  lemma {:induction false} StripIsFixpoint(rules: seq<Rule>, s: string)
    requires AllSafe(rules)
    ensures Clean(rules, Strip(rules, s)) && Strip(rules, Strip(rules, s)) == Strip(rules, s)
    ensures Strip(rules, s) == s <==> Clean(rules, s)
    ensures Angles(Strip(rules, s)) <= Angles(s)
    decreases Angles(s)
  {
    hide Pass, Clean;
    PassChangesExactlyWhenMatched(rules, s);
    if Pass(rules, s) != s { StripIsFixpoint(rules, Pass(rules, s)); }
  }

  /** stripSystemInjectionTags and stripHtmlComments: pass after pass until one changes nothing. */
  method StripToFixpoint(rules: seq<Rule>, text: string) returns (out: string)
    requires AllSafe(rules)
    ensures out == Strip(rules, text)
  {
    hide Pass, AllSafe;
    out := text;
    var prev := out;
    PassChangesExactlyWhenMatched(rules, out);
    out := Pass(rules, out);
    while out != prev
      invariant out == Pass(rules, prev) && Strip(rules, prev) == Strip(rules, text)
      invariant out != prev ==> Angles(out) < Angles(prev)
      decreases Angles(out), out != prev
    {
      prev := out;
      PassChangesExactlyWhenMatched(rules, out);
      out := Pass(rules, out);
    }
  }

  // ---- HTML comments ----

  predicate At(s: string, i: nat, word: string) { i + |word| <= |s| && s[i..i + |word|] == word }

  /** The first closing marker at or after an index, or the length. */
  function CloseFrom(s: string, i: nat): (k: nat)
    requires i <= |s|
    ensures i <= k <= |s| && (k < |s| ==> At(s, k, "-->")) && (k == |s| ==> forall j: nat :: i <= j < |s| ==> !At(s, j, "-->"))
    decreases |s| - i
  {
    if i == |s| || At(s, i, "-->") then i else CloseFrom(s, i + 1)
  }

  /** An opening marker and the shortest way to a closing one. */
  function CommentAt(s: string, i: nat): Option<nat> {
    if !At(s, i, "<!--") then None
    else
      var k := CloseFrom(s, i + 4);
      if k == |s| then None else Some(k + 3 - i)
  }

  const COMMENTS := [Rule(CommentAt, "")]

  lemma CommentsAreSafe()
    ensures AllSafe(COMMENTS)
  {
    forall s: string, i: nat | i < |s| && CommentAt(s, i).Some?
      ensures 1 <= CommentAt(s, i).value <= |s| - i && s[i] == '<'
    {
      assert s[i..i + 4][0] == '<';
    }
  }

  /** stripHtmlComments leaves no opening marker with a closing one anywhere behind it. */
  method StripHtmlComments(s: string) returns (out: string)
    ensures AllSafe(COMMENTS) && out == Strip(COMMENTS, s)
    ensures forall i: nat, j: nat :: At(out, i, "<!--") && i + 4 <= j ==> !At(out, j, "-->")
    ensures (forall i: nat, j: nat :: At(s, i, "<!--") && i + 4 <= j ==> !At(s, j, "-->")) ==> out == s
  {
    CommentsAreSafe();
    out := StripToFixpoint(COMMENTS, s);
    StripIsFixpoint(COMMENTS, s);
    CleanOfComments(out);
    CleanOfComments(s);
  }

  lemma CleanOfComments(s: string)
    ensures Clean(COMMENTS, s) <==> forall i: nat, j: nat :: At(s, i, "<!--") && i + 4 <= j ==> !At(s, j, "-->")
  {
    if Clean(COMMENTS, s) {
      forall i: nat, j: nat | At(s, i, "<!--") && i + 4 <= j ensures !At(s, j, "-->") {
        assert COMMENTS[0].find(s, i).None?;
      }
    } else {
      var k, i: nat :| 0 <= k < |COMMENTS| && i < |s| && COMMENTS[k].find(s, i).Some?;
      assert At(s, i, "<!--") && At(s, CloseFrom(s, i + 4), "-->");
    }
  }
}
