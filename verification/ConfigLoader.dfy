/**
 Matching a path against a protected entry, and cutting the base prompt into sections with
 ids of their own.
 */
module ConfigLoader {
  import opened Wrappers
  import opened Text

  // ---- protected paths ----

  predicate StartsWith(s: string, p: string) { |p| <= |s| && s[..|p|] == p }

  predicate EndsWith(s: string, p: string) { |p| <= |s| && s[|s| - |p|..] == p }

  predicate SitsAt(s: string, p: string, i: int) { 0 <= i <= |s| - |p| && s[i..i + |p|] == p }

  predicate Includes(s: string, p: string) { exists i :: 0 <= i <= |s| && SitsAt(s, p, i) }

  /** pathMatchesProtected, on the entry once its slashes are made forward ones and its trailing ones are gone. */
  predicate MatchesProtected(candidate: string, e: string, isDir: bool) {
    && e != ""
    && var atBoundary := candidate == e || EndsWith(candidate, "/" + e);
       if !isDir then atBoundary
       else atBoundary || Includes(candidate, "/" + e + "/") || StartsWith(candidate, e + "/")
  }

  /** The parts between slashes. */
  function Segments(s: string): (r: seq<string>)
    ensures r != [] && forall p :: p in r ==> '/' !in p
  {
    if s == "" then [""]
    else
      var rest := Segments(s[1..]);
      if s[0] == '/' then [""] + rest else [[s[0]] + rest[0]] + rest[1..]
  }

  function Join(parts: seq<string>): string
    requires parts != []
  {
    if |parts| == 1 then parts[0] else parts[0] + "/" + Join(parts[1..])
  }

  lemma {:induction false} JoinSegments(s: string)
    ensures Join(Segments(s)) == s
  {
    if s != "" {
      JoinSegments(s[1..]);
      var rest := Segments(s[1..]);
      assert s == [s[0]] + s[1..];
      if s[0] == '/' {
        assert ([""] + rest)[1..] == rest;
      } else {
        var first := [s[0]] + rest[0];
        assert ([first] + rest[1..])[1..] == rest[1..];
        if |rest| > 1 { assert first + "/" + Join(rest[1..]) == [s[0]] + (rest[0] + "/" + Join(rest[1..])); }
      }
    }
  }

  lemma SegmentsCons(c: char, s: string)
    ensures var rest := Segments(s);
            Segments([c] + s) == if c == '/' then [""] + rest else [[c] + rest[0]] + rest[1..]
  {
    assert ([c] + s)[1..] == s;
  }

  lemma NoSegments()
    ensures Segments("") == [""]
  {
  }

  lemma SegmentsGrow(c: char, s: string, t: string, more: seq<string>)
    requires Segments(t) == Segments(s) + more
    ensures Segments([c] + t) == Segments([c] + s) + more
  {
    hide Segments;
    SegmentsCons(c, s);
    SegmentsCons(c, t);
    var rest := Segments(s);
    Regroup("", [""] + rest, more);
    Regroup([c] + rest[0], rest, more);
    assert ([""] + rest)[1..] == rest;
    assert [""] + (rest + more) == [""] + rest + more;
  }

  /** Parts behind a first one that is replaced. */
  lemma Regroup(x: string, rest: seq<string>, more: seq<string>)
    requires rest != []
    ensures (rest + more)[0] == rest[0] && [x] + (rest + more)[1..] == [x] + rest[1..] + more
  {
  }

  lemma {:induction false} SegmentsAppend(a: string, b: string)
    ensures Segments(a + "/" + b) == Segments(a) + Segments(b)
  {
    hide Segments;
    if a == "" {
      NoSegments();
      assert a + "/" + b == ['/'] + b;
      SegmentsCons('/', b);
    } else {
      var c, s := a[0], a[1..];
      assert a == [c] + s && a + "/" + b == [c] + (s + "/" + b);
      SegmentsAppend(s, b);
      SegmentsGrow(c, s, s + "/" + b, Segments(b));
    }
  }

  lemma {:induction false} JoinAppend(a: seq<string>, b: seq<string>)
    requires a != [] && b != []
    ensures Join(a + b) == Join(a) + "/" + Join(b)
  {
    assert (a + b)[1..] == a[1..] + b;
    if |a| > 1 {
      JoinAppend(a[1..], b);
      assert a[0] + "/" + (Join(a[1..]) + "/" + Join(b)) == a[0] + "/" + Join(a[1..]) + "/" + Join(b);
    } else {
      assert a[1..] + b == b;
    }
  }

  /** The entry's parts stand side by side in the candidate's, from part k on. */
  predicate RunAt(parts: seq<string>, run: seq<string>, k: int) {
    0 <= k <= |parts| - |run| && parts[k..k + |run|] == run
  }

  /** What a match in the text says of the parts. */
  lemma MatchIsRun(candidate: string, e: string, isDir: bool)
    requires MatchesProtected(candidate, e, isDir)
    ensures exists k :: RunAt(Segments(candidate), Segments(e), k) && (isDir || k + |Segments(e)| == |Segments(candidate)|)
  {
    var c, es := Segments(candidate), Segments(e);
    if candidate == e {
      assert RunAt(c, es, 0);
    } else if EndsWith(candidate, "/" + e) {
      var a := candidate[..|candidate| - |e| - 1];
      assert candidate == a + "/" + e;
      SegmentsAppend(a, e);
      assert RunAt(c, es, |Segments(a)|);
    } else if StartsWith(candidate, e + "/") {
      var b := candidate[|e| + 1..];
      assert candidate == e + "/" + b;
      SegmentsAppend(e, b);
      assert RunAt(c, es, 0);
    } else {
      InnerRun(candidate, e);
    }
  }

  lemma InnerRun(candidate: string, e: string)
    requires Includes(candidate, "/" + e + "/")
    ensures exists k :: RunAt(Segments(candidate), Segments(e), k)
  {
    hide Segments;
    var p := "/" + e + "/";
    var i :| 0 <= i <= |candidate| && SitsAt(candidate, p, i);
    assert i + |p| <= |candidate|;
    var a, b := candidate[..i], candidate[i + |p|..];
    assert candidate == a + p + b;
    assert a + p + b == a + "/" + (e + "/" + b);
    SegmentsAppend(a, e + "/" + b);
    SegmentsAppend(e, b);
    assert RunAt(Segments(candidate), Segments(e), |Segments(a)|);
  }

  /** And back. */
  lemma RunIsMatch(candidate: string, e: string, isDir: bool, k: int)
    requires e != "" && RunAt(Segments(candidate), Segments(e), k)
    requires isDir || k + |Segments(e)| == |Segments(candidate)|
    ensures MatchesProtected(candidate, e, isDir)
  {
    hide Segments, Join;
    var c, es := Segments(candidate), Segments(e);
    var before, after := c[..k], c[k + |es|..];
    assert c == before + es + after;
    JoinSegments(candidate);
    JoinSegments(e);
    if after == [] {
      assert c == before + es;
      SuffixMatches(candidate, e, before, es);
    } else {
      assert c == before + (es + after);
      InnerMatches(candidate, e, before, es, after);
    }
  }

  lemma SuffixMatches(candidate: string, e: string, before: seq<string>, es: seq<string>)
    requires es != [] && Join(es) == e && Join(before + es) == candidate
    ensures candidate == e || EndsWith(candidate, "/" + e)
  {
    hide Join;
    if before == [] {
      assert before + es == es;
    } else {
      JoinAppend(before, es);
      assert candidate == Join(before) + ("/" + e);
    }
  }

  lemma InnerMatches(candidate: string, e: string, before: seq<string>, es: seq<string>, after: seq<string>)
    requires es != [] && after != [] && Join(es) == e && Join(before + (es + after)) == candidate
    ensures StartsWith(candidate, e + "/") || Includes(candidate, "/" + e + "/")
  {
    hide Join;
    JoinAppend(es, after);
    var b := Join(after);
    if before == [] {
      assert before + (es + after) == es + after;
      assert candidate == (e + "/") + b;
    } else {
      JoinAppend(before, es + after);
      var a, p := Join(before), "/" + e + "/";
      assert candidate == a + "/" + (e + "/" + b);
      assert candidate == a + p + b;
      assert SitsAt(candidate, p, |a|);
    }
  }

  /**
   A path matches a protected entry exactly when the entry's parts stand side by side among the path's own: at its
   end for a file, anywhere for a directory. Parts match whole, so no name matches by its beginning or its end.
   */
  lemma MatchingIsBySegments(candidate: string, e: string, isDir: bool)
    requires e != ""
    ensures MatchesProtected(candidate, e, isDir)
            <==> exists k :: RunAt(Segments(candidate), Segments(e), k) && (isDir || k + |Segments(e)| == |Segments(candidate)|)
  {
    if MatchesProtected(candidate, e, isDir) { MatchIsRun(candidate, e, isDir); }
    if k :| RunAt(Segments(candidate), Segments(e), k) && (isDir || k + |Segments(e)| == |Segments(candidate)|) {
      RunIsMatch(candidate, e, isDir, k);
    }
  }

  // ---- prompt sections ----

  predicate IsLineBreak(c: char) { c == '\n' || c == '\r' || c as int == 0x2028 || c as int == 0x2029 }

  /** `^## ` at a line's start. */
  predicate HeadingAt(s: string, i: nat) {
    i + 3 <= |s| && s[i..i + 3] == "## " && (i == 0 || IsLineBreak(s[i - 1]))
  }

  /** The next heading after an index, or the length. */
  function NextHeading(s: string, i: nat): (k: nat)
    requires i < |s|
    ensures i < k <= |s| && (k < |s| ==> HeadingAt(s, k)) && forall j: nat :: i < j < k ==> !HeadingAt(s, j)
    decreases |s| - i
  {
    if i + 1 == |s| || HeadingAt(s, i + 1) then i + 1 else NextHeading(s, i + 1)
  }

  /** Where the parts start: the text's own start, and every heading. */
  function Starts(s: string, i: nat): seq<nat>
    requires i <= |s|
    decreases |s| - i
  {
    if i == |s| then [] else [i] + Starts(s, NextHeading(s, i))
  }

  function Concat(parts: seq<string>): string {
    if parts == [] then "" else parts[0] + Concat(parts[1..])
  }

  function PartsFrom(s: string, i: nat): seq<string>
    requires i <= |s|
    decreases |s| - i
  {
    if i == |s| then [] else [s[i..NextHeading(s, i)]] + PartsFrom(s, NextHeading(s, i))
  }

  /** Joined, the parts are the prompt, byte for byte. */
  lemma {:induction false} PartsMakeThePrompt(s: string, i: nat)
    requires i <= |s|
    ensures Concat(PartsFrom(s, i)) == s[i..]
    decreases |s| - i
  {
    if i < |s| {
      var k := NextHeading(s, i);
      PartsMakeThePrompt(s, k);
      assert ([s[i..k]] + PartsFrom(s, k))[1..] == PartsFrom(s, k);
      assert s[i..] == s[i..k] + s[k..];
    }
  }

  /** The n-th part begins at the n-th start and ends where the next one is, or with the prompt. */
  ghost predicate CutAtStarts(s: string, i: nat)
    requires i <= |s|
  {
    && |PartsFrom(s, i)| == |Starts(s, i)|
    && forall n :: 0 <= n < |Starts(s, i)| ==> PartIs(s, Starts(s, i), n, PartsFrom(s, i)[n])
  }

  predicate PartIs(s: string, starts: seq<nat>, n: nat, part: string) {
    && n < |starts|
    && var end := if n + 1 < |starts| then starts[n + 1] else |s|; starts[n] < end <= |s| && part == s[starts[n]..end]
  }

  /** Every heading opens a part of its own, and every part but a preamble opens with a heading. */
  lemma {:induction false} StartsAreHeadings(s: string, i: nat)
    requires i <= |s|
    ensures forall k: nat :: k in Starts(s, i) <==> k < |s| && (k == i || (k > i && HeadingAt(s, k)))
    ensures CutAtStarts(s, i)
    decreases |s| - i
  {
    if i < |s| {
      var k := NextHeading(s, i);
      StartsAreHeadings(s, k);
      var starts, parts, rest := Starts(s, i), PartsFrom(s, i), Starts(s, k);
      assert k < |s| ==> rest[0] == k;
      forall n | 0 <= n < |starts| ensures PartIs(s, starts, n, parts[n]) {
        if n > 0 {
          assert PartIs(s, rest, n - 1, PartsFrom(s, k)[n - 1]);
          assert starts[n] == rest[n - 1] && parts[n] == PartsFrom(s, k)[n - 1];
        }
      }
    }
  }

  /** A line that begins with two hashes and a blank. */
  predicate Headed(s: string, k: int) {
    && 0 <= k && k + 3 <= |s| && s[k] == '#' && s[k + 1] == '#' && s[k + 2] == ' '
    && (k > 0 ==> s[k - 1] == '\n' || s[k - 1] == '\r' || s[k - 1] as int == 0x2028 || s[k - 1] as int == 0x2029)
  }

  lemma HeadingMeans(s: string, k: nat)
    ensures HeadingAt(s, k) <==> Headed(s, k)
  {
    if k + 3 <= |s| {
      assert s[k..k + 3] == [s[k], s[k + 1], s[k + 2]];
    }
  }

  /** Told from the text: the parts start at its start and at each such line, and each runs to where the next one starts. */
  lemma PartsAreHeaded(s: string)
    ensures CutAtStarts(s, 0) && forall k: nat :: k in Starts(s, 0) <==> k < |s| && (k == 0 || Headed(s, k))
  {
    StartsAreHeadings(s, 0);
    hide HeadingAt, Starts, CutAtStarts, Headed;
    forall k: nat ensures HeadingAt(s, k) <==> Headed(s, k) { HeadingMeans(s, k); }
  }

  /** splitSystemPromptSections, the texts of it. */
  method SplitSections(prompt: string) returns (parts: seq<string>)
    ensures parts == PartsFrom(prompt, 0) && Concat(parts) == prompt
  {
    parts := [];
    var i := 0;
    while i < |prompt|
      invariant 0 <= i <= |prompt| && parts + PartsFrom(prompt, i) == PartsFrom(prompt, 0)
    {
      var k := NextHeading(prompt, i);
      parts := parts + [prompt[i..k]];
      i := k;
    }
    PartsMakeThePrompt(prompt, 0);
    assert parts + [] == parts;
  }

  // ---- section ids ----

  const PREFIX := "core-identity/"

  /** The n-th id tried for a slug: bare first, then numbered from 2. */
  function IdFor(slug: string, n: nat): string
    requires n >= 1
  {
    if n == 1 then PREFIX + slug else PREFIX + slug + "-" + Digits(n)
  }

  lemma IdsDiffer(slug: string, m: nat, n: nat)
    requires 1 <= m < n
    ensures IdFor(slug, m) != IdFor(slug, n)
  {
    hide Digits;
    var p := PREFIX + slug;
    var x := IdFor(slug, n);
    assert x == p + ("-" + Digits(n)) && x[|p| + 1..] == Digits(n);
    if m > 1 && IdFor(slug, m) == x {
      assert x == p + ("-" + Digits(m)) && x[|p| + 1..] == Digits(m);
      DigitsInjective(m, n);
    }
  }

  /** The first id of a slug that is not taken. */
  method FreeId(ids: set<string>, slug: string) returns (id: string, ghost n: nat)
    ensures id !in ids && n >= 1 && id == IdFor(slug, n) && forall k: nat :: 1 <= k < n ==> IdFor(slug, k) in ids
  {
    id := PREFIX + slug;
    n := 1;
    var next := 2;
    ghost var tried: set<string> := {};
    while id in ids
      invariant n >= 1 && next == n + 1 && id == IdFor(slug, n)
      invariant tried <= ids && |tried| == n - 1 <= |ids|
      invariant forall k: nat :: 1 <= k < n ==> IdFor(slug, k) in tried
      invariant forall t :: t in tried ==> exists k: nat :: 1 <= k < n && t == IdFor(slug, k)
      decreases |ids| - n + 1
    {
      if id in tried {
        ghost var k: nat :| 1 <= k < n && id == IdFor(slug, k);
        IdsDiffer(slug, k, n);
      }
      tried := tried + {id};
      SubsetSize(tried, ids);
      n := n + 1;
      id := PREFIX + slug + "-" + Digits(next);
      next := next + 1;
    }
  }

  lemma {:induction false} SubsetSize(a: set<string>, b: set<string>)
    requires a <= b
    ensures |a| <= |b|
  {
    if a != {} {
      var x :| x in a;
      SubsetSize(a - {x}, b - {x});
    }
  }

  /** The id is the slug's first that none of these is. */
  ghost predicate FirstFree(ids: seq<string>, slug: string, id: string) {
    id !in ids && exists n: nat :: n >= 1 && id == IdFor(slug, n) && forall k: nat :: 1 <= k < n ==> IdFor(slug, k) in ids
  }

  /** basePromptSections' ids: one for each part's slug, in order, none used before. */
  method SectionIds(slugs: seq<string>) returns (ids: seq<string>)
    ensures |ids| == |slugs| && forall i :: 0 <= i < |ids| ==> FirstFree(ids[..i], slugs[i], ids[i])
  {
    hide IdFor;
    ids := [];
    var taken: set<string> := {};
    for i := 0 to |slugs|
      invariant |ids| == i && taken == (set x | x in ids)
      invariant forall a :: 0 <= a < |ids| ==> FirstFree(ids[..a], slugs[a], ids[a])
    {
      var id, n := FreeId(taken, slugs[i]);
      ghost var before := ids;
      assert FirstFree(before, slugs[i], id);
      ids := ids + [id];
      taken := taken + {id};
      assert forall a :: 0 <= a <= i ==> ids[..a] == before[..a];
      assert before[..i] == before;
    }
  }

  /** So no two sections share an id. */
  lemma SectionIdsAreDistinct(slugs: seq<string>, ids: seq<string>)
    requires |ids| == |slugs| && forall i :: 0 <= i < |ids| ==> FirstFree(ids[..i], slugs[i], ids[i])
    ensures forall i, j :: 0 <= i < j < |ids| ==> ids[i] != ids[j]
  {
    hide IdFor;
    forall i, j | 0 <= i < j < |ids| ensures ids[i] != ids[j] {
      assert FirstFree(ids[..j], slugs[j], ids[j]);
      assert ids[..j][i] == ids[i];
    }
  }
}
