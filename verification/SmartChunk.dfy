/**
 Splitting a long message into pieces that respect its lines and words.
 */
module SmartChunk {
  import opened Text

  // ---- trimming and splitting ----

  predicate Blank(s: string) { forall i :: 0 <= i < |s| ==> IsSpace(s[i]) }

  function TrimEnd(s: string): (t: string)
    ensures |t| <= |s| && s[..|t|] == t && forall i :: |t| <= i < |s| ==> IsSpace(s[i])
    ensures t != "" ==> !IsSpace(t[|t| - 1])
  {
    if s != "" && IsSpace(s[|s| - 1]) then TrimEnd(s[..|s| - 1]) else s
  }

  function TrimStart(s: string): (t: string)
    ensures |t| <= |s| && s[|s| - |t|..] == t && forall i :: 0 <= i < |s| - |t| ==> IsSpace(s[i])
    ensures t != "" ==> !IsSpace(t[0])
  {
    if s != "" && IsSpace(s[0]) then TrimStart(s[1..]) else s
  }

  /** text.split("\n"). */
  function Lines(text: string): (ls: seq<string>)
    ensures ls != [] && forall l :: l in ls ==> '\n' !in l
  {
    if text == "" then [""]
    else
      var rest := Lines(text[1..]);
      if text[0] == '\n' then [""] + rest else [[text[0]] + rest[0]] + rest[1..]
  }

  /** Every line with a line break after it. */
  function Unlines(ls: seq<string>): string {
    if ls == [] then "" else ls[0] + "\n" + Unlines(ls[1..])
  }

  lemma {:induction false} LinesJoin(text: string)
    ensures Unlines(Lines(text)) == text + "\n"
  {
    if text != "" {
      LinesJoin(text[1..]);
      var rest := Lines(text[1..]);
      assert text == [text[0]] + text[1..];
      if text[0] == '\n' {
        assert ([""] + rest)[1..] == rest;
      } else {
        var first := [text[0]] + rest[0];
        assert ([first] + rest[1..])[1..] == rest[1..];
        assert first + "\n" + Unlines(rest[1..]) == [text[0]] + (rest[0] + "\n" + Unlines(rest[1..]));
      }
    }
  }

  /** The last index of c at most `from`, or -1. */
  function LastIndexOf(s: string, c: char, from: int): (i: int)
    ensures -1 <= i && (i >= 0 ==> i <= from && i < |s| && s[i] == c)
    ensures forall j :: i < j <= from && 0 <= j < |s| ==> s[j] != c
    decreases from + 1
  {
    if from < 0 then -1 else if from < |s| && s[from] == c then from else LastIndexOf(s, c, from - 1)
  }

  // ---- pieces woven back into the text ----

  /** gap 0, piece 0, gap 1, …, the last piece and the last gap. */
  function Weave(pieces: seq<string>, gaps: seq<string>): string
    requires |gaps| == |pieces| + 1
  {
    if pieces == [] then gaps[0]
    else Weave(pieces[..|pieces| - 1], gaps[..|pieces|]) + pieces[|pieces| - 1] + gaps[|pieces|]
  }

  predicate AllBlank(gaps: seq<string>) { forall i :: 0 <= i < |gaps| ==> Blank(gaps[i]) }

  predicate Fit(pieces: seq<string>, maxLen: int) { forall i :: 0 <= i < |pieces| ==> |pieces[i]| <= maxLen }

  /** Every line of a text is within the limit. */
  predicate LinesFit(text: string, maxLen: int) { forall l :: l in Lines(text) ==> |l| <= maxLen }

  /** Each piece ends at the end of a line. */
  predicate EndsLines(gaps: seq<string>) { forall i :: 1 <= i < |gaps| ==> '\n' in gaps[i] }

  /**
   The pieces lie in the text one after the other, none over the limit, with only white space between and around
   them; and if every line is within the limit, none is cut.
   */
  ghost predicate IsSplit(text: string, maxLen: int, pieces: seq<string>) {
    && Fit(pieces, maxLen)
    && exists gaps: seq<string> :: |gaps| == |pieces| + 1 && AllBlank(gaps) && Weave(pieces, gaps) == text + "\n"
                                   && (LinesFit(text, maxLen) ==> EndsLines(gaps))
  }

  /** Part-way: what has been read is the pieces woven with their gaps, and then what is still held. */
  ghost predicate Read(done: string, pieces: seq<string>, gaps: seq<string>, held: string, maxLen: int, whole: bool) {
    && |gaps| == |pieces| + 1 && AllBlank(gaps) && Fit(pieces, maxLen) && Weave(pieces, gaps) + held == done
    && (whole ==> EndsLines(gaps))
  }

  // ---- the pieces, as the loops cut them ----

  /** Where an overlong line is cut: at its last space within the limit, unless that is in the first half. */
  function CutAt(line: string, maxLen: int): (idx: int)
    requires 1 <= maxLen < |line|
    ensures 1 <= idx <= maxLen
  {
    var splitAt := LastIndexOf(line, ' ', maxLen);
    if 2 * splitAt > maxLen then splitAt else maxLen
  }

  /** The pieces an overlong line yields, and what is left of it. */
  function Cut(line: string, maxLen: int): (seq<string>, string)
    requires maxLen >= 1
    decreases |line|
  {
    if |line| <= maxLen then ([], line)
    else
      var idx := CutAt(line, maxLen);
      var (more, left) := Cut(TrimStart(line[idx..]), maxLen);
      ([line[..idx]] + more, left)
  }

  /** The pieces and the held text after one more line. */
  function Added(pieces: seq<string>, held: string, line: string, maxLen: int): (seq<string>, string)
    requires maxLen >= 1
  {
    var flush := held != "" && (|held| + |line| + 1 > maxLen || |line| > maxLen);
    var ps, h := if flush then pieces + [TrimEnd(held)] else pieces, if flush then "" else held;
    if |line| > maxLen then
      var (more, left) := Cut(line, maxLen);
      (ps + more, if left == "" then "" else left + "\n")
    else (ps, h + (line + "\n"))
  }

  function AddedAll(ls: seq<string>, maxLen: int): (seq<string>, string)
    requires maxLen >= 1
  {
    if ls == [] then ([], "")
    else
      var (pieces, held) := AddedAll(ls[..|ls| - 1], maxLen);
      Added(pieces, held, ls[|ls| - 1], maxLen)
  }

  /** smartChunk's pieces, before any continuation marker. */
  function PiecesOf(text: string, maxLen: int): seq<string>
    requires maxLen >= 1
  {
    var (pieces, held) := AddedAll(Lines(text), maxLen);
    if BlankText(held) then pieces else pieces + [TrimEnd(held)]
  }

  /** current.trim() is empty. */
  predicate BlankText(s: string)
    ensures BlankText(s) <==> Blank(s)
  {
    assert s[..|s|] == s;
    TrimStart(s) == ""
  }

  lemma ReadPiece(done: string, pieces: seq<string>, gaps: seq<string>, held: string, piece: string, gap: string, rest: string,
                  maxLen: int, whole: bool)
    requires Read(done, pieces, gaps, held, maxLen, whole) && held == piece + gap + rest && Blank(gap) && |piece| <= maxLen
    requires whole ==> '\n' in gap
    ensures Read(done, pieces + [piece], gaps + [gap], rest, maxLen, whole)
  {
    var ps, gs := pieces + [piece], gaps + [gap];
    assert ps[..|pieces|] == pieces && gs[..|gaps|] == gaps;
    assert Weave(ps, gs) == Weave(pieces, gaps) + piece + gap;
    assert Weave(pieces, gaps) + (piece + gap + rest) == Weave(pieces, gaps) + piece + gap + rest;
  }

  /** White space held at the front belongs to the last gap. */
  lemma ReadGap(done: string, pieces: seq<string>, gaps: seq<string>, blank: string, rest: string, maxLen: int, whole: bool)
    returns (gaps': seq<string>)
    requires Read(done, pieces, gaps, blank + rest, maxLen, whole) && Blank(blank)
    ensures Read(done, pieces, gaps', rest, maxLen, whole)
  {
    var n := |pieces|;
    gaps' := gaps[..n] + [gaps[n] + blank];
    assert gaps'[..n] == gaps[..n];
    if n > 0 {
      assert Weave(pieces, gaps') == Weave(pieces[..n - 1], gaps[..n]) + pieces[n - 1] + (gaps[n] + blank);
      assert Weave(pieces, gaps') == Weave(pieces, gaps) + blank;
    }
    assert Weave(pieces, gaps) + (blank + rest) == Weave(pieces, gaps) + blank + rest;
  }

  lemma ReadMore(done: string, pieces: seq<string>, gaps: seq<string>, held: string, more: string, maxLen: int, whole: bool)
    requires Read(done, pieces, gaps, held, maxLen, whole)
    ensures Read(done + more, pieces, gaps, held + more, maxLen, whole)
  {
    assert Weave(pieces, gaps) + (held + more) == Weave(pieces, gaps) + held + more;
  }

  /** Push what is held, trimmed at its end. */
  method Flush(done: string, pieces: seq<string>, ghost gaps: seq<string>, held: string, maxLen: int, ghost whole: bool)
    returns (pieces': seq<string>, ghost gaps': seq<string>)
    requires Read(done, pieces, gaps, held, maxLen, whole) && |TrimEnd(held)| <= maxLen
    requires held != "" && held[|held| - 1] == '\n'
    ensures Read(done, pieces', gaps', "", maxLen, whole) && pieces' == pieces + [TrimEnd(held)]
  {
    var piece := TrimEnd(held);
    ghost var gap := held[|piece|..];
    assert held == piece + gap + "";
    assert IsSpace('\n') && held[|held| - 1] in gap;
    ReadPiece(done, pieces, gaps, held, piece, gap, "", maxLen, whole);
    pieces', gaps' := pieces + [piece], gaps + [gap];
  }

  /** Split a line over the limit at word boundaries; what is left of it is held. */
  method SplitLine(done: string, line: string, before: seq<string>, ghost gapsBefore: seq<string>, maxLen: int)
    returns (pieces: seq<string>, ghost gaps: seq<string>, remaining: string)
    requires maxLen >= 1 && Read(done, before, gapsBefore, "", maxLen, false)
    ensures Read(done + line, pieces, gaps, remaining, maxLen, false) && |remaining| <= maxLen
    ensures (pieces, remaining) == (before + Cut(line, maxLen).0, Cut(line, maxLen).1)
  {
    hide TrimStart, Weave, Read, Blank, Cut, CutAt, LastIndexOf;
    ReadMore(done, before, gapsBefore, "", line, maxLen, false);
    pieces, gaps, remaining := before, gapsBefore, line;
    assert "" + line == line;
    while |remaining| > maxLen
      invariant Read(done + line, pieces, gaps, remaining, maxLen, false)
      invariant pieces + Cut(remaining, maxLen).0 == before + Cut(line, maxLen).0 && Cut(remaining, maxLen).1 == Cut(line, maxLen).1
      decreases |remaining|
    {
      var splitAt := LastIndexOf(remaining, ' ', maxLen);
      var idx := if 2 * splitAt > maxLen then splitAt else maxLen;
      CutStep(remaining, maxLen, idx);
      var piece, tail := remaining[..idx], TrimStart(remaining[idx..]);
      ghost var gap := remaining[idx..][..|remaining| - idx - |tail|];
      Parts(remaining, idx, tail, gap);
      ReadPiece(done + line, pieces, gaps, remaining, piece, gap, tail, maxLen, false);
      assert pieces + ([piece] + Cut(tail, maxLen).0) == pieces + [piece] + Cut(tail, maxLen).0;
      pieces, gaps := pieces + [piece], gaps + [gap];
      remaining := tail;
    }
    CutDone(remaining, maxLen);
    assert pieces + [] == pieces;
  }

  lemma CutStep(line: string, maxLen: int, idx: int)
    requires 1 <= maxLen < |line| && idx == (if 2 * LastIndexOf(line, ' ', maxLen) > maxLen then LastIndexOf(line, ' ', maxLen) else maxLen)
    ensures 1 <= idx <= maxLen && |TrimStart(line[idx..])| < |line|
    ensures Cut(line, maxLen) == ([line[..idx]] + Cut(TrimStart(line[idx..]), maxLen).0, Cut(TrimStart(line[idx..]), maxLen).1)
  {
    assert idx == CutAt(line, maxLen);
  }

  lemma CutDone(line: string, maxLen: int)
    requires 1 <= maxLen && |line| <= maxLen
    ensures Cut(line, maxLen) == ([], line)
  {
  }

  lemma Parts(s: string, idx: nat, tail: string, gap: string)
    requires idx <= |s| && |tail| <= |s| - idx && s[idx..][|s| - idx - |tail|..] == tail
    requires gap == s[idx..][..|s| - idx - |tail|]
    ensures s == s[..idx] + gap + tail
  {
    assert |s[idx..]| == |s| - idx;
    assert s[idx..] == gap + tail;
    assert s == s[..idx] + s[idx..];
  }

  /** The most that may be held: a whole line and its break, or lines that fit together with theirs. */
  predicate Holds(held: string, maxLen: int) {
    held == "" || (|held| <= maxLen + 1 && held[|held| - 1] == '\n')
  }

  lemma HeldFits(held: string, maxLen: int)
    requires Holds(held, maxLen) && maxLen >= 1
    ensures |TrimEnd(held)| <= maxLen
  {
    if held != "" && |held| == maxLen + 1 {
      assert IsSpace(held[|held| - 1]);
      assert TrimEnd(held) == TrimEnd(held[..|held| - 1]);
    }
  }

  /** The body of the line loop. */
  method AddLine(done: string, line: string, before: seq<string>, ghost gapsBefore: seq<string>, heldBefore: string, maxLen: int,
                 ghost whole: bool)
    returns (pieces: seq<string>, ghost gaps: seq<string>, held: string)
    requires maxLen >= 1 && Read(done, before, gapsBefore, heldBefore, maxLen, whole) && Holds(heldBefore, maxLen)
    requires whole ==> |line| <= maxLen
    ensures Read(done + line + "\n", pieces, gaps, held, maxLen, whole) && Holds(held, maxLen)
    ensures (pieces, held) == Added(before, heldBefore, line, maxLen)
  {
    hide TrimEnd, Weave, Read, Blank, Cut;
    pieces, gaps, held := before, gapsBefore, heldBefore;
    if |held| + |line| + 1 > maxLen && |held| > 0 {
      HeldFits(held, maxLen);
      pieces, gaps := Flush(done, pieces, gaps, held, maxLen, whole);
      held := "";
    }
    if |line| > maxLen {
      if held != "" {
        HeldFits(held, maxLen);
        pieces, gaps := Flush(done, pieces, gaps, held, maxLen, whole);
        held := "";
      }
      var remaining;
      pieces, gaps, remaining := SplitLine(done, line, pieces, gaps, maxLen);
      ReadMore(done + line, pieces, gaps, remaining, "\n", maxLen, false);
      if remaining != "" {
        held := remaining + "\n";
      } else {
        BreakIsBlank();
        assert "" + "\n" == "\n" + "";
        gaps := ReadGap(done + line + "\n", pieces, gaps, "\n", "", maxLen, false);
      }
      return;
    }
    ReadMore(done, pieces, gaps, held, line + "\n", maxLen, whole);
    assert done + (line + "\n") == done + line + "\n";
    held := held + (line + "\n");
  }

  lemma BreakIsBlank()
    ensures Blank("\n")
  {
  }

  lemma {:induction false} UnlinesAppend(ls: seq<string>, l: string)
    ensures Unlines(ls + [l]) == Unlines(ls) + l + "\n"
  {
    if ls == [] {
      assert ls + [l] == [l];
    } else {
      assert (ls + [l])[1..] == ls[1..] + [l];
      UnlinesAppend(ls[1..], l);
    }
  }

  /** The line loop and the last flush. */
  method Pieces(text: string, maxLen: int) returns (pieces: seq<string>)
    requires maxLen >= 1
    ensures pieces == PiecesOf(text, maxLen) && IsSplit(text, maxLen, pieces)
  {
    hide TrimEnd, Weave, Read, Blank, Lines, Added;
    var lines := Lines(text);
    pieces := [];
    var held := "";
    ghost var gaps, whole := [""], LinesFit(text, maxLen);
    NothingRead(maxLen, whole);
    for i := 0 to |lines|
      invariant Read(Unlines(lines[..i]), pieces, gaps, held, maxLen, whole) && Holds(held, maxLen)
      invariant (pieces, held) == AddedAll(lines[..i], maxLen)
    {
      UnlinesAppend(lines[..i], lines[i]);
      assert lines[..i + 1] == lines[..i] + [lines[i]] && lines[..i + 1][..i] == lines[..i] && lines[i] in lines;
      pieces, gaps, held := AddLine(Unlines(lines[..i]), lines[i], pieces, gaps, held, maxLen, whole);
    }
    assert lines[..|lines|] == lines;
    LinesJoin(text);
    if !BlankText(held) {
      NotBlankIsNotEmpty(held);
      HeldFits(held, maxLen);
      pieces, gaps := Flush(text + "\n", pieces, gaps, held, maxLen, whole);
    } else {
      assert held == held + "";
      gaps := ReadGap(text + "\n", pieces, gaps, held, "", maxLen, whole);
    }
    AllRead(text, pieces, gaps, maxLen, whole);
  }

  lemma NotBlankIsNotEmpty(s: string)
    requires !Blank(s)
    ensures s != ""
  {
  }

  lemma NothingRead(maxLen: int, whole: bool)
    ensures Read(Unlines([]), [], [""], "", maxLen, whole)
  {
  }

  lemma AllRead(text: string, pieces: seq<string>, gaps: seq<string>, maxLen: int, whole: bool)
    requires Read(text + "\n", pieces, gaps, "", maxLen, whole) && whole == LinesFit(text, maxLen)
    ensures IsSplit(text, maxLen, pieces)
  {
    assert Weave(pieces, gaps) + "" == Weave(pieces, gaps);
  }

  // ---- what a split keeps ----

  /** The characters that are not white space, in order. */
  function Ink(s: string): string {
    if s == "" then "" else (if IsSpace(s[0]) then "" else [s[0]]) + Ink(s[1..])
  }

  lemma {:induction false} InkAppend(a: string, b: string)
    ensures Ink(a + b) == Ink(a) + Ink(b)
  {
    if a == "" {
      assert a + b == b;
    } else {
      assert (a + b)[1..] == a[1..] + b;
      InkAppend(a[1..], b);
    }
  }

  lemma {:induction false} BlankHasNoInk(s: string)
    requires Blank(s)
    ensures Ink(s) == ""
  {
    if s != "" { BlankHasNoInk(s[1..]); }
  }

  function Joined(pieces: seq<string>): string {
    if pieces == [] then "" else Joined(pieces[..|pieces| - 1]) + pieces[|pieces| - 1]
  }

  lemma {:induction false} WeaveInk(pieces: seq<string>, gaps: seq<string>)
    requires |gaps| == |pieces| + 1 && AllBlank(gaps)
    ensures Ink(Weave(pieces, gaps)) == Ink(Joined(pieces))
  {
    var n := |pieces|;
    if n == 0 {
      BlankHasNoInk(gaps[0]);
    } else {
      WeaveInk(pieces[..n - 1], gaps[..n]);
      var front := Weave(pieces[..n - 1], gaps[..n]);
      InkAppend(front + pieces[n - 1], gaps[n]);
      InkAppend(front, pieces[n - 1]);
      BlankHasNoInk(gaps[n]);
      InkAppend(Joined(pieces[..n - 1]), pieces[n - 1]);
    }
  }

  /** Every split of a text carries exactly its non-white characters, in order. */
  lemma SplitConservesInk(text: string, maxLen: int, pieces: seq<string>)
    requires IsSplit(text, maxLen, pieces)
    ensures Ink(Joined(pieces)) == Ink(text)
  {
    var gaps: seq<string> :| |gaps| == |pieces| + 1 && AllBlank(gaps) && Weave(pieces, gaps) == text + "\n";
    WeaveInk(pieces, gaps);
    InkAppend(text, "\n");
  }

  // ---- continuation markers ----

  function Marker(i: nat, n: nat): string { "\n\n(" + Digits(i + 1) + "/" + Digits(n) + ")" }

  function Marked(pieces: seq<string>): (r: seq<string>)
    ensures |r| == |pieces| && forall i :: 0 <= i < |r| ==> r[i] == pieces[i] + if i < |r| - 1 then Marker(i, |r|) else ""
  {
    seq(|pieces|, i requires 0 <= i < |pieces| => pieces[i] + if i < |pieces| - 1 then Marker(i, |pieces|) else "")
  }

  /** smartChunk: the pieces, each but the last saying which of how many it is. */
  method Chunk(text: string, maxLen: int) returns (chunks: seq<string>)
    requires maxLen >= 1
    ensures chunks == Marked(PiecesOf(text, maxLen))
    ensures IsSplit(text, maxLen, PiecesOf(text, maxLen)) && Ink(Joined(PiecesOf(text, maxLen))) == Ink(text)
  {
    hide IsSplit, Ink, Joined, PiecesOf;
    var pieces := Pieces(text, maxLen);
    SplitConservesInk(text, maxLen, pieces);
    chunks := pieces;
    if |chunks| > 1 {
      for i := 0 to |chunks|
        invariant |chunks| == |pieces|
        invariant forall k :: 0 <= k < i ==> chunks[k] == Marked(pieces)[k]
        invariant forall k :: i <= k < |chunks| ==> chunks[k] == pieces[k]
      {
        if i < |chunks| - 1 {
          chunks := chunks[i := chunks[i] + Marker(i, |chunks|)];
        }
      }
    }
    assert forall k :: 0 <= k < |pieces| && k >= |pieces| - 1 ==> Marked(pieces)[k] == pieces[k] + "" == pieces[k];
    assert chunks == Marked(pieces);
  }

  // ---- which chunks keep to the limit ----

  lemma {:induction false} CutFits(line: string, maxLen: int)
    requires maxLen >= 1
    ensures Fit(Cut(line, maxLen).0, maxLen) && |Cut(line, maxLen).1| <= maxLen
    decreases |line|
  {
    if |line| > maxLen {
      CutFits(TrimStart(line[CutAt(line, maxLen)..]), maxLen);
    }
  }

  lemma FitAppend(a: seq<string>, b: seq<string>, maxLen: int)
    requires Fit(a, maxLen) && Fit(b, maxLen)
    ensures Fit(a + b, maxLen)
  {
  }

  lemma AddedFits(pieces: seq<string>, held: string, line: string, maxLen: int)
    requires maxLen >= 1 && Fit(pieces, maxLen) && Holds(held, maxLen)
    ensures Fit(Added(pieces, held, line, maxLen).0, maxLen) && Holds(Added(pieces, held, line, maxLen).1, maxLen)
  {
    hide Fit, Cut, TrimEnd;
    HeldFits(held, maxLen);
    CutFits(line, maxLen);
    assert Fit([TrimEnd(held)], maxLen) by { OneFits(TrimEnd(held), maxLen); }
    FitAppend(pieces, [TrimEnd(held)], maxLen);
    FitAppend(pieces, Cut(line, maxLen).0, maxLen);
    FitAppend(pieces + [TrimEnd(held)], Cut(line, maxLen).0, maxLen);
  }

  lemma OneFits(piece: string, maxLen: int)
    requires |piece| <= maxLen
    ensures Fit([piece], maxLen)
  {
  }

  lemma {:induction false} AddedAllFits(ls: seq<string>, maxLen: int)
    requires maxLen >= 1
    ensures Fit(AddedAll(ls, maxLen).0, maxLen) && Holds(AddedAll(ls, maxLen).1, maxLen)
  {
    hide Added;
    if ls != [] {
      AddedAllFits(ls[..|ls| - 1], maxLen);
      var (pieces, held) := AddedAll(ls[..|ls| - 1], maxLen);
      AddedFits(pieces, held, ls[|ls| - 1], maxLen);
    }
  }

  lemma PiecesFit(text: string, maxLen: int)
    requires maxLen >= 1
    ensures Fit(PiecesOf(text, maxLen), maxLen)
  {
    hide AddedAll, TrimEnd;
    AddedAllFits(Lines(text), maxLen);
    HeldFits(AddedAll(Lines(text), maxLen).1, maxLen);
  }

  /** A chunk keeps to the limit exactly when it is the last one or its piece leaves room for its marker. */
  lemma ChunkFitsIff(text: string, maxLen: int, i: nat)
    requires maxLen >= 1 && i < |PiecesOf(text, maxLen)|
    ensures var ps := PiecesOf(text, maxLen);
            |Marked(ps)[i]| <= maxLen <==> i == |ps| - 1 || |ps[i]| + |Marker(i, |ps|)| <= maxLen
  {
    PiecesFit(text, maxLen);
    hide PiecesOf, Marker;
  }

  lemma TrimBreak(s: string)
    ensures TrimEnd(s + "\n") == TrimEnd(s)
  {
    assert (s + "\n")[..|s|] == s;
  }

  /** Lines that all fit together are held to the end. */
  lemma {:induction false} HeldTogether(ls: seq<string>, maxLen: int)
    requires maxLen >= 1 && |Unlines(ls)| <= maxLen
    ensures AddedAll(ls, maxLen) == ([], Unlines(ls))
  {
    if ls != [] {
      var front, l := ls[..|ls| - 1], ls[|ls| - 1];
      assert ls == front + [l];
      UnlinesAppend(front, l);
      HeldTogether(front, maxLen);
      assert Unlines(front) + (l + "\n") == Unlines(ls);
    }
  }

  lemma {:induction false} FirstLine(line: string, rest: string)
    requires '\n' !in line
    ensures Lines(line) == [line] && Lines(line + "\n" + rest) == [line] + Lines(rest)
  {
    var text := line + "\n" + rest;
    if line == "" {
      assert text[1..] == rest;
    } else {
      FirstLine(line[1..], rest);
      assert text[1..] == line[1..] + "\n" + rest;
      assert [line[0]] + line[1..] == line;
    }
  }

  lemma LastPiece(text: string, maxLen: int, ps: seq<string>, last: string)
    requires maxLen >= 1 && AddedAll(Lines(text), maxLen) == (ps, last + "\n")
    ensures PiecesOf(text, maxLen) == ps + if BlankText(last) then [] else [TrimEnd(last)]
  {
    TrimBreak(last);
    BlankBreak(last);
    hide TrimEnd, BlankText, AddedAll;
  }

  lemma OneLineHeld(line: string, maxLen: int)
    requires |line| <= maxLen && maxLen >= 1
    ensures AddedAll([line], maxLen) == ([], line + "\n")
  {
    assert [line][..0] == [];
    assert AddedAll([], maxLen) == ([], "");
    hide AddedAll;
    assert "" + (line + "\n") == line + "\n";
  }

  lemma ShortIsHeld(text: string, maxLen: int)
    requires maxLen >= 1 && (|text| < maxLen || (|text| == maxLen && '\n' !in text))
    ensures AddedAll(Lines(text), maxLen) == ([], text + "\n")
  {
    hide AddedAll;
    LinesJoin(text);
    if |text| < maxLen {
      HeldTogether(Lines(text), maxLen);
    } else {
      FirstLine(text, "");
      OneLineHeld(text, maxLen);
    }
  }

  /** A text below the limit, or one line up to it, comes out as one chunk, trimmed at its end, and so within the limit. */
  lemma ShortTextIsOneChunk(text: string, maxLen: int)
    requires maxLen >= 1 && (|text| < maxLen || (|text| == maxLen && '\n' !in text))
    ensures Marked(PiecesOf(text, maxLen)) == if BlankText(text) then [] else [TrimEnd(text)]
  {
    ShortIsHeld(text, maxLen);
    LastPiece(text, maxLen, [], text);
    hide PiecesOf, BlankText, AddedAll, TrimEnd, Lines, Marked;
    MarkedAlone(if BlankText(text) then [] else [TrimEnd(text)]);
  }

  lemma MarkedAlone(ps: seq<string>)
    requires |ps| <= 1
    ensures Marked(ps) == ps && [] + ps == ps
  {
    if ps != [] {
      assert Marked(ps)[0] == ps[0] + "" == ps[0];
    }
  }

  lemma BlankBreak(s: string)
    ensures BlankText(s + "\n") == BlankText(s)
  {
    var t := s + "\n";
    assert Blank(t) ==> forall i :: 0 <= i < |s| ==> t[i] == s[i];
  }

  /** Where it fails: two lines that fill the limit come out as two chunks, the first of them over it by its marker. */
  lemma MarkedChunkExceeds(line: string, maxLen: int)
    requires |line| == maxLen >= 1 && '\n' !in line && !IsSpace(line[maxLen - 1])
    ensures PiecesOf(line + "\n" + line, maxLen) == [line, line]
    ensures |Marked(PiecesOf(line + "\n" + line, maxLen))[0]| > maxLen
  {
    FirstLine(line, line);
    assert [line] + [line] == [line, line];
    TwoLinesHeld(line, maxLen);
    LastPiece(line + "\n" + line, maxLen, [line], line);
    FilledLine(line, maxLen);
    hide PiecesOf, AddedAll, TrimEnd, Lines, Marker, BlankText;
    assert [line] + [line] == [line, line];
    MarkerIsLong(0, 2);
  }

  lemma MarkerIsLong(i: nat, n: nat)
    ensures |Marker(i, n)| > 0
  {
  }

  lemma FilledLine(line: string, maxLen: int)
    requires |line| == maxLen >= 1 && !IsSpace(line[maxLen - 1])
    ensures TrimEnd(line) == line && !BlankText(line)
  {
  }

  lemma TwoLinesHeld(line: string, maxLen: int)
    requires |line| == maxLen >= 1 && !IsSpace(line[maxLen - 1])
    ensures AddedAll([line, line], maxLen) == ([line], line + "\n")
  {
    OneLineHeld(line, maxLen);
    assert [line, line][..1] == [line];
    FilledLine(line, maxLen);
    TrimBreak(line);
    assert AddedAll([line, line], maxLen) == Added([], line + "\n", line, maxLen);
    hide AddedAll, TrimEnd;
    assert "" + (line + "\n") == line + "\n" && [] + [line] == [line];
  }
}
