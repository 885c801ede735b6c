/**
 Where a message is cut: an overlong line at its words, and lines packed together as long as they fit.
 */
module ChunkPacking {
  import opened Text
  import opened SmartChunk

  // ---- overlong lines ----

  /** The last space within the limit when it lies past the middle, else the limit itself. */
  predicate CutsWell(line: string, maxLen: int, idx: int) {
    && 1 <= idx <= maxLen < |line|
    && if exists j :: 0 <= j <= maxLen && line[j] == ' ' && 2 * j > maxLen
       then line[idx] == ' ' && 2 * idx > maxLen && forall j :: idx < j <= maxLen ==> line[j] != ' '
       else idx == maxLen
  }

  lemma CutIsWell(line: string, maxLen: int)
    requires 1 <= maxLen < |line|
    ensures CutsWell(line, maxLen, CutAt(line, maxLen))
  {
    hide LastIndexOf;
    var p := LastIndexOf(line, ' ', maxLen);
    if j :| 0 <= j <= maxLen && line[j] == ' ' && 2 * j > maxLen {
      assert j <= p;
    }
  }

  /** The text without the white space in front. */
  predicate Stripped(s: string, t: string) {
    && |t| <= |s| && s[|s| - |t|..] == t && (forall i :: 0 <= i < |s| - |t| ==> IsSpace(s[i])) && (t != "" ==> !IsSpace(t[0]))
  }

  /** A line cut well while it is too long, each time going on behind the white space at the cut. */
  ghost predicate CutUp(line: string, maxLen: int, pieces: seq<string>, left: string)
    decreases |pieces|
  {
    if pieces == [] then |line| <= maxLen && left == line
    else
      && |line| > maxLen
      && exists idx, rest: string :: CutsWell(line, maxLen, idx) && pieces[0] == line[..idx] && Stripped(line[idx..], rest)
                                     && CutUp(rest, maxLen, pieces[1..], left)
  }

  lemma {:induction false} CutIsCutUp(line: string, maxLen: int)
    requires maxLen >= 1
    ensures CutUp(line, maxLen, Cut(line, maxLen).0, Cut(line, maxLen).1)
    decreases |line|
  {
    if |line| > maxLen {
      var idx := CutAt(line, maxLen);
      var rest := TrimStart(line[idx..]);
      CutIsWell(line, maxLen);
      CutIsCutUp(rest, maxLen);
      hide CutAt, CutsWell, TrimStart;
      assert Stripped(line[idx..], rest);
      var (more, left) := Cut(rest, maxLen);
      assert ([line[..idx]] + more)[1..] == more;
    }
  }

  // ---- one line more ----

  /** What a held text is pushed as: nothing if it is empty, else itself without the white space behind. */
  ghost predicate Pushes(held: string, pieces: seq<string>) {
    if held == "" then pieces == [] else |pieces| == 1 && Trimmed(held, pieces[0])
  }

  /**
   A line is added to the pieces made so far and the text held back. One over the limit pushes what is held and is cut up,
   and what is left of it is held; one that does not fit behind what is held pushes that and is held alone; any other joins it.
   */
  lemma LineIsAdded(pieces: seq<string>, held: string, line: string, maxLen: int)
    requires maxLen >= 1
    ensures var (ps, h) := Added(pieces, held, line, maxLen);
            if |line| > maxLen then
              exists pushed, cut, left :: Pushes(held, pushed) && CutUp(line, maxLen, cut, left)
                                          && ps == pieces + pushed + cut && h == if left == "" then "" else left + "\n"
            else if held != "" && |held| + |line| + 1 > maxLen then
              exists pushed :: Pushes(held, pushed) && ps == pieces + pushed && h == line + "\n"
            else ps == pieces && h == held + line + "\n"
  {
    hide TrimEnd, Cut, CutUp, Pushes;
    var pushed := if held == "" then [] else [TrimEnd(held)];
    HeldIsPushed(held);
    if |line| > maxLen {
      CutIsCutUp(line, maxLen);
      var cut, left := Cut(line, maxLen).0, Cut(line, maxLen).1;
      assert Added(pieces, held, line, maxLen) == (pieces + pushed + cut, if left == "" then "" else left + "\n") by {
        assert pieces + [] == pieces;
      }
    } else {
      assert held + (line + "\n") == held + line + "\n" && "" + (line + "\n") == line + "\n";
    }
  }

  lemma HeldIsPushed(held: string)
    ensures Pushes(held, if held == "" then [] else [TrimEnd(held)])
  {
  }

  // ---- lines that fit ----

  /** t is s without the white space behind. */
  predicate Trimmed(s: string, t: string) {
    && |t| <= |s| && s[..|t|] == t && (forall i :: |t| <= i < |s| ==> IsSpace(s[i])) && (t != "" ==> !IsSpace(t[|t| - 1]))
  }

  /** The lines from a up to b, each with its break. */
  function Together(ls: seq<string>, a: nat, b: nat): string
    requires a <= b <= |ls|
  {
    Unlines(ls[a..b])
  }

  /** The groups: from each start to the next, and the last to the end. */
  ghost predicate Starting(starts: seq<nat>, n: nat) {
    && starts != [] && starts[0] == 0 && starts[|starts| - 1] <= n
    && (forall i :: 0 <= i < |starts| - 1 ==> starts[i] < starts[i + 1])
  }

  /** A group of lines, as a piece: its lines are within the limit together, or it is one line, and the next line does not fit. */
  ghost predicate Packs(ls: seq<string>, a: nat, b: nat, piece: string, maxLen: int) {
    && a < b < |ls| && Trimmed(Together(ls, a, b), piece)
    && (b == a + 1 || |Together(ls, a, b)| <= maxLen)
    && |Together(ls, a, b + 1)| > maxLen
  }

  ghost predicate Packing(ls: seq<string>, starts: seq<nat>, pieces: seq<string>, held: string, maxLen: int) {
    && Starting(starts, |ls|) && |starts| == |pieces| + 1
    && (forall i :: 0 <= i < |pieces| ==> Packs(ls, starts[i], starts[i + 1], pieces[i], maxLen))
    && held == Together(ls, starts[|pieces|], |ls|)
    && (ls != [] ==> starts[|pieces|] < |ls|)
    && (starts[|pieces|] + 1 == |ls| || |held| <= maxLen)
  }

  lemma TogetherMore(ls: seq<string>, l: string, a: nat, b: nat)
    requires a <= b <= |ls|
    ensures Together(ls + [l], a, b) == Together(ls, a, b)
    ensures Together(ls + [l], a, |ls| + 1) == Together(ls, a, |ls|) + (l + "\n")
    ensures b < |ls| ==> Together(ls + [l], a, b + 1) == Together(ls, a, b + 1)
  {
    assert (ls + [l])[a..b] == ls[a..b];
    assert (ls + [l])[a..|ls| + 1] == ls[a..|ls|] + [l];
    assert b < |ls| ==> (ls + [l])[a..b + 1] == ls[a..b + 1];
    UnlinesAppend(ls[a..|ls|], l);
  }

  lemma PacksStill(ls: seq<string>, l: string, a: nat, b: nat, piece: string, maxLen: int)
    requires Packs(ls, a, b, piece, maxLen)
    ensures Packs(ls + [l], a, b, piece, maxLen)
  {
    hide Trimmed, Together;
    TogetherMore(ls, l, a, b);
  }

  lemma PackOneMore(ls: seq<string>, l: string, starts: seq<nat>, pieces: seq<string>, held: string, maxLen: int) returns (starts': seq<nat>)
    requires Packing(ls, starts, pieces, held, maxLen) && maxLen >= 1 && |l| <= maxLen
    ensures var (ps, h) := Added(pieces, held, l, maxLen); Packing(ls + [l], starts', ps, h, maxLen)
  {
    hide Packs, Together, TrimEnd, Trimmed;
    var n, last := |pieces|, starts[|pieces|];
    TogetherMore(ls, l, last, |ls|);
    forall i | 0 <= i < n ensures Packs(ls + [l], starts[i], starts[i + 1], pieces[i], maxLen) {
      PacksStill(ls, l, starts[i], starts[i + 1], pieces[i], maxLen);
    }
    if held != "" && |held| + |l| + 1 > maxLen {
      starts' := starts + [|ls|];
      assert last < |ls| by { HeldIsSomething(ls, starts, pieces, held, maxLen); }
      FlushPacks(ls, l, last, held, maxLen);
      TogetherMore(ls, l, |ls|, |ls|);
      assert Together(ls, |ls|, |ls|) == "" by { NothingTogether(ls); }
      assert "" + (l + "\n") == l + "\n";
    } else {
      starts' := starts;
      assert ls == [] ==> held == "" by { if ls == [] { NothingTogether(ls); } }
      assert held == "" ==> last == |ls| by { EmptyIsNothing(ls, last); }
    }
  }

  lemma NothingTogether(ls: seq<string>)
    ensures Together(ls, |ls|, |ls|) == ""
  {
  }

  lemma EmptyIsNothing(ls: seq<string>, a: nat)
    requires a <= |ls|
    ensures Together(ls, a, |ls|) == "" ==> a == |ls|
  {
  }

  lemma HeldIsSomething(ls: seq<string>, starts: seq<nat>, pieces: seq<string>, held: string, maxLen: int)
    requires Packing(ls, starts, pieces, held, maxLen) && held != ""
    ensures starts[|pieces|] < |ls|
  {
    NothingTogether(ls);
  }

  lemma FlushPacks(ls: seq<string>, l: string, a: nat, held: string, maxLen: int)
    requires a < |ls| && held == Together(ls, a, |ls|) && (a + 1 == |ls| || |held| <= maxLen) && |held| + |l| + 1 > maxLen
    ensures Packs(ls + [l], a, |ls|, TrimEnd(held), maxLen)
  {
    hide Together;
    TogetherMore(ls, l, a, |ls|);
  }

  lemma {:induction false} LinesPack(ls: seq<string>, maxLen: int) returns (starts: seq<nat>)
    requires maxLen >= 1 && forall l :: l in ls ==> |l| <= maxLen
    ensures Packing(ls, starts, AddedAll(ls, maxLen).0, AddedAll(ls, maxLen).1, maxLen)
  {
    hide Packing, Added;
    if ls == [] {
      starts := [0];
      NothingPacks(maxLen);
    } else {
      var front, l := ls[..|ls| - 1], ls[|ls| - 1];
      assert ls == front + [l] && l in ls && forall x :: x in front ==> x in ls;
      starts := LinesPack(front, maxLen);
      var (pieces, held) := AddedAll(front, maxLen);
      starts := PackOneMore(front, l, starts, pieces, held, maxLen);
    }
  }

  lemma NothingPacks(maxLen: int)
    requires maxLen >= 1
    ensures Packing([], [0], [], "", maxLen)
  {
    NothingTogether([]);
  }

  /**
   A message whose lines are all within the limit is packed greedily: its lines fall into groups in order, each piece is a
   group trimmed at its end, no group of several lines is over the limit, and every group but the last would be with its
   next line. A last group of white space only makes no piece.
   */
  lemma LinesArePacked(text: string, maxLen: int) returns (starts: seq<nat>, pieces: seq<string>, held: string)
    requires maxLen >= 1 && LinesFit(text, maxLen)
    ensures Packing(Lines(text), starts, pieces, held, maxLen)
    ensures if Blank(held) then PiecesOf(text, maxLen) == pieces
            else exists last :: Trimmed(held, last) && PiecesOf(text, maxLen) == pieces + [last]
  {
    hide Packing, Lines, AddedAll;
    starts := LinesPack(Lines(text), maxLen);
    pieces, held := AddedAll(Lines(text), maxLen).0, AddedAll(Lines(text), maxLen).1;
    assert Trimmed(held, TrimEnd(held));
    hide TrimEnd;
  }
}
