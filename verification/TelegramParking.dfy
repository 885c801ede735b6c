/**
 Telegram MarkdownV2: converted spans are parked behind placeholders while the rest is escaped, and
 put back by replacing, last first, the first string that reads like each placeholder.
 */
module TelegramParking {
  import opened Text
  import opened TelegramFormat

  // ---- texts with placeholders in them ----

  /** A character of the text, or a placeholder that parking put there. */
  datatype Token = Char(c: char) | Held(i: nat)

  type Tokens = seq<Token>

  function Chars(s: string): Tokens { seq(|s|, i requires 0 <= i < |s| => Char(s[i])) }

  /** The i-th placeholder as a string. */
  function Placeholder(i: nat): string { "XSTYLEDX" + Digits(i) + "XENDX" }

  function RenderToken(t: Token): string { if t.Held? then Placeholder(t.i) else [t.c] }

  /** The string the program holds. */
  function Render(ts: Tokens): string { if ts == [] then "" else RenderToken(ts[0]) + Render(ts[1..]) }

  function Renders(payloads: seq<Tokens>): seq<string> {
    seq(|payloads|, i requires 0 <= i < |payloads| => Render(payloads[i]))
  }

  lemma {:induction false} RenderAppend(a: Tokens, b: Tokens)
    ensures Render(a + b) == Render(a) + Render(b)
  {
    if a == [] {
      assert a + b == b;
    } else {
      assert (a + b)[1..] == a[1..] + b;
      RenderAppend(a[1..], b);
    }
  }

  lemma {:induction false} RenderChars(s: string)
    ensures Render(Chars(s)) == s
  {
    if s != "" {
      assert Chars(s)[1..] == Chars(s[1..]);
      RenderChars(s[1..]);
    }
  }

  // ---- parking ----

  /** What the three patterns match. A link is matched before anything is parked, so it holds no placeholder. */
  datatype Span = Link(name: string, url: string) | Bold(inner: Tokens) | Header(marks: string, inner: Tokens)

  /** The span as it stands in the text; a header's marks are its hashes and the white space after them. */
  function Written(s: Span): Tokens {
    match s
    case Link(name, url) => Chars("[" + name + "](" + url + ")")
    case Bold(inner) => Chars("**") + inner + Chars("**")
    case Header(marks, inner) => Chars(marks) + inner
  }

  /** Its payload, as the program makes it from strings. */
  function Payload(s: Span): string {
    match s
    case Link(name, url) => "[" + Escape(name) + "](" + DoubleBackslashes(url) + ")"
    case Bold(inner) => "*" + Escape(Render(inner)) + "*"
    case Header(_, inner) => "*" + Escape(Render(inner)) + "*"
  }

  /** Escaping the characters and keeping the placeholders. */
  function EscapeTokens(ts: Tokens): Tokens {
    if ts == [] then []
    else (if ts[0].Held? then [ts[0]] else Chars(EscapeChar(ts[0].c))) + EscapeTokens(ts[1..])
  }

  function Wrap(inner: Tokens): Tokens { [Char('*')] + EscapeTokens(inner) + [Char('*')] }

  /** The same payload with its placeholders told apart. */
  function PayloadTokens(s: Span): Tokens {
    match s
    case Link(name, url) => Chars("[" + Escape(name) + "](" + DoubleBackslashes(url) + ")")
    case Bold(inner) => Wrap(inner)
    case Header(_, inner) => Wrap(inner)
  }

  lemma PlaceholderIsPlain(i: nat)
    ensures forall j :: 0 <= j < |Placeholder(i)| ==> Placeholder(i)[j] != '\\' && !IsSpecial(Placeholder(i)[j])
  {
    var p := Placeholder(i);
    forall j | 0 <= j < |p| ensures p[j] != '\\' && !IsSpecial(p[j]) {
      if 8 <= j < 8 + |Digits(i)| { assert p[j] == Digits(i)[j - 8] && IsDigit(p[j]); }
    }
  }

  /** The escape pass over the string leaves every placeholder alone: they hold letters and digits only. */
  lemma {:induction false} EscapeLeavesPlaceholders(ts: Tokens)
    ensures Escape(Render(ts)) == Render(EscapeTokens(ts))
  {
    hide Escape;
    if ts == [] {
      EscapeKeepsPlain("");
    } else {
      EscapeLeavesPlaceholders(ts[1..]);
      EscapeAppend(RenderToken(ts[0]), Render(ts[1..]));
      if ts[0].Held? {
        PlaceholderIsPlain(ts[0].i);
        EscapeKeepsPlain(Placeholder(ts[0].i));
        RenderAppend([ts[0]], EscapeTokens(ts[1..]));
      } else {
        TwoPassesAreOne([ts[0].c]);
        RenderChars(EscapeChar(ts[0].c));
        RenderAppend(Chars(EscapeChar(ts[0].c)), EscapeTokens(ts[1..]));
      }
    }
  }

  lemma PayloadIsRendered(s: Span)
    ensures Render(PayloadTokens(s)) == Payload(s)
  {
    if s.Link? {
      RenderChars(Payload(s));
    } else {
      EscapeLeavesPlaceholders(s.inner);
      RenderAppend([Char('*')] + EscapeTokens(s.inner), [Char('*')]);
      RenderAppend([Char('*')], EscapeTokens(s.inner));
    }
  }

  lemma {:induction false} DoublingIsRead(url: string)
    ensures Unescape(DoubleBackslashes(url)) == url
  {
    if url != "" {
      DoublingIsRead(url[1..]);
      var d := DoubleBackslashes(url);
      if url[0] == '\\' {
        assert d[2..] == DoubleBackslashes(url[1..]);
      } else {
        assert d[1..] == DoubleBackslashes(url[1..]);
      }
      assert [url[0]] + url[1..] == url;
    }
  }

  /**
   A payload, read: a link's name and address, or the text of a bold span or header between asterisks, stand in it between
   their own marks, with nothing bare, and unescaping gives them back.
   */
  lemma PayloadHoldsItsSpan(s: Span)
    ensures match s
            case Link(name, url) =>
              exists n, u :: Payload(s) == "[" + n + "](" + u + ")" && Unescape(n) == name && NothingBare(n) && Unescape(u) == url
            case Bold(inner) => exists t :: Payload(s) == "*" + t + "*" && Unescape(t) == Render(inner) && NothingBare(t)
            case Header(_, inner) => exists t :: Payload(s) == "*" + t + "*" && Unescape(t) == Render(inner) && NothingBare(t)
  {
    match s
    case Link(name, url) =>
      EscapeIsInvertible(name);
      EscapeLeavesNothingBare(name);
      DoublingIsRead(url);
      hide Unescape, NothingBare, Escape, DoubleBackslashes;
      assert Payload(s) == "[" + Escape(name) + "](" + DoubleBackslashes(url) + ")";
    case Bold(inner) =>
      EscapeIsInvertible(Render(inner));
      EscapeLeavesNothingBare(Render(inner));
      hide Unescape, NothingBare, Escape;
      assert Payload(s) == "*" + Escape(Render(inner)) + "*";
    case Header(_, inner) =>
      EscapeIsInvertible(Render(inner));
      EscapeLeavesNothingBare(Render(inner));
      hide Unescape, NothingBare, Escape;
      assert Payload(s) == "*" + Escape(Render(inner)) + "*";
  }

  function Count(ts: Tokens, k: nat): nat {
    if ts == [] then 0 else (if ts[0] == Held(k) then 1 else 0) + Count(ts[1..], k)
  }

  function CountAll(payloads: seq<Tokens>, k: nat): nat {
    if payloads == [] then 0 else CountAll(payloads[..|payloads| - 1], k) + Count(payloads[|payloads| - 1], k)
  }

  /** The conversion so far: the text and the parked payloads. */
  datatype Parked = Parked(text: Tokens, styled: seq<Tokens>)

  predicate Below(ts: Tokens, n: nat) { forall j :: 0 <= j < |ts| && ts[j].Held? ==> ts[j].i < n }

  /** Each placeholder stands in exactly one place, and a payload mentions only earlier ones. */
  ghost predicate EachOnce(p: Parked) {
    && Below(p.text, |p.styled|)
    && (forall i :: 0 <= i < |p.styled| ==> Below(p.styled[i], i))
    && (forall k: nat :: k < |p.styled| ==> Count(p.text, k) + CountAll(p.styled, k) == 1)
  }

  /** A span is parked: a new placeholder takes its place, and its payload joins the list. */
  ghost predicate ParkStep(p: Parked, q: Parked) {
    exists before: Tokens, span: Span, after: Tokens :: ParksSpan(p, q, before, span, after)
  }

  predicate ParksSpan(p: Parked, q: Parked, before: Tokens, span: Span, after: Tokens) {
    && p.text == before + Written(span) + after
    && q == Parked(before + [Held(|p.styled|)] + after, p.styled + [PayloadTokens(span)])
  }

  /** On the program's strings: the same step, with the placeholder and the payload as it writes them. */
  lemma ParkingOnStrings(p: Parked, q: Parked, before: Tokens, span: Span, after: Tokens)
    requires ParksSpan(p, q, before, span, after)
    ensures Render(p.text) == Render(before) + Render(Written(span)) + Render(after)
    ensures Render(q.text) == Render(before) + Placeholder(|p.styled|) + Render(after)
    ensures Renders(q.styled) == Renders(p.styled) + [Payload(span)]
  {
    hide Render, Written, PayloadTokens, Payload, Placeholder;
    var n := |p.styled|;
    RenderAppend(before + Written(span), after);
    RenderAppend(before, Written(span));
    RenderAppend(before + [Held(n)], after);
    RenderAppend(before, [Held(n)]);
    RenderHeld(n);
    PayloadIsRendered(span);
  }

  lemma RenderHeld(i: nat)
    ensures Render([Held(i)]) == Placeholder(i)
  {
    assert Render([]) == "";
  }

  ghost predicate SameHeld(a: Tokens, b: Tokens) { forall k: nat :: Count(a, k) == Count(b, k) }

  lemma {:induction false} CountAppend(a: Tokens, b: Tokens, k: nat)
    ensures Count(a + b, k) == Count(a, k) + Count(b, k)
  {
    if a == [] {
      assert a + b == b;
    } else {
      assert (a + b)[1..] == a[1..] + b;
      CountAppend(a[1..], b, k);
    }
  }

  lemma {:induction false} CharsHoldNothing(s: string, k: nat)
    ensures Count(Chars(s), k) == 0
  {
    if s != "" {
      assert Chars(s)[1..] == Chars(s[1..]);
      CharsHoldNothing(s[1..], k);
    }
  }

  lemma {:induction false} EscapeKeepsHeld(ts: Tokens, k: nat)
    ensures Count(EscapeTokens(ts), k) == Count(ts, k)
  {
    if ts != [] {
      EscapeKeepsHeld(ts[1..], k);
      var first := if ts[0].Held? then [ts[0]] else Chars(EscapeChar(ts[0].c));
      CountAppend(first, EscapeTokens(ts[1..]), k);
      if ts[0].Char? { CharsHoldNothing(EscapeChar(ts[0].c), k); }
    }
  }

  lemma CharsCountNothing(s: string)
    ensures forall k: nat :: Count(Chars(s), k) == 0
  {
    forall k: nat ensures Count(Chars(s), k) == 0 { CharsHoldNothing(s, k); }
  }

  /** A payload holds the placeholders of its span, each as often. */
  lemma PayloadKeepsHeld(s: Span)
    ensures SameHeld(PayloadTokens(s), Written(s))
  {
    hide Count, EscapeTokens;
    if s.Link? {
      CharsCountNothing("[" + s.name + "](" + s.url + ")");
      CharsCountNothing(Payload(s));
    } else {
      forall k: nat ensures Count(PayloadTokens(s), k) == Count(Written(s), k) {
        EscapeKeepsHeld(s.inner, k);
        CountAppend([Char('*')] + EscapeTokens(s.inner), [Char('*')], k);
        CountAppend([Char('*')], EscapeTokens(s.inner), k);
        CharsHoldNothing("*", k);
        assert Chars("*") == [Char('*')];
        if s.Bold? {
          CountAppend(Chars("**") + s.inner, Chars("**"), k);
          CountAppend(Chars("**"), s.inner, k);
          CharsHoldNothing("**", k);
        } else {
          CountAppend(Chars(s.marks), s.inner, k);
          CharsHoldNothing(s.marks, k);
        }
      }
    }
  }

  ghost predicate NoneFrom(ts: Tokens, n: nat) { forall k: nat :: k >= n ==> Count(ts, k) == 0 }

  lemma {:induction false} NoneAbove(ts: Tokens, n: nat, k: nat)
    requires Below(ts, n) && k >= n
    ensures Count(ts, k) == 0
  {
    if ts != [] { NoneAbove(ts[1..], n, k); }
  }

  lemma {:induction false} HeldCounts(ts: Tokens, j: nat)
    requires j < |ts| && ts[j].Held?
    ensures Count(ts, ts[j].i) >= 1
  {
    if j > 0 { HeldCounts(ts[1..], j - 1); }
  }

  lemma BelowCounts(ts: Tokens, n: nat)
    ensures Below(ts, n) <==> NoneFrom(ts, n)
  {
    hide Count;
    if Below(ts, n) {
      forall k: nat | k >= n ensures Count(ts, k) == 0 { NoneAbove(ts, n, k); }
    }
    if NoneFrom(ts, n) {
      forall j | 0 <= j < |ts| && ts[j].Held? ensures ts[j].i < n { HeldCounts(ts, j); }
    }
  }

  lemma {:induction false} CountsBelow(payloads: seq<Tokens>, k: nat)
    requires forall i :: 0 <= i < |payloads| ==> Below(payloads[i], i)
    ensures k >= |payloads| ==> CountAll(payloads, k) == 0
  {
    if payloads != [] && k >= |payloads| {
      CountsBelow(payloads[..|payloads| - 1], k);
      NoneAbove(payloads[|payloads| - 1], |payloads| - 1, k);
    }
  }

  /** Parking keeps every placeholder in exactly one place. */
  lemma ParkKeepsEachOnce(p: Parked, q: Parked)
    requires EachOnce(p) && ParkStep(p, q)
    ensures EachOnce(q)
  {
    var before: Tokens, s: Span, after: Tokens :| ParksSpan(p, q, before, s, after);
    var span, payload := Written(s), PayloadTokens(s);
    hide Count, CountAll, Below, Written, PayloadTokens;
    PayloadKeepsHeld(s);
    var n := |p.styled|;
    forall k: nat ensures Count([Held(n)], k) == (if k == n then 1 else 0) { CountHeld(n, k); }
    forall k: nat
      ensures Count(q.text, k) + Count(payload, k) == Count(p.text, k) + (if k == n then 1 else 0)
      ensures Count(payload, k) <= Count(p.text, k)
    {
      CountAppend(before + span, after, k);
      CountAppend(before, span, k);
      CountAppend(before + [Held(n)], after, k);
      CountAppend(before, [Held(n)], k);
    }
    assert q.styled[..n] == p.styled;
    BelowCounts(p.text, n);
    BelowCounts(payload, n);
    BelowCounts(q.text, n + 1);
    assert NoneFrom(payload, n) && NoneFrom(q.text, n + 1);
    forall i | 0 <= i < n + 1 ensures Below(q.styled[i], i) {
      assert i < n ==> q.styled[i] == p.styled[i];
    }
    CountsBelow(p.styled, n);
    forall k: nat ensures CountAll(q.styled, k) == CountAll(p.styled, k) + Count(payload, k) { CountAllLast(q.styled, k); }
  }

  lemma CountHeld(n: nat, k: nat)
    ensures Count([Held(n)], k) == if k == n then 1 else 0
  {
  }

  lemma CountAllLast(payloads: seq<Tokens>, k: nat)
    requires payloads != []
    ensures CountAll(payloads, k) == CountAll(payloads[..|payloads| - 1], k) + Count(payloads[|payloads| - 1], k)
  {
  }

  // ---- restoring ----

  /** Where a placeholder first stands, or the length. */
  function IndexOf(ts: Tokens, k: nat): (i: nat)
    ensures i <= |ts| && (i < |ts| ==> ts[i] == Held(k)) && forall j :: 0 <= j < i ==> ts[j] != Held(k)
  {
    if ts == [] || ts[0] == Held(k) then 0 else 1 + IndexOf(ts[1..], k)
  }

  /** String replacement: the first occurrence only. */
  function ReplaceFirst(ts: Tokens, k: nat, payload: Tokens): Tokens {
    var i := IndexOf(ts, k);
    if i == |ts| then ts else ts[..i] + payload + ts[i + 1..]
  }

  /** Every placeholder below n replaced by its payload, and so on inside it. */
  function Expand(ts: Tokens, styled: seq<Tokens>, n: nat): Tokens
    requires n <= |styled|
    decreases n, |ts|
  {
    if ts == [] then []
    else (if ts[0].Held? && ts[0].i < n then Expand(styled[ts[0].i], styled, ts[0].i) else [ts[0]]) + Expand(ts[1..], styled, n)
  }

  lemma {:induction false} ExpandAppend(a: Tokens, b: Tokens, styled: seq<Tokens>, n: nat)
    requires n <= |styled|
    ensures Expand(a + b, styled, n) == Expand(a, styled, n) + Expand(b, styled, n)
    decreases |a|
  {
    if a == [] {
      assert a + b == b;
    } else {
      assert (a + b)[1..] == a[1..] + b;
      ExpandAppend(a[1..], b, styled, n);
    }
  }

  /** Raising the bound past placeholders a text does not hold changes nothing. */
  lemma {:induction false} ExpandBound(ts: Tokens, styled: seq<Tokens>, n: nat)
    requires n < |styled| && Count(ts, n) == 0
    ensures Expand(ts, styled, n + 1) == Expand(ts, styled, n)
    decreases |ts|
  {
    if ts != [] { ExpandBound(ts[1..], styled, n); }
  }

  lemma SplitOff(ts: Tokens, i: nat)
    requires i < |ts|
    ensures ts[i..] == [ts[i]] + ts[i + 1..]
  {
  }

  lemma {:induction false} OneIndex(ts: Tokens, k: nat)
    requires Count(ts, k) <= 1
    ensures Count(ts, k) == 1 <==> IndexOf(ts, k) < |ts|
    ensures IndexOf(ts, k) < |ts| ==> Count(ts[..IndexOf(ts, k)], k) == 0 && Count(ts[IndexOf(ts, k) + 1..], k) == 0
  {
    var i := IndexOf(ts, k);
    NoneBefore(ts[..i], k);
    assert ts[..i] + ts[i..] == ts;
    CountAppend(ts[..i], ts[i..], k);
    if i < |ts| {
      SplitOff(ts, i);
      CountAppend([Held(k)], ts[i + 1..], k);
      assert Count([Held(k)], k) == 1;
    }
  }

  lemma {:induction false} NoneBefore(ts: Tokens, k: nat)
    requires forall j :: 0 <= j < |ts| ==> ts[j] != Held(k)
    ensures Count(ts, k) == 0
  {
    if ts != [] { NoneBefore(ts[1..], k); }
  }

  lemma ExpandThree(a: Tokens, x: Tokens, b: Tokens, styled: seq<Tokens>, n: nat)
    requires n <= |styled|
    ensures Expand(a + x + b, styled, n) == Expand(a, styled, n) + Expand(x, styled, n) + Expand(b, styled, n)
  {
    hide Expand;
    ExpandAppend(a + x, b, styled, n);
    ExpandAppend(a, x, styled, n);
  }

  /** Around its one placeholder n, a text holds it nowhere. */
  lemma AroundHeld(ts: Tokens, n: nat, payload: Tokens) returns (a: Tokens, b: Tokens)
    requires Count(ts, n) == 1
    ensures ts == a + [Held(n)] + b && Count(a, n) == 0 && Count(b, n) == 0
    ensures ReplaceFirst(ts, n, payload) == a + payload + b
  {
    hide Count;
    var i := IndexOf(ts, n);
    OneIndex(ts, n);
    a, b := ts[..i], ts[i + 1..];
  }

  /** Replacing the one placeholder n by its payload is one step of the expansion. */
  lemma ReplaceExpands(ts: Tokens, styled: seq<Tokens>, n: nat)
    requires n < |styled| && Below(styled[n], n) && Count(ts, n) == 1
    ensures Expand(ts, styled, n + 1) == Expand(ReplaceFirst(ts, n, styled[n]), styled, n)
    ensures Count(ReplaceFirst(ts, n, styled[n]), n) == 0
  {
    hide Count, Below, Expand, ReplaceFirst;
    var a, b := AroundHeld(ts, n, styled[n]);
    ExpandOne(styled, n);
    ExpandThree(a, [Held(n)], b, styled, n + 1);
    ExpandThree(a, styled[n], b, styled, n);
    ExpandBound(a, styled, n);
    ExpandBound(b, styled, n);
    BelowCounts(styled[n], n);
    assert Count(styled[n], n) == 0 by { assert NoneFrom(styled[n], n); }
    CountAppend(a + styled[n], b, n);
    CountAppend(a, styled[n], n);
  }

  lemma ExpandOne(styled: seq<Tokens>, n: nat)
    requires n < |styled|
    ensures Expand([Held(n)], styled, n + 1) == Expand(styled[n], styled, n)
  {
    assert Expand([Held(n)], styled, n + 1) == Expand(styled[n], styled, n) + Expand([], styled, n + 1);
  }

  lemma ReplaceCounts(ts: Tokens, n: nat, payload: Tokens, k: nat)
    requires Count(ts, n) == 1 && k != n
    ensures Count(ReplaceFirst(ts, n, payload), k) == Count(ts, k) + Count(payload, k)
  {
    var i := IndexOf(ts, n);
    OneIndex(ts, n);
    var a, b := ts[..i], ts[i + 1..];
    assert ts == a + [Held(n)] + b;
    CountAppend(a + [Held(n)], b, k);
    CountAppend(a, [Held(n)], k);
    CountAppend(a + payload, b, k);
    CountAppend(a, payload, k);
    assert Count([Held(n)], k) == 0;
  }

  lemma {:induction false} NothingHeld(ts: Tokens)
    requires Below(ts, 0)
    ensures forall j :: 0 <= j < |ts| ==> ts[j].Char?
  {
  }

  lemma {:induction false} ExpandNothing(ts: Tokens, styled: seq<Tokens>)
    ensures Expand(ts, styled, 0) == ts
  {
    if ts != [] {
      ExpandNothing(ts[1..], styled);
      assert [ts[0]] + ts[1..] == ts;
    }
  }


  /** The text holds each placeholder below i once, counting those still inside payloads below i, and no other. */
  ghost predicate Resolved(ts: Tokens, styled: seq<Tokens>, i: nat)
    requires i <= |styled|
  {
    && Below(ts, i) && (forall j :: 0 <= j < |styled| ==> Below(styled[j], j))
    && forall k: nat :: k < i ==> Count(ts, k) + CountAll(styled[..i], k) == 1
  }

  lemma WholeList(styled: seq<Tokens>)
    ensures styled[..|styled|] == styled
  {
  }

  lemma OneLeft(ts: Tokens, styled: seq<Tokens>, i: nat)
    requires i < |styled| && Resolved(ts, styled, i + 1)
    ensures Count(ts, i) == 1 && Below(styled[i], i)
  {
    hide Count, CountAll, Below;
    CountsBelow(styled[..i], i);
    BelowCounts(styled[i], i);
    assert styled[..i + 1][..i] == styled[..i];
    CountAllLast(styled[..i + 1], i);
  }

  lemma StillResolved(ts: Tokens, styled: seq<Tokens>, i: nat)
    requires i < |styled| && Resolved(ts, styled, i + 1) && Count(ts, i) == 1
    ensures Resolved(ReplaceFirst(ts, i, styled[i]), styled, i)
  {
    hide Count, CountAll, ReplaceFirst, Below, Expand;
    var r := ReplaceFirst(ts, i, styled[i]);
    assert styled[..i + 1][..i] == styled[..i];
    forall k: nat | k != i ensures Count(r, k) == Count(ts, k) + Count(styled[i], k) { ReplaceCounts(ts, i, styled[i], k); }
    ReplaceExpands(ts, styled, i);
    BelowCounts(ts, i + 1);
    BelowCounts(styled[i], i);
    BelowCounts(r, i);
    forall k: nat ensures CountAll(styled[..i + 1], k) == CountAll(styled[..i], k) + Count(styled[i], k) {
      CountAllLast(styled[..i + 1], k);
    }
  }

  /** Parking from a text that holds no placeholder, then escaping what is left, meets what Restore needs. */
  lemma {:induction false} ParkingIsRestorable(steps: seq<Parked>)
    requires steps != [] && steps[0].styled == [] && Below(steps[0].text, 0)
    requires forall i :: 0 <= i < |steps| - 1 ==> ParkStep(steps[i], steps[i + 1])
    ensures var last := steps[|steps| - 1]; EachOnce(Parked(EscapeTokens(last.text), last.styled))
    decreases |steps|
  {
    hide ParkStep, Count, CountAll, Below;
    var last := steps[|steps| - 1];
    AllStepsOnce(steps);
    forall k: nat ensures Count(EscapeTokens(last.text), k) == Count(last.text, k) { EscapeKeepsHeld(last.text, k); }
    BelowCounts(last.text, |last.styled|);
    BelowCounts(EscapeTokens(last.text), |last.styled|);
  }

  lemma {:induction false} AllStepsOnce(steps: seq<Parked>)
    requires steps != [] && steps[0].styled == [] && Below(steps[0].text, 0)
    requires forall i :: 0 <= i < |steps| - 1 ==> ParkStep(steps[i], steps[i + 1])
    ensures EachOnce(steps[|steps| - 1])
    decreases |steps|
  {
    hide ParkStep, EachOnce;
    if |steps| == 1 {
      FirstOnce(steps[0]);
    } else {
      var n := |steps| - 1;
      AllStepsOnce(steps[..n]);
      assert steps[..n][n - 1] == steps[n - 1];
      ParkKeepsEachOnce(steps[n - 1], steps[n]);
    }
  }

  lemma FirstOnce(p: Parked)
    requires p.styled == [] && Below(p.text, 0)
    ensures EachOnce(p)
  {
  }
}
