/**
 Telegram MarkdownV2: putting parked spans back. The program replaces the first string that reads like a placeholder,
 which need not be the placeholder; this says when it is.
 */
module TelegramRestore {
  import opened Text
  import opened TelegramFormat
  import opened TelegramParking

  // ---- the program, on strings ----

  predicate StartsWith(s: string, w: string) { |w| <= |s| && s[..|w|] == w }

  /** String replacement: the first occurrence only. */
  function ReplaceString(s: string, w: string, payload: string): string
    requires w != ""
  {
    if StartsWith(s, w) then payload + s[|w|..]
    else if s == "" then ""
    else [s[0]] + ReplaceString(s[1..], w, payload)
  }

  /** The first n spans put back, last first. */
  function RestoreSpans(text: string, styled: seq<string>, n: nat): string
    requires n <= |styled|
    decreases n
  {
    if n == 0 then text
    else RestoreSpans(ReplaceString(text, Placeholder(n - 1), styled[n - 1]), styled, n - 1)
  }

  method Restore(text: string, styled: seq<string>) returns (r: string)
    ensures r == RestoreSpans(text, styled, |styled|)
  {
    r := text;
    var i := |styled|;
    while i > 0
      invariant 0 <= i <= |styled| && RestoreSpans(r, styled, i) == RestoreSpans(text, styled, |styled|)
    {
      i := i - 1;
      r := ReplaceString(r, Placeholder(i), styled[i]);
    }
  }

  /** Strings in which no occurrence starts are passed over. */
  lemma {:induction false} Passes(a: string, rest: string, w: string, payload: string)
    requires w != "" && forall o :: 0 <= o < |a| ==> !StartsWith(a[o..] + rest, w)
    ensures ReplaceString(a + rest, w, payload) == a + ReplaceString(rest, w, payload)
  {
    hide StartsWith, ReplaceString;
    if a == "" {
      assert a + rest == rest;
    } else {
      var b := a[1..];
      assert a[0..] == a;
      forall o | 0 <= o < |b| ensures !StartsWith(b[o..] + rest, w) {
        assert b[o..] == a[o + 1..];
      }
      Passes(b, rest, w, payload);
      assert a == [a[0]] + b && a + rest == [a[0]] + (b + rest);
      Steps([a[0]], b + rest, w, payload);
    }
  }

  // ---- where a placeholder's string occurs ----

  /** A placeholder's string without its first and last letter. */
  function Core(k: nat): string { "STYLEDX" + Digits(k) + "XEND" }

  lemma PlaceholderIsCore(k: nat)
    ensures Placeholder(k) == "X" + Core(k) + "X"
  {
  }

  /** Every placeholder begins and ends with the letter X. */
  predicate LendsX(t: Token) { t.Held? || t.c == 'X' }

  /** Do these tokens begin with the core as plain characters, and an X after it, a placeholder's or a plain one? */
  predicate CoreAhead(ts: Tokens, k: nat) {
    |Core(k)| < |ts| && ts[..|Core(k)|] == Chars(Core(k)) && LendsX(ts[|Core(k)|])
  }

  /** Before the placeholder, or anywhere without one: does the text read like it somewhere, borrowing or not? */
  predicate LookalikeFirst(ts: Tokens, k: nat) {
    ts != [] && ts[0] != Held(k) && ((LendsX(ts[0]) && CoreAhead(ts[1..], k)) || LookalikeFirst(ts[1..], k))
  }

  predicate NoXS(w: string) { forall j :: 0 <= j < |w| - 1 ==> w[j] == 'X' ==> w[j + 1] != 'S' }

  lemma StartsCons(c: char, s: string, w: string)
    requires w != ""
    ensures StartsWith([c] + s, w) <==> w[0] == c && StartsWith(s, w[1..])
  {
    if StartsWith([c] + s, w) {
      assert w[0] == ([c] + s)[0];
      assert w[1..] == ([c] + s)[1..|w|] == s[..|w| - 1];
    }
    if w[0] == c && StartsWith(s, w[1..]) {
      assert ([c] + s)[..|w|] == [c] + s[..|w| - 1] == [w[0]] + w[1..] == w;
    }
  }

  /** A word ending in X and without XS in it is read only from plain characters, but for that X. */
  lemma {:induction false} WordAhead(ts: Tokens, w: string)
    requires w != "" && w[|w| - 1] == 'X' && NoXS(w)
    ensures StartsWith(Render(ts), w) <==>
            |w| <= |ts| && ts[..|w| - 1] == Chars(w[..|w| - 1]) && LendsX(ts[|w| - 1])
  {
    hide StartsWith;
    if ts == [] {
      NothingAhead(w);
    } else if |w| == 1 {
      OneLetterAhead(ts, w);
    } else if ts[0].Held? {
      NoWordAtPlaceholder(ts, w);
    } else {
      assert Render(ts) == [ts[0].c] + Render(ts[1..]);
      StartsCons(ts[0].c, Render(ts[1..]), w);
      NoXSRest(w);
      WordAhead(ts[1..], w[1..]);
      if |w| <= |ts| {
        ConsChars(ts, w);
      }
    }
  }

  lemma NothingAhead(w: string)
    requires w != ""
    ensures !StartsWith("", w)
  {
  }

  lemma OneLetterAhead(ts: Tokens, w: string)
    requires ts != [] && w == "X"
    ensures StartsWith(Render(ts), w) <==> LendsX(ts[0])
  {
    var first := RenderToken(ts[0]);
    assert first[0] == if ts[0].Held? then 'X' else ts[0].c;
    assert Render(ts)[0] == first[0];
    assert Render(ts)[..1] == [Render(ts)[0]];
  }

  lemma NoWordAtPlaceholder(ts: Tokens, w: string)
    requires ts != [] && ts[0].Held? && |w| > 1 && NoXS(w)
    ensures !StartsWith(Render(ts), w)
  {
    var s := Render(ts);
    assert s[0] == 'X' && s[1] == 'S';
    assert |w| <= |s| ==> s[..|w|][0] == s[0] && s[..|w|][1] == s[1];
  }

  lemma NoXSRest(w: string)
    requires NoXS(w) && |w| > 1
    ensures NoXS(w[1..])
  {
    var v := w[1..];
    forall j | 0 <= j < |v| - 1 && v[j] == 'X' ensures v[j + 1] != 'S' {
      assert v[j] == w[j + 1] && v[j + 1] == w[j + 2];
    }
  }

  lemma ConsChars(ts: Tokens, w: string)
    requires |w| > 1 && ts != [] && |w| <= |ts|
    ensures ts[..|w| - 1] == Chars(w[..|w| - 1]) <==>
            ts[0] == Char(w[0]) && ts[1..][..|w[1..]| - 1] == Chars(w[1..][..|w[1..]| - 1])
  {
    var a, b := ts[..|w| - 1], Chars(w[..|w| - 1]);
    assert a == [ts[0]] + ts[1..][..|w[1..]| - 1];
    assert b == [Char(w[0])] + Chars(w[1..][..|w[1..]| - 1]);
    assert a == b ==> a[0] == b[0] && a[1..] == b[1..];
  }

  /** The letter S stands first in the core and nowhere else. */
  lemma OneSInCore(k: nat)
    ensures var w := Core(k) + "X"; w[0] == 'S' && forall j :: 1 <= j < |w| ==> w[j] != 'S'
  {
    var w, d := Core(k) + "X", Digits(k);
    forall j | 1 <= j < |w| ensures w[j] != 'S' {
      var tail := "XENDX";
      assert w[j] == if j < 7 then "STYLEDX"[j] else if j < 7 + |d| then d[j - 7] else tail[j - 7 - |d|];
      assert forall i :: 0 <= i < |d| ==> IsDigit(d[i]);
    }
  }

  lemma CoreIsAhead(ts: Tokens, k: nat)
    ensures StartsWith(Render(ts), Core(k) + "X") <==> CoreAhead(ts, k)
  {
    var w := Core(k) + "X";
    assert w[..|w| - 1] == Core(k);
    OneSInCore(k);
    WordAhead(ts, w);
  }

  /** The digits of a placeholder end where its next X stands, so its number can be read off. */
  lemma NumberIsRead(i: nat, k: nat, rest: string)
    requires StartsWith(Digits(i) + "XENDX" + rest, Digits(k) + "XENDX")
    ensures i == k
  {
    var s, w := Digits(i) + "XENDX" + rest, Digits(k) + "XENDX";
    var a, b := |Digits(i)|, |Digits(k)|;
    forall j | 0 <= j < a ensures IsDigit(s[j]) { assert s[j] == Digits(i)[j]; }
    forall j | 0 <= j < b ensures IsDigit(s[j]) { assert s[j] == s[..|w|][j] == w[j] == Digits(k)[j]; }
    assert s[a] == 'X';
    assert s[b] == s[..|w|][b] == w[b] == 'X';
    assert a == b;
    assert Digits(i) == s[..a] == s[..|w|][..a] == w[..a] == Digits(k);
    DigitsInjective(i, k);
  }

  lemma StartsDrop(a: string, s: string, w: string)
    requires StartsWith(a + s, a + w)
    ensures StartsWith(s, w)
  {
    assert s[..|w|] == (a + s)[|a|..|a| + |w|] == (a + w)[|a|..] == w;
  }

  /** Inside another placeholder's string an occurrence can only start at its last letter. */
  lemma NoneInside(i: nat, k: nat, rest: string, o: nat)
    requires i != k && o < |Placeholder(i)| - 1
    ensures !StartsWith(Placeholder(i)[o..] + rest, Placeholder(k))
  {
    var p, d := Placeholder(i), Digits(i);
    var s, w := p[o..] + rest, Placeholder(k);
    if StartsWith(s, w) {
      assert s[1] == s[..|w|][1] == w[1];
      assert s[1] == p[o + 1] == 'S';
      OneS(i, o + 1);
      assert p[o..] == p;
      assert s == "XSTYLEDX" + (d + "XENDX" + rest) && w == "XSTYLEDX" + (Digits(k) + "XENDX");
      StartsDrop("XSTYLEDX", d + "XENDX" + rest, Digits(k) + "XENDX");
      NumberIsRead(i, k, rest);
    }
  }

  lemma OneS(i: nat, j: nat)
    requires j < |Placeholder(i)| && Placeholder(i)[j] == 'S'
    ensures j == 1
  {
    PlaceholderIsCore(i);
    OneSInCore(i);
    var w := Core(i) + "X";
    assert Placeholder(i) == "X" + w;
    assert j > 0 ==> Placeholder(i)[j] == w[j - 1];
  }

  // ---- one replacement ----

  /** Whether an occurrence starts at the first token that is not the placeholder: only by borrowing the X before it. */
  lemma HeadOccurrence(ts: Tokens, k: nat)
    requires ts != [] && ts[0] != Held(k)
    ensures var r := RenderToken(ts[0]);
            StartsWith(r[|r| - 1..] + Render(ts[1..]), Placeholder(k)) <==> LendsX(ts[0]) && CoreAhead(ts[1..], k)
  {
    var r := RenderToken(ts[0]);
    CoreIsAhead(ts[1..], k);
    PlaceholderIsCore(k);
    assert Placeholder(k)[1..] == Core(k) + "X";
    StartsCons(r[|r| - 1], Render(ts[1..]), Placeholder(k));
    assert r[|r| - 1..] == [r[|r| - 1]];
  }

  lemma HeadPasses(ts: Tokens, k: nat, payload: string)
    requires ts != [] && ts[0] != Held(k)
    ensures var r, rest := RenderToken(ts[0]), Render(ts[1..]); var last := r[|r| - 1..];
            ReplaceString(Render(ts), Placeholder(k), payload) ==
            r[..|r| - 1] + ReplaceString(last + rest, Placeholder(k), payload)
  {
    var r, rest := RenderToken(ts[0]), Render(ts[1..]);
    RenderIsNonempty(ts[0]);
    var front, last := r[..|r| - 1], r[|r| - 1..];
    assert |front| > 0 ==> ts[0].Held? && r == Placeholder(ts[0].i);
    assert Render(ts) == r + rest;
    PlaceholderIsCore(k);
    hide Placeholder, RenderToken, Render, StartsWith, ReplaceString, Core;
    assert r == front + last && r + rest == front + (last + rest);
    forall o | 0 <= o < |front| ensures !StartsWith(front[o..] + (last + rest), Placeholder(k)) {
      assert front[o..] + last == r[o..];
      assert front[o..] + (last + rest) == r[o..] + rest;
      NoneInside(ts[0].i, k, rest, o);
    }
    Passes(front, last + rest, Placeholder(k), payload);
  }

  lemma ReplaceFirstCons(ts: Tokens, k: nat, payload: Tokens)
    requires ts != [] && ts[0] != Held(k)
    ensures ReplaceFirst(ts, k, payload) == [ts[0]] + ReplaceFirst(ts[1..], k, payload)
  {
    var us := ts[1..];
    var i := IndexOf(us, k);
    assert IndexOf(ts, k) == i + 1;
    hide IndexOf;
    assert [ts[0]] + us == ts;
    if i < |us| {
      assert ts[..i + 1] == [ts[0]] + us[..i];
      assert ts[i + 2..] == us[i + 1..];
      assert [ts[0]] + us[..i] + payload + us[i + 1..] == [ts[0]] + (us[..i] + payload + us[i + 1..]);
    }
  }

  /** Every payload opens with an asterisk or a bracket. */
  predicate Opens(payload: Tokens) { payload != [] && payload[0].Char? && payload[0].c != 'X' }

  /**
   The program's replacement is the replacement of the placeholder exactly when nothing before it, or borrowing its first
   letter, reads like it.
   */
  lemma {:induction false} ReplacesPlaceholderIff(ts: Tokens, k: nat, payload: Tokens)
    requires Opens(payload)
    ensures ReplaceString(Render(ts), Placeholder(k), Render(payload)) == Render(ReplaceFirst(ts, k, payload))
            <==> !LookalikeFirst(ts, k)
  {
    hide Placeholder, StartsWith, CoreAhead, ReplaceFirst, ReplaceString, RenderToken;
    if ts == [] {
      NothingToReplace(k, payload);
    } else if ts[0] == Held(k) {
      ReplaceAtHead(ts, k, payload);
    } else {
      var p, w := Render(payload), Placeholder(k);
      var r, rest := RenderToken(ts[0]), Render(ts[1..]);
      RenderIsNonempty(ts[0]);
      PlaceholderIsCore(k);
      var front, last := r[..|r| - 1], r[|r| - 1..];
      HeadPasses(ts, k, p);
      HeadOccurrence(ts, k);
      ReplaceFirstCons(ts, k, payload);
      RenderAppend([ts[0]], ReplaceFirst(ts[1..], k, payload));
      assert Render([ts[0]]) == r == front + last;
      if StartsWith(last + rest, w) {
        HeadReplaced(ts, k, payload);
      } else {
        ReplacesPlaceholderIff(ts[1..], k, payload);
        Steps(last, rest, w, p);
        var x, y := ReplaceString(rest, w, p), Render(ReplaceFirst(ts[1..], k, payload));
        assert front + (last + x) == r + x;
        Cancel(r, x, y);
      }
    }
  }

  lemma RenderIsNonempty(t: Token)
    ensures RenderToken(t) != ""
  {
  }

  lemma Cancel(r: string, x: string, y: string)
    ensures r + x == r + y <==> x == y
  {
    assert (r + x)[|r|..] == x && (r + y)[|r|..] == y;
  }

  lemma Steps(c: string, rest: string, w: string, p: string)
    requires w != "" && |c| == 1 && !StartsWith(c + rest, w)
    ensures ReplaceString(c + rest, w, p) == c + ReplaceString(rest, w, p)
  {
    assert (c + rest)[1..] == rest && [(c + rest)[0]] == c;
  }

  lemma NothingToReplace(k: nat, payload: Tokens)
    ensures ReplaceString(Render([]), Placeholder(k), Render(payload)) == Render(ReplaceFirst([], k, payload))
  {
  }

  lemma ReplaceAtHead(ts: Tokens, k: nat, payload: Tokens)
    requires ts != [] && ts[0] == Held(k)
    ensures ReplaceString(Render(ts), Placeholder(k), Render(payload)) == Render(ReplaceFirst(ts, k, payload))
  {
    var w, rest := Placeholder(k), Render(ts[1..]);
    assert Render(ts) == w + rest;
    PlaceholderIsCore(k);
    hide Placeholder;
    assert IndexOf(ts, k) == 0;
    assert ts[..0] + payload + ts[1..] == payload + ts[1..];
    RenderAppend(payload, ts[1..]);
    hide Render;
    assert (w + rest)[..|w|] == w && (w + rest)[|w|..] == rest;
  }

  /** Replaced too early: the payload's first character stands where an X should. */
  lemma HeadReplaced(ts: Tokens, k: nat, payload: Tokens)
    requires ts != [] && ts[0] != Held(k) && Opens(payload)
    requires var r := RenderToken(ts[0]);
             r != "" && StartsWith(r[|r| - 1..] + Render(ts[1..]), Placeholder(k))
    ensures ReplaceString(Render(ts), Placeholder(k), Render(payload)) != Render(ReplaceFirst(ts, k, payload))
  {
    var r, rest, p := RenderToken(ts[0]), Render(ts[1..]), Render(payload);
    var at := |r| - 1;
    HeadPasses(ts, k, p);
    HeadOccurrence(ts, k);
    ReplaceFirstCons(ts, k, payload);
    assert p[0] == payload[0].c;
    assert ReplaceString(r[at..] + rest, Placeholder(k), p)[0] == p[0];
    assert Render(ReplaceFirst(ts, k, payload))[at] == r[at] == 'X';
  }

  // ---- a text that holds no core ----

  /** Does the word stand at this place, as plain characters? */
  predicate At(ts: Tokens, j: nat, w: string) { j + |w| <= |ts| && ts[j..j + |w|] == Chars(w) }

  ghost predicate Free(ts: Tokens, w: string) { forall j: nat :: !At(ts, j, w) }

  /** The check on the text itself: does it hold this word? */
  predicate Holds(s: string, w: string) { exists j :: 0 <= j <= |s| - |w| && StartsWith(s[j..], w) }

  lemma FreeIffNotHeld(s: string, w: string)
    ensures Free(Chars(s), w) <==> !Holds(s, w)
  {
    forall j: nat ensures At(Chars(s), j, w) <==> j <= |s| - |w| && StartsWith(s[j..], w) {
      if j + |w| <= |s| {
        assert s[j..][..|w|] == s[j..j + |w|];
        assert Chars(s)[j..j + |w|] == Chars(s[j..j + |w|]);
        RenderChars(w);
        RenderChars(s[j..j + |w|]);
      }
    }
  }

  predicate InWord(t: Token, w: string) { t.Char? && t.c in w }

  lemma AtMeans(ts: Tokens, j: nat, w: string)
    ensures At(ts, j, w) <==> j + |w| <= |ts| && forall i :: 0 <= i < |w| ==> ts[j + i] == Char(w[i])
  {
    if j + |w| <= |ts| {
      assert At(ts, j, w) ==> forall i :: 0 <= i < |w| ==> ts[j..j + |w|][i] == Chars(w)[i];
    }
  }

  lemma AtBefore(a: Tokens, b: Tokens, j: nat, w: string)
    requires j + |w| <= |a|
    ensures At(a + b, j, w) <==> At(a, j, w)
  {
    assert (a + b)[j..j + |w|] == a[j..j + |w|];
  }

  lemma AtBehind(a: Tokens, b: Tokens, j: nat, w: string)
    ensures At(a + b, |a| + j, w) <==> At(b, j, w)
  {
    if j + |w| <= |b| {
      assert (a + b)[|a| + j..|a| + j + |w|] == b[j..j + |w|];
    }
  }

  lemma AtAcross(ts: Tokens, j: nat, i: nat, w: string)
    requires j <= i < |ts| && i < j + |w| && !InWord(ts[i], w)
    ensures !At(ts, j, w)
  {
    AtMeans(ts, j, w);
    assert ts[i] == ts[j + (i - j)];
  }

  /** Around a token no letter of the word, there is no more to find. */
  lemma FreeJoin(a: Tokens, t: Token, b: Tokens, w: string)
    requires w != "" && Free(a, w) && Free(b, w) && !InWord(t, w)
    ensures Free(a + [t] + b, w)
  {
    hide At, InWord;
    var ts := a + [t] + b;
    forall j: nat ensures !At(ts, j, w) {
      if j + |w| <= |a| {
        assert ts == a + ([t] + b);
        AtBefore(a, [t] + b, j, w);
      } else if j <= |a| {
        assert ts[|a|] == t;
        AtAcross(ts, j, |a|, w);
      } else {
        AtBehind(a + [t], b, j - |a| - 1, w);
      }
    }
  }

  lemma FreePart(a: Tokens, b: Tokens, c: Tokens, w: string)
    requires Free(a + b + c, w)
    ensures Free(a, w) && Free(b, w) && Free(c, w)
  {
    var ts := a + b + c;
    forall j: nat ensures !At(a, j, w) && !At(b, j, w) && !At(c, j, w) {
      AtMeans(ts, j, w);
      AtMeans(ts, |a| + j, w);
      AtMeans(ts, |a| + |b| + j, w);
      AtMeans(a, j, w);
      AtMeans(b, j, w);
      AtMeans(c, j, w);
    }
  }

  /** The second text is the first with backslashes put in. */
  predicate Inflates(ts: Tokens, us: Tokens) {
    if us == [] then ts == []
    else (ts != [] && us[0] == ts[0] && Inflates(ts[1..], us[1..]))
         || (us[0] == Char('\\') && Inflates(ts, us[1..]))
  }

  lemma {:induction false} InflatedAt(ts: Tokens, us: Tokens, w: string)
    requires Inflates(ts, us) && At(us, 0, w) && w != "" && '\\' !in w
    ensures At(ts, 0, w)
  {
    AtMeans(us, 0, w);
    AtMeans(ts, 0, w);
    assert us[0] == Char(w[0]);
    assert us[0] == ts[0] && Inflates(ts[1..], us[1..]);
    if |w| > 1 {
      AtMeans(us[1..], 0, w[1..]);
      AtMeans(ts[1..], 0, w[1..]);
      assert forall i :: 0 <= i < |w[1..]| ==> us[1..][i] == us[i + 1] && w[1..][i] == w[i + 1];
      InflatedAt(ts[1..], us[1..], w[1..]);
      assert forall i :: 1 <= i < |w| ==> ts[i] == ts[1..][i - 1];
    }
  }

  lemma FreeRest(ts: Tokens, w: string)
    requires Free(ts, w) && ts != []
    ensures Free(ts[1..], w)
  {
    assert ts == [ts[0]] + ts[1..] + [];
    FreePart([ts[0]], ts[1..], [], w);
  }

  lemma {:induction false} InflatedFree(ts: Tokens, us: Tokens, w: string)
    requires Inflates(ts, us) && Free(ts, w) && w != "" && '\\' !in w
    ensures Free(us, w)
  {
    if us != [] {
      if ts != [] && us[0] == ts[0] && Inflates(ts[1..], us[1..]) {
        FreeRest(ts, w);
        InflatedFree(ts[1..], us[1..], w);
      } else {
        InflatedFree(ts, us[1..], w);
      }
      forall j: nat ensures !At(us, j, w) {
        if j == 0 {
          if At(us, 0, w) { InflatedAt(ts, us, w); }
        } else {
          AtMeans(us, j, w);
          AtMeans(us[1..], j - 1, w);
        }
      }
    } else {
      forall j: nat ensures !At(us, j, w) { AtMeans(us, j, w); }
    }
  }

  lemma {:induction false} EscapeInflates(ts: Tokens)
    ensures Inflates(ts, EscapeTokens(ts))
  {
    if ts != [] {
      EscapeInflates(ts[1..]);
      var es := EscapeTokens(ts);
      if ts[0].Char? && |EscapeChar(ts[0].c)| == 2 {
        assert es[0] == Char('\\') && es[1..][0] == ts[0] && es[1..][1..] == EscapeTokens(ts[1..]);
      } else {
        assert es[0] == ts[0] && es[1..] == EscapeTokens(ts[1..]);
      }
    }
  }

  lemma {:induction false} MapEscapeInflates(s: string)
    ensures Inflates(Chars(s), Chars(MapEscape(s)))
  {
    if s != "" {
      MapEscapeInflates(s[1..]);
      var es := Chars(MapEscape(s));
      assert Chars(s)[1..] == Chars(s[1..]);
      if |EscapeChar(s[0])| == 2 {
        assert es[1..][1..] == Chars(MapEscape(s[1..]));
      } else {
        assert es[1..] == Chars(MapEscape(s[1..]));
      }
    }
  }

  lemma {:induction false} DoublingInflates(s: string)
    ensures Inflates(Chars(s), Chars(DoubleBackslashes(s)))
  {
    if s != "" {
      DoublingInflates(s[1..]);
      var es := Chars(DoubleBackslashes(s));
      assert Chars(s)[1..] == Chars(s[1..]);
      if s[0] == '\\' {
        assert es[1..][1..] == Chars(DoubleBackslashes(s[1..]));
      } else {
        assert es[1..] == Chars(DoubleBackslashes(s[1..]));
      }
    }
  }

  lemma CoreLetters(k: nat)
    ensures forall c :: c in Core(k) ==> c !in "\\*[]()"
    ensures |Core(k)| > 1
  {
    var w, d := Core(k), Digits(k);
    forall c | c in w ensures c !in "\\*[]()" {
      var j :| 0 <= j < |w| && w[j] == c;
      if 7 <= j < 7 + |d| {
        assert c == d[j - 7];
      } else if j >= 7 + |d| {
        assert c == "XEND"[j - 7 - |d|];
      }
    }
  }

  /** A payload holds no core that its span did not. */
  lemma PayloadIsFree(s: Span, k: nat)
    requires Free(Written(s), Core(k))
    ensures Free(PayloadTokens(s), Core(k))
  {
    var w := Core(k);
    CoreLetters(k);
    NothingIsFree(k);
    if s.Link? {
      LinkIsFree(s.name, s.url, k);
    } else {
      if s.Bold? {
        FreePart(Chars("**"), s.inner, Chars("**"), w);
      } else {
        assert Chars(s.marks) + s.inner == Chars(s.marks) + s.inner + [];
        FreePart(Chars(s.marks), s.inner, [], w);
      }
      EscapeInflates(s.inner);
      InflatedFree(s.inner, EscapeTokens(s.inner), w);
      FreeJoin([], Char('*'), EscapeTokens(s.inner), w);
      assert [] + [Char('*')] + EscapeTokens(s.inner) == [Char('*')] + EscapeTokens(s.inner);
      FreeJoin([Char('*')] + EscapeTokens(s.inner), Char('*'), [], w);
      assert Wrap(s.inner) == [Char('*')] + EscapeTokens(s.inner) + [Char('*')] + [];
    }
  }

  lemma NothingIsFree(k: nat)
    ensures Free([], Core(k))
  {
    forall j: nat ensures !At([], j, Core(k)) { AtMeans([], j, Core(k)); }
  }

  function LinkTokens(name: Tokens, url: Tokens): Tokens {
    [Char('[')] + name + [Char(']')] + [Char('(')] + url + [Char(')')]
  }

  lemma LinkIsFree(name: string, url: string, k: nat)
    requires Free(Chars("[" + name + "](" + url + ")"), Core(k))
    ensures Free(Chars("[" + Escape(name) + "](" + DoubleBackslashes(url) + ")"), Core(k))
  {
    var w, n, u := Core(k), Chars(Escape(name)), Chars(DoubleBackslashes(url));
    CoreLetters(k);
    NothingIsFree(k);
    assert Chars("[" + name + "](" + url + ")") ==
           [Char('[')] + Chars(name) + ([Char(']')] + [Char('(')] + Chars(url) + [Char(')')]);
    FreePart([Char('[')], Chars(name), [Char(']')] + [Char('(')] + Chars(url) + [Char(')')], w);
    FreePart([Char(']')] + [Char('(')], Chars(url), [Char(')')], w);
    TwoPassesAreOne(name);
    MapEscapeInflates(name);
    InflatedFree(Chars(name), n, w);
    DoublingInflates(url);
    InflatedFree(Chars(url), u, w);
    LinkJoins(n, u, w);
    assert Chars("[" + Escape(name) + "](" + DoubleBackslashes(url) + ")") == LinkTokens(n, u);
  }

  lemma LinkJoins(n: Tokens, u: Tokens, w: string)
    requires w != "" && Free(n, w) && Free(u, w) && Free([], w) && forall c :: c in w ==> c !in "\\*[]()"
    ensures Free(LinkTokens(n, u), w)
  {
    FreeJoin([], Char('['), n, w);
    assert [] + [Char('[')] + n == [Char('[')] + n;
    FreeJoin([Char('[')] + n, Char(']'), [], w);
    assert [Char('[')] + n + [Char(']')] + [] == [Char('[')] + n + [Char(']')];
    FreeJoin([Char('[')] + n + [Char(']')], Char('('), u, w);
    FreeJoin([Char('[')] + n + [Char(']')] + [Char('(')] + u, Char(')'), [], w);
    assert LinkTokens(n, u) == [Char('[')] + n + [Char(']')] + [Char('(')] + u + [Char(')')] + [];
  }

  // ---- the whole conversion ----

  /** Nothing in the text or a payload reads like the inside of one of the first n placeholders. */
  ghost predicate NoCores(ts: Tokens, styled: seq<Tokens>, n: nat) {
    forall k: nat :: k < n ==> Free(ts, Core(k)) && forall i :: 0 <= i < |styled| ==> Free(styled[i], Core(k))
  }

  predicate Opened(payload: Tokens) {
    |payload| >= 2 && (payload[0] == Char('*') || payload[0] == Char('['))
    && (payload[|payload| - 1] == Char('*') || payload[|payload| - 1] == Char(')'))
  }

  lemma PayloadOpens(s: Span)
    ensures Opened(PayloadTokens(s))
  {
  }

  lemma {:induction false} FreeHasNoLookalike(ts: Tokens, k: nat)
    requires Free(ts, Core(k))
    ensures !LookalikeFirst(ts, k)
  {
    if ts != [] {
      FreeRest(ts, Core(k));
      FreeHasNoLookalike(ts[1..], k);
      assert CoreAhead(ts[1..], k) ==> At(ts[1..], 0, Core(k));
    }
  }

  lemma ReplacedIsFree(ts: Tokens, k: nat, payload: Tokens, m: nat)
    requires Free(ts, Core(m)) && Free(payload, Core(m)) && Opened(payload)
    ensures Free(ReplaceFirst(ts, k, payload), Core(m))
  {
    hide Free, Core;
    var i := IndexOf(ts, k);
    if i < |ts| {
      CoreLetters(m);
      var a, b := ts[..i], ts[i + 1..];
      assert ts == a + [ts[i]] + b;
      FreePart(a, [ts[i]], b, Core(m));
      FreeAround(a, payload, b, Core(m));
    }
  }

  /** A payload that opens and closes with its own marks can stand anywhere. */
  lemma FreeAround(a: Tokens, payload: Tokens, b: Tokens, w: string)
    requires Free(a, w) && Free(payload, w) && Free(b, w) && Opened(payload)
    requires w != "" && forall c :: c in w ==> c !in "\\*[]()"
    ensures Free(a + payload + b, w)
  {
    hide Free;
    var n := |payload|;
    var first, mid, last := payload[0], payload[1..n - 1], payload[n - 1];
    assert payload == [first] + mid + [last];
    FreePart([first], mid, [last], w);
    assert !InWord(first, w) && !InWord(last, w);
    FreeJoin(a, first, mid, w);
    FreeJoin(a + [first] + mid, last, b, w);
    assert a + payload + b == a + [first] + mid + [last] + b;
  }

  /** Restoring strings is expanding placeholders, when nothing reads like one that is none. */
  lemma {:induction false} RestoreExpands(ts: Tokens, styled: seq<Tokens>, n: nat)
    requires n <= |styled| && Resolved(ts, styled, n) && NoCores(ts, styled, |styled|)
    requires forall i :: 0 <= i < |styled| ==> Opened(styled[i])
    ensures RestoreSpans(Render(ts), Renders(styled), n) == Render(Expand(ts, styled, n))
    ensures forall j :: 0 <= j < |Expand(ts, styled, n)| ==> Expand(ts, styled, n)[j].Char?
    decreases n
  {
    hide Expand, Count, CountAll, Below, ReplaceFirst, Resolved, Free, ReplaceString, Placeholder, Core, LookalikeFirst;
    if n == 0 {
      ExpandNothing(ts, styled);
      ResolvedIsPlain(ts, styled);
    } else {
      var k := n - 1;
      OneLeft(ts, styled, k);
      FreeHasNoLookalike(ts, k);
      ReplacesPlaceholderIff(ts, k, styled[k]);
      ReplaceExpands(ts, styled, k);
      StillResolved(ts, styled, k);
      var r := ReplaceFirst(ts, k, styled[k]);
      forall m: nat | m < |styled| ensures Free(r, Core(m)) { ReplacedIsFree(ts, k, styled[k], m); }
      RestoreExpands(r, styled, k);
    }
  }

  lemma EachOnceIsResolved(p: Parked)
    requires EachOnce(p)
    ensures Resolved(p.text, p.styled, |p.styled|)
  {
    WholeList(p.styled);
  }

  lemma ResolvedIsPlain(ts: Tokens, styled: seq<Tokens>)
    requires Resolved(ts, styled, 0)
    ensures forall j :: 0 <= j < |ts| ==> ts[j].Char?
  {
    NothingHeld(ts);
  }

  lemma {:induction false} ParkingStaysFree(steps: seq<Parked>, k: nat)
    requires steps != [] && steps[0].styled == [] && Free(steps[0].text, Core(k))
    requires forall i :: 0 <= i < |steps| - 1 ==> ParkStep(steps[i], steps[i + 1])
    ensures var last := steps[|steps| - 1];
            Free(last.text, Core(k)) && forall i :: 0 <= i < |last.styled| ==> Free(last.styled[i], Core(k)) && Opened(last.styled[i])
    decreases |steps|
  {
    hide Free, Core, PayloadTokens, Written, Opened;
    if |steps| > 1 {
      var n := |steps| - 1;
      ParkingStaysFree(steps[..n], k);
      assert steps[..n][n - 1] == steps[n - 1];
      var p, q := steps[n - 1], steps[n];
      var before: Tokens, s: Span, after: Tokens :| ParksSpan(p, q, before, s, after);
      FreePart(before, Written(s), after, Core(k));
      CoreLetters(k);
      FreeJoin(before, Held(|p.styled|), after, Core(k));
      PayloadIsFree(s, k);
      PayloadOpens(s);
    }
  }

  /**
   The conversion of a text: whatever spans are parked, if the text holds none of STYLEDX0XEND, STYLEDX1XEND and so on
   for as many spans as were parked, restoring puts every payload in its place and leaves no placeholder.
   */
  lemma ConversionRestores(text: string, steps: seq<Parked>)
    requires steps != [] && steps[0] == Parked(Chars(text), [])
    requires forall i :: 0 <= i < |steps| - 1 ==> ParkStep(steps[i], steps[i + 1])
    requires forall k: nat :: k < |steps[|steps| - 1].styled| ==> !Holds(text, Core(k))
    ensures var last := steps[|steps| - 1]; var n := |last.styled|;
            var full := Expand(EscapeTokens(last.text), last.styled, n);
            && RestoreSpans(Escape(Render(last.text)), Renders(last.styled), n) == Render(full)
            && forall j :: 0 <= j < |full| ==> full[j].Char?
  {
    hide Expand, Escape, RestoreSpans, Free, Core, Holds, Opened, EachOnce, ParkStep, Count, CountAll;
    var last := steps[|steps| - 1];
    var n, ts := |last.styled|, EscapeTokens(last.text);
    ParkingIsRestorable(steps);
    EachOnceIsResolved(Parked(ts, last.styled));
    EscapeLeavesPlaceholders(last.text);
    forall k: nat | k < n
      ensures Free(ts, Core(k)) && forall i :: 0 <= i < n ==> Free(last.styled[i], Core(k)) && Opened(last.styled[i])
    {
      FreeIffNotHeld(text, Core(k));
      ParkingStaysFree(steps, k);
      CoreLetters(k);
      EscapeInflates(last.text);
      InflatedFree(last.text, ts, Core(k));
    }
    assert forall i :: 0 <= i < n ==> Opened(last.styled[i]) by {
      if n > 0 { assert Free(ts, Core(0)); }
    }
    RestoreExpands(ts, last.styled, n);
  }

  // ---- one span, exactly ----

  lemma CoreBeforeSpan(e: string, rest: Tokens, k: nat)
    ensures CoreAhead(Chars(e) + [Held(k)] + rest, k) <==> StartsWith(e + "X", Core(k) + "X")
  {
    var n, ts, us := |Core(k)|, Chars(e) + [Held(k)] + rest, Chars(e + "X");
    RenderChars(e + "X");
    CoreIsAhead(us, k);
    hide Core;
    assert ts[|e|] == Held(k) && us[|e|] == Char('X');
    if n <= |e| {
      assert ts[..n] == Chars(e)[..n] == us[..n];
      assert n < |e| ==> ts[n] == us[n];
    } else if n < |ts| {
      assert ts[..n][|e|] != Chars(Core(k))[|e|];
    }
  }

  lemma {:induction false} LookalikeBeforeSpan(e: string, rest: Tokens, k: nat)
    ensures LookalikeFirst(Chars(e) + [Held(k)] + rest, k) <==> Holds(e + "X", Placeholder(k))
  {
    var ts, w := Chars(e) + [Held(k)] + rest, Placeholder(k);
    PlaceholderIsCore(k);
    hide Placeholder, CoreAhead, Core, StartsWith;
    if e == "" {
      assert ts[0] == Held(k);
    } else {
      var f := e[1..];
      assert ts[0] == Char(e[0]) && ts[1..] == Chars(f) + [Held(k)] + rest;
      CoreBeforeSpan(f, rest, k);
      LookalikeBeforeSpan(f, rest, k);
      assert e + "X" == [e[0]] + (f + "X") && w[1..] == Core(k) + "X";
      StartsCons(e[0], f + "X", w);
      HoldsCons(e[0], f + "X", w);
    }
  }

  lemma HoldsCons(c: char, s: string, w: string)
    ensures Holds([c] + s, w) <==> StartsWith([c] + s, w) || Holds(s, w)
  {
    var t := [c] + s;
    hide StartsWith;
    assert t[0..] == t;
    forall j | 0 <= j <= |s| ensures t[j + 1..] == s[j..] {}
    if Holds(t, w) {
      var j :| 0 <= j <= |t| - |w| && StartsWith(t[j..], w);
      if j > 0 {
        assert StartsWith(s[j - 1..], w);
      }
    }
    if Holds(s, w) {
      var j :| 0 <= j <= |s| - |w| && StartsWith(s[j..], w);
      assert StartsWith(t[j + 1..], w);
    }
    if StartsWith(t, w) {
      StartsFits(t, w);
    }
  }

  lemma StartsFits(s: string, w: string)
    requires StartsWith(s, w)
    ensures |w| <= |s| && s == w + s[|w|..]
  {
  }

  /** Escaping a text neither makes nor breaks a placeholder's string. */
  lemma EscapeKeepsHolding(s: string, k: nat)
    ensures Holds(Escape(s), Placeholder(k)) <==> Holds(s, Placeholder(k))
  {
    var w := Placeholder(k);
    PlaceholderIsPlain(k);
    assert w != "" && '\\' !in w;
    hide Placeholder, Escape;
    if Holds(s, w) {
      var j :| 0 <= j <= |s| - |w| && StartsWith(s[j..], w);
      StartsFits(s[j..], w);
      var a, b := s[..j], s[j..][|w|..];
      assert s == a + w + b;
      EscapeAppend(a + w, b);
      EscapeAppend(a, w);
      EscapeKeepsPlain(w);
      WordInside(Escape(a), w, Escape(b));
    } else {
      FreeIffNotHeld(s, w);
      FreeIffNotHeld(Escape(s), w);
      TwoPassesAreOne(s);
      MapEscapeInflates(s);
      InflatedFree(Chars(s), Chars(Escape(s)), w);
    }
  }

  lemma WordInside(a: string, w: string, b: string)
    ensures Holds(a + w + b, w)
  {
    assert (a + w + b)[|a|..] == w + b;
  }

  /**
   A text with one span in it: the span is put back where it stood exactly when the text before it, with one X behind,
   does not hold the placeholder's string.
   */
  lemma OneSpanExactly(a: string, span: Span, c: string)
    ensures RestoreSpans(Escape(a + Placeholder(0) + c), [Payload(span)], 1) == Escape(a) + Payload(span) + Escape(c)
            <==> !Holds(a + "X", Placeholder(0))
  {
    var ea, ec, p, w := Escape(a), Escape(c), PayloadTokens(span), Placeholder(0);
    PayloadIsRendered(span);
    PayloadOpens(span);
    hide PayloadTokens, Payload, Placeholder, Escape, Holds, LookalikeFirst, ReplaceFirst, ReplaceString, Render, RestoreSpans;
    EscapeAroundPlaceholder(a, c);
    assert Holds(ea + "X", w) <==> Holds(a + "X", w) by { EscapeBeforeX(a); }
    LookalikeBeforeSpan(ea, Chars(ec), 0);
    ReplacesPlaceholderIff(Chars(ea) + [Held(0)] + Chars(ec), 0, p);
    RenderAround(ea, [Held(0)], ec);
    RenderAround(ea, p, ec);
    FirstIsHere(ea, Chars(ec), p);
    RenderHeld(0);
    RestoreOne(ea + w + ec, Payload(span));
  }

  lemma EscapeAroundPlaceholder(a: string, c: string)
    ensures Escape(a + Placeholder(0) + c) == Escape(a) + Placeholder(0) + Escape(c)
  {
    var w := Placeholder(0);
    PlaceholderIsPlain(0);
    hide Placeholder, Escape;
    EscapeKeepsPlain(w);
    EscapeAppend(a + w, c);
    EscapeAppend(a, w);
  }

  lemma EscapeBeforeX(a: string)
    ensures Holds(Escape(a) + "X", Placeholder(0)) <==> Holds(a + "X", Placeholder(0))
  {
    hide Escape, Holds;
    EscapeKeepsPlain("X");
    EscapeAppend(a, "X");
    EscapeKeepsHolding(a + "X", 0);
  }

  lemma RenderAround(a: string, ts: Tokens, c: string)
    ensures Render(Chars(a) + ts + Chars(c)) == a + Render(ts) + c
  {
    RenderAppend(Chars(a) + ts, Chars(c));
    RenderAppend(Chars(a), ts);
    RenderChars(a);
    RenderChars(c);
  }

  lemma FirstIsHere(a: string, rest: Tokens, p: Tokens)
    ensures ReplaceFirst(Chars(a) + [Held(0)] + rest, 0, p) == Chars(a) + p + rest
  {
    var ts := Chars(a) + [Held(0)] + rest;
    assert ts[|a|] == Held(0);
    assert IndexOf(ts, 0) == |a|;
    assert ts[..|a|] == Chars(a) && ts[|a| + 1..] == rest;
  }

  lemma RestoreOne(s: string, p: string)
    ensures RestoreSpans(s, [p], 1) == ReplaceString(s, Placeholder(0), p)
  {
    assert RestoreSpans(ReplaceString(s, Placeholder(0), p), [p], 0) == ReplaceString(s, Placeholder(0), p);
  }

  /** What a text ending in a bold letter is parked to. */
  function BoldParked(a: string): Parked { Parked(Chars(a) + [Held(0)] + [], [PayloadTokens(Bold(Chars("b")))]) }

  lemma BoldParks(a: string)
    ensures ParkStep(Parked(Chars(a + "**b**"), []), BoldParked(a))
    ensures Render(BoldParked(a).text) == a + Placeholder(0) && Renders(BoldParked(a).styled) == ["*b*"]
  {
    var span, p, q := Bold(Chars("b")), Parked(Chars(a + "**b**"), []), BoldParked(a);
    BoldIsWritten(a);
    assert ParksSpan(p, q, Chars(a), span, []);
    hide PayloadTokens, Written, Chars, Escape, Placeholder;
    ParkingOnStrings(p, q, Chars(a), span, []);
    assert Renders([]) == [] && Render([]) == "";
    RenderChars(a);
    RenderChars("b");
    EscapeKeepsPlain("b");
    assert Payload(span) == "*" + "b" + "*" == "*b*";
  }

  lemma BoldIsWritten(a: string)
    ensures Chars(a + "**b**") == Chars(a) + Written(Bold(Chars("b"))) + []
  {
  }

  lemma BorrowedX(k: nat)
    ensures ("X" + Core(k)) + Placeholder(k) == Placeholder(k) + Placeholder(k)[1..]
  {
    PlaceholderIsCore(k);
    hide Placeholder, Core;
    var p := Placeholder(k);
    assert p == ("X" + Core(k)) + "X" && p == "X" + p[1..];
  }

  lemma ReplacesAtHead(w: string, rest: string, p: string)
    requires w != ""
    ensures ReplaceString(w + rest, w, p) == p + rest
  {
    assert (w + rest)[..|w|] == w && (w + rest)[|w|..] == rest;
  }

  /**
   A text that breaks: it holds no placeholder's string, but what stands before its bold span borrows the X of the span's
   placeholder. Bold goes to the front, and the rest of the placeholder stays in the message.
   */
  lemma LookalikeBreaks()
    ensures var a := "X" + Core(0);
            && !Holds(a + "**b**", Placeholder(0)) && ParkStep(Parked(Chars(a + "**b**"), []), BoldParked(a))
            && RestoreSpans(Escape(Render(BoldParked(a).text)), Renders(BoldParked(a).styled), 1) == "*b*" + Placeholder(0)[1..]
  {
    BoldParks("X" + Core(0));
    BorrowedX(0);
    NotYetHeld(0);
    RestoreTwice(0);
    hide Placeholder, Escape, Core, Holds, BoldParked, ParkStep;
    RestoreOne(Escape(Placeholder(0) + Placeholder(0)[1..]), "*b*");
  }

  /** Spelled out. */
  lemma LookalikeIsSpelled()
    ensures "X" + Core(0) == "XSTYLEDX0XEND" && Placeholder(0)[1..] == "STYLEDX0XENDX"
  {
    assert Digits(0) == "0";
  }

  lemma RestoreTwice(k: nat)
    ensures var w := Placeholder(k); ReplaceString(Escape(w + w[1..]), w, "*b*") == "*b*" + w[1..]
  {
    PlaceholderIsPlain(k);
    PlaceholderIsCore(k);
    var w := Placeholder(k);
    hide Placeholder, Escape;
    var rest := w[1..];
    assert forall j :: 0 <= j < |rest| ==> rest[j] == w[j + 1];
    EscapeAppend(w, rest);
    EscapeKeepsPlain(w);
    EscapeKeepsPlain(rest);
    ReplacesAtHead(w, rest, "*b*");
  }

  lemma NotYetHeld(k: nat)
    ensures !Holds("X" + Core(k) + "**b**", Placeholder(k))
  {
    var s, w := "X" + Core(k) + "**b**", Placeholder(k);
    var n := |w|;
    PlaceholderIsCore(k);
    assert w[n - 1] == 'X';
    assert s[n - 1..] == "**b**";
    forall j | 0 <= j <= |s| - n ensures !StartsWith(s[j..], w) {
      assert s[j..][..n][n - 1] == s[j + n - 1] == s[n - 1..][j];
    }
  }
}
