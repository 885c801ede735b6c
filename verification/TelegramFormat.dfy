/**
 Telegram MarkdownV2: escaping plain text in two passes.
 */
module TelegramFormat {
  // ---- escaping ----

  predicate IsSpecial(c: char) { c in "_*[]()~>#+-=|{}.!" }

  /** The first pass: every backslash doubled. */
  function DoubleBackslashes(text: string): string {
    if text == "" then "" else (if text[0] == '\\' then "\\\\" else [text[0]]) + DoubleBackslashes(text[1..])
  }

  /** The second: a backslash before every special character. */
  function EscapeSpecials(text: string): string {
    if text == "" then "" else (if IsSpecial(text[0]) then ['\\', text[0]] else [text[0]]) + EscapeSpecials(text[1..])
  }

  /** escapeTelegramText. */
  function Escape(text: string): string { EscapeSpecials(DoubleBackslashes(text)) }

  /** What one character becomes. */
  function EscapeChar(c: char): string { if c == '\\' || IsSpecial(c) then ['\\', c] else [c] }

  function MapEscape(text: string): string {
    if text == "" then "" else EscapeChar(text[0]) + MapEscape(text[1..])
  }

  lemma {:induction false} SpecialsAppend(a: string, b: string)
    ensures EscapeSpecials(a + b) == EscapeSpecials(a) + EscapeSpecials(b)
  {
    if a == "" {
      assert a + b == b;
    } else {
      assert (a + b)[1..] == a[1..] + b;
      SpecialsAppend(a[1..], b);
    }
  }

  /** The two passes are one map over the characters: neither pass touches what the other added. */
  lemma {:induction false} TwoPassesAreOne(text: string)
    ensures Escape(text) == MapEscape(text)
  {
    if text != "" {
      var first := if text[0] == '\\' then "\\\\" else [text[0]];
      SpecialsAppend(first, DoubleBackslashes(text[1..]));
      TwoPassesAreOne(text[1..]);
      assert first[1..] == if text[0] == '\\' then "\\" else "";
      assert EscapeSpecials(first) == EscapeChar(text[0]) by {
        if text[0] == '\\' {
          assert EscapeSpecials("\\") == "\\" + EscapeSpecials("");
          assert "\\\\"[1..] == "\\";
        }
      }
    }
  }

  /** Reading an escaped text: a backslash makes the next character plain. */
  function Unescape(text: string): string {
    if text == "" then ""
    else if text[0] == '\\' && |text| > 1 then [text[1]] + Unescape(text[2..])
    else [text[0]] + Unescape(text[1..])
  }

  lemma {:induction false} UnescapeMap(text: string)
    ensures Unescape(MapEscape(text)) == text
  {
    if text != "" {
      UnescapeMap(text[1..]);
      var e := MapEscape(text);
      if |EscapeChar(text[0])| == 2 {
        assert e[0] == '\\' && e[1] == text[0] && e[2..] == MapEscape(text[1..]);
      } else {
        assert e[0] == text[0] && e[1..] == MapEscape(text[1..]);
      }
      assert [text[0]] + text[1..] == text;
    }
  }

  /** Every input is recovered from its escaped form. */
  lemma EscapeIsInvertible(text: string)
    ensures Unescape(Escape(text)) == text
  {
    TwoPassesAreOne(text);
    UnescapeMap(text);
  }

  /** Read from the left, each special character and each backslash is the second half of an escape. */
  predicate NothingBare(text: string) {
    text == ""
    || (text[0] == '\\' && |text| > 1 && NothingBare(text[2..]))
    || (text[0] != '\\' && !IsSpecial(text[0]) && NothingBare(text[1..]))
  }

  lemma {:induction false} EscapeLeavesNothingBare(text: string)
    ensures NothingBare(Escape(text))
  {
    TwoPassesAreOne(text);
    if text != "" {
      EscapeLeavesNothingBare(text[1..]);
      TwoPassesAreOne(text[1..]);
      var e := MapEscape(text);
      if |EscapeChar(text[0])| == 2 {
        assert e[2..] == MapEscape(text[1..]);
      } else {
        assert e[1..] == MapEscape(text[1..]);
      }
    }
  }

  /** Exactly these characters get a backslash in front. */
  lemma EscapesExactly(c: char)
    ensures Escape([c]) == if c == '\\' || c in "_*[]()~>#+-=|{}.!" then ['\\', c] else [c]
  {
    TwoPassesAreOne([c]);
    assert MapEscape([c]) == EscapeChar(c) + MapEscape("");
  }

  // ---- escaping and concatenation ----

  lemma {:induction false} MapAppend(a: string, b: string)
    ensures MapEscape(a + b) == MapEscape(a) + MapEscape(b)
  {
    if a == "" {
      assert a + b == b;
    } else {
      assert (a + b)[1..] == a[1..] + b;
      MapAppend(a[1..], b);
    }
  }

  lemma EscapeAppend(a: string, b: string)
    ensures Escape(a + b) == Escape(a) + Escape(b)
  {
    TwoPassesAreOne(a + b);
    TwoPassesAreOne(a);
    TwoPassesAreOne(b);
    MapAppend(a, b);
  }

  /** Text without specials and backslashes comes through. */
  lemma {:induction false} EscapeKeepsPlain(text: string)
    requires forall i :: 0 <= i < |text| ==> text[i] != '\\' && !IsSpecial(text[i])
    ensures Escape(text) == text
  {
    TwoPassesAreOne(text);
    if text != "" {
      EscapeKeepsPlain(text[1..]);
      TwoPassesAreOne(text[1..]);
      assert [text[0]] + text[1..] == text;
    }
  }
}
