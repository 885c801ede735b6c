/**
 The canonical text of a JSON value: what JSON.stringify prints once every object's keys have
 been put in order. JSON texts are those of RFC 8259, sections 4 and 7.
 */
module StableJson {

  /** A number is its printed token. An object lists its own members in insertion order. */
  datatype Json =
    | Null
    | Bool(b: bool)
    | Num(token: string)
    | Str(s: string)
    | Arr(items: seq<Json>)
    | Obj(members: seq<Member>)

  datatype Member = Member(key: string, value: Json)

  predicate IsTokenChar(c: char) { '0' <= c <= '9' || c in "+-.eE" }

  /** Numbers print as a token, and an object has each key once. */
  predicate Valid(x: Json) {
    match x
    case Num(token) => token != "" && forall i :: 0 <= i < |token| ==> IsTokenChar(token[i])
    case Arr(items) => forall i :: 0 <= i < |items| ==> Valid(items[i])
    case Obj(members) =>
      && (forall i :: 0 <= i < |members| ==> Valid(members[i].value))
      && DistinctKeys(members)
    case _ => true
  }

  predicate DistinctKeys(members: seq<Member>) {
    forall i, j :: 0 <= i < j < |members| ==> members[i].key != members[j].key
  }

  // ---- printing ----

  function HexDigit(n: nat): char
    requires n < 16
  {
    "0123456789abcdef"[n]
  }

  function EscapeChar(c: char): string {
    if c == '"' then "\\\""
    else if c == '\\' then "\\\\"
    else if c as int == 8 then "\\b"
    else if c as int == 12 then "\\f"
    else if c == '\n' then "\\n"
    else if c == '\r' then "\\r"
    else if c == '\t' then "\\t"
    else if c as int < 32 then "\\u00" + [HexDigit(c as int / 16), HexDigit(c as int % 16)]
    else [c]
  }

  function Escape(s: string): string {
    if s == "" then "" else EscapeChar(s[0]) + Escape(s[1..])
  }

  function Quote(s: string): string { "\"" + Escape(s) + "\"" }

  /** JSON.stringify of a value as its members stand. */
  function Render(x: Json): string {
    match x
    case Null => "null"
    case Bool(b) => if b then "true" else "false"
    case Num(token) => token
    case Str(s) => Quote(s)
    case Arr(items) => "[" + RenderItems(items) + "]"
    case Obj(members) => "{" + RenderMembers(members) + "}"
  }

  function RenderItems(items: seq<Json>): string {
    if items == [] then ""
    else Render(items[0]) + (if |items| == 1 then "" else "," + RenderItems(items[1..]))
  }

  function RenderMembers(members: seq<Member>): string {
    if members == [] then ""
    else Quote(members[0].key) + ":" + Render(members[0].value)
           + (if |members| == 1 then "" else "," + RenderMembers(members[1..]))
  }

  // ---- printing is unambiguous ----

  /** No character's escape is the beginning of another's. */
  lemma EscapesApart(c: char, d: char)
    requires |EscapeChar(c)| <= |EscapeChar(d)| && EscapeChar(d)[..|EscapeChar(c)|] == EscapeChar(c)
    ensures c == d
  {
    var x, y := EscapeChar(c), EscapeChar(d);
    assert x[0] == y[0];
    if |x| > 1 {
      assert x[1] == y[1];
      if |x| == 6 { assert x[4] == y[4] && x[5] == y[5]; }
    }
  }

  /** So the escape of a character is recognised at the front of a text. */
  lemma EscapesDiffer(c: char, d: char, r: string, q: string)
    requires EscapeChar(c) + r == EscapeChar(d) + q
    ensures c == d
  {
    hide EscapeChar;
    var x, y := EscapeChar(c), EscapeChar(d);
    if |x| <= |y| {
      assert (x + r)[..|x|] == x && (y + q)[..|x|] == y[..|x|];
      EscapesApart(c, d);
    } else {
      assert (y + q)[..|y|] == y && (x + r)[..|y|] == x[..|y|];
      EscapesApart(d, c);
    }
  }

  lemma NoBareQuote(c: char)
    ensures EscapeChar(c) != "" && EscapeChar(c)[0] != '"'
  {
  }

  /** A quoted string ends at its own closing quote. */
  lemma {:induction false} EscapeUnambiguous(s: string, t: string, r: string, q: string)
    requires Escape(s) + "\"" + r == Escape(t) + "\"" + q
    ensures s == t && r == q
  {
    hide EscapeChar;
    var x, y := Escape(s) + "\"" + r, Escape(t) + "\"" + q;
    if s != "" { NoBareQuote(s[0]); }
    if t != "" { NoBareQuote(t[0]); }
    assert s != "" ==> x[0] == EscapeChar(s[0])[0];
    assert t != "" ==> y[0] == EscapeChar(t[0])[0];
    if s == "" && t == "" {
      assert x[1..] == r && y[1..] == q;
    } else if s != "" && t != "" {
      EscapeStep(s, r);
      EscapeStep(t, q);
      EscapesDiffer(s[0], t[0], Escape(s[1..]) + "\"" + r, Escape(t[1..]) + "\"" + q);
      assert x[|EscapeChar(s[0])|..] == Escape(s[1..]) + "\"" + r;
      assert y[|EscapeChar(t[0])|..] == Escape(t[1..]) + "\"" + q;
      EscapeUnambiguous(s[1..], t[1..], r, q);
      assert s == [s[0]] + s[1..] && t == [t[0]] + t[1..];
    }
  }

  lemma EscapeStep(s: string, r: string)
    requires s != ""
    ensures Escape(s) + "\"" + r == EscapeChar(s[0]) + (Escape(s[1..]) + "\"" + r)
  {
    hide EscapeChar;
    assert Escape(s) == EscapeChar(s[0]) + Escape(s[1..]);
  }

  lemma QuoteUnambiguous(s: string, t: string, r: string, q: string)
    requires Quote(s) + r == Quote(t) + q
    ensures s == t && r == q
  {
    hide Escape;
    assert (Quote(s) + r)[1..] == Escape(s) + "\"" + r;
    assert (Quote(t) + q)[1..] == Escape(t) + "\"" + q;
    EscapeUnambiguous(s, t, r, q);
  }

  /** What may follow a value inside a text: nothing, or punctuation that ends it. */
  predicate Ends(r: string) { r == "" || r[0] in ",]}" }

  lemma TokenUnambiguous(a: string, b: string, r: string, q: string)
    requires forall i :: 0 <= i < |a| ==> IsTokenChar(a[i])
    requires forall i :: 0 <= i < |b| ==> IsTokenChar(b[i])
    requires a + r == b + q && Ends(r) && Ends(q)
    ensures a == b && r == q
  {
    assert forall k :: 0 <= k < |b| ==> (b + q)[k] == b[k] && IsTokenChar((b + q)[k]);
    assert forall k :: 0 <= k < |a| ==> (a + r)[k] == a[k] && IsTokenChar((a + r)[k]);
    assert r != "" ==> (a + r)[|a|] == r[0] && !IsTokenChar((a + r)[|a|]);
    assert q != "" ==> (b + q)[|b|] == q[0] && !IsTokenChar((b + q)[|b|]);
    if |a| == |b| {
      Cut(a, r);
      Cut(b, q);
      assert (a + r)[..|a|] == a && (b + q)[..|b|] == b;
    }
  }

  lemma Cut(a: string, r: string)
    ensures (a + r)[|a|..] == r
  {
  }

  /** The first character of a value's text, which also tells its kind. */
  function Lead(x: Json): (c: char)
    requires Valid(x)
    ensures Render(x) != "" && Render(x)[0] == c
    ensures c !in ",]}:"
  {
    match x
    case Null => 'n'
    case Bool(b) => if b then 't' else 'f'
    case Num(token) => token[0]
    case Str(_) => '"'
    case Arr(_) => '['
    case Obj(_) => '{'
  }

  lemma SameKind(x: Json, y: Json)
    requires Valid(x) && Valid(y) && Lead(x) == Lead(y)
    ensures x.Null? == y.Null? && x.Bool? == y.Bool? && x.Num? == y.Num? && x.Str? == y.Str? && x.Arr? == y.Arr? && x.Obj? == y.Obj?
    ensures x.Bool? && y.Bool? ==> x.b == y.b
  {
  }

  /** Two texts that agree up to an end hold the same value, member order included, and end together. */
  lemma {:induction false} RenderUnambiguous(x: Json, y: Json, r: string, q: string)
    requires Valid(x) && Valid(y) && Ends(r) && Ends(q)
    requires Render(x) + r == Render(y) + q
    ensures x == y && r == q
    decreases x, 1
  {
    hide Valid, Render;
    var _, _ := Lead(x), Lead(y);
    assert (Render(x) + r)[0] == Lead(x) && (Render(y) + q)[0] == Lead(y);
    SameKind(x, y);
    match x
    case Null => ConstantUnambiguous(x, y, r, q);
    case Bool(_) => ConstantUnambiguous(x, y, r, q);
    case Num(_) => ScalarUnambiguous(x, y, r, q);
    case Str(_) => ScalarUnambiguous(x, y, r, q);
    case Arr(_) => ArrUnambiguous(x, y, r, q);
    case Obj(_) => ObjUnambiguous(x, y, r, q);
  }

  lemma ConstantUnambiguous(x: Json, y: Json, r: string, q: string)
    requires x == y && Render(x) + r == Render(y) + q
    ensures r == q
  {
    hide Render;
    Cut(Render(x), r);
    Cut(Render(y), q);
  }

  lemma ScalarUnambiguous(x: Json, y: Json, r: string, q: string)
    requires Valid(x) && Valid(y) && Ends(r) && Ends(q)
    requires (x.Num? && y.Num?) || (x.Str? && y.Str?)
    requires Render(x) + r == Render(y) + q
    ensures x == y && r == q
  {
    hide Quote, Ends;
    if x.Num? { TokenUnambiguous(x.token, y.token, r, q); } else { QuoteUnambiguous(x.s, y.s, r, q); }
  }

  lemma {:induction false} ArrUnambiguous(x: Json, y: Json, r: string, q: string)
    requires Valid(x) && Valid(y) && x.Arr? && y.Arr?
    requires Render(x) + r == Render(y) + q
    ensures x == y && r == q
    decreases x, 0
  {
    hide RenderItems;
    var a, b := RenderItems(x.items), RenderItems(y.items);
    assert Render(x) + r == "[" + (a + ("]" + r)) && Render(y) + q == "[" + (b + ("]" + q));
    Cut("[", a + ("]" + r));
    Cut("[", b + ("]" + q));
    ItemsUnambiguous(x.items, y.items, "]" + r, "]" + q);
    Cut("]", r);
    Cut("]", q);
  }

  lemma {:induction false} ObjUnambiguous(x: Json, y: Json, r: string, q: string)
    requires Valid(x) && Valid(y) && x.Obj? && y.Obj?
    requires Render(x) + r == Render(y) + q
    ensures x == y && r == q
    decreases x, 0
  {
    hide RenderMembers;
    var a, b := RenderMembers(x.members), RenderMembers(y.members);
    assert Render(x) + r == "{" + (a + ("}" + r)) && Render(y) + q == "{" + (b + ("}" + q));
    Cut("{", a + ("}" + r));
    Cut("{", b + ("}" + q));
    MembersUnambiguous(x.members, y.members, "}" + r, "}" + q);
    Cut("}", r);
    Cut("}", q);
  }

  function Tail(items: seq<Json>): string {
    if |items| <= 1 then "" else "," + RenderItems(items[1..])
  }

  lemma ItemsHead(items: seq<Json>, r: string)
    requires items != [] && Valid(items[0])
    ensures RenderItems(items) + r == Render(items[0]) + (Tail(items) + r)
    ensures (RenderItems(items) + r)[0] == Lead(items[0])
  {
    hide Render, Valid;
    var _ := Lead(items[0]);
    var v, t := Render(items[0]), Tail(items);
    assert RenderItems(items) == v + t;
    assert v + t + r == v + (t + r);
  }

  /** The text after a list's first element: the rest of the list, or its end. */
  lemma TailCut(items: seq<Json>, r: string)
    requires r != "" && r[0] == ']'
    ensures Ends(Tail(items) + r)
    ensures |items| > 1 ==> (Tail(items) + r)[0] == ',' && (Tail(items) + r)[1..] == RenderItems(items[1..]) + r
    ensures |items| <= 1 ==> Tail(items) + r == r
  {
    hide RenderItems;
    if |items| > 1 { assert Tail(items) + r == "," + (RenderItems(items[1..]) + r); }
  }

  lemma {:induction false} ItemsUnambiguous(a: seq<Json>, b: seq<Json>, r: string, q: string)
    requires (forall i :: 0 <= i < |a| ==> Valid(a[i])) && (forall i :: 0 <= i < |b| ==> Valid(b[i]))
    requires r != "" && r[0] == ']' && q != "" && q[0] == ']'
    requires RenderItems(a) + r == RenderItems(b) + q
    ensures a == b && r == q
    decreases a, 0
  {
    hide Valid, Render, Ends, Tail;
    if a != [] { ItemsHead(a, r); TailCut(a, r); } else { assert RenderItems(a) + r == r; }
    if b != [] { ItemsHead(b, q); TailCut(b, q); } else { assert RenderItems(b) + q == q; }
    if a != [] && b != [] {
      RenderUnambiguous(a[0], b[0], Tail(a) + r, Tail(b) + q);
      assert a == [a[0]] + a[1..] && b == [b[0]] + b[1..];
      if |a| > 1 && |b| > 1 { ItemsUnambiguous(a[1..], b[1..], r, q); }
    }
  }

  function MemberTail(members: seq<Member>): string {
    if |members| <= 1 then "" else "," + RenderMembers(members[1..])
  }

  lemma MembersHead(members: seq<Member>, r: string)
    requires members != []
    ensures RenderMembers(members) + r
            == Quote(members[0].key) + (":" + (Render(members[0].value) + (MemberTail(members) + r)))
    ensures (RenderMembers(members) + r)[0] == '"'
  {
    hide Render, Escape;
    var k, v, t := Quote(members[0].key), Render(members[0].value), MemberTail(members);
    assert RenderMembers(members) == k + ":" + v + t;
    Regroup(k, v, t, r);
    assert k[0] == '"';
  }

  lemma Regroup(k: string, v: string, t: string, r: string)
    ensures k + ":" + v + t + r == k + (":" + (v + (t + r)))
  {
  }

  lemma MemberTailCut(members: seq<Member>, r: string)
    requires r != "" && r[0] == '}'
    ensures Ends(MemberTail(members) + r)
    ensures |members| > 1 ==> (MemberTail(members) + r)[0] == ',' && (MemberTail(members) + r)[1..] == RenderMembers(members[1..]) + r
    ensures |members| <= 1 ==> MemberTail(members) + r == r
  {
    hide RenderMembers;
    if |members| > 1 { assert MemberTail(members) + r == "," + (RenderMembers(members[1..]) + r); }
  }

  lemma {:induction false} MembersUnambiguous(a: seq<Member>, b: seq<Member>, r: string, q: string)
    requires (forall i :: 0 <= i < |a| ==> Valid(a[i].value)) && (forall i :: 0 <= i < |b| ==> Valid(b[i].value))
    requires r != "" && r[0] == '}' && q != "" && q[0] == '}'
    requires RenderMembers(a) + r == RenderMembers(b) + q
    ensures a == b && r == q
    decreases a, 0
  {
    hide Valid, Render, Ends, MemberTail, Quote;
    if a != [] { MembersHead(a, r); MemberTailCut(a, r); } else { assert RenderMembers(a) + r == r; }
    if b != [] { MembersHead(b, q); MemberTailCut(b, q); } else { assert RenderMembers(b) + q == q; }
    if a != [] && b != [] {
      var x, y := Render(a[0].value) + (MemberTail(a) + r), Render(b[0].value) + (MemberTail(b) + q);
      QuoteUnambiguous(a[0].key, b[0].key, ":" + x, ":" + y);
      Cut(":", x);
      Cut(":", y);
      RenderUnambiguous(a[0].value, b[0].value, MemberTail(a) + r, MemberTail(b) + q);
      assert a == [a[0]] + a[1..] && b == [b[0]] + b[1..];
      if |a| > 1 && |b| > 1 { MembersUnambiguous(a[1..], b[1..], r, q); }
    }
  }
}
