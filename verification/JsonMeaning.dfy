/**
 What the canonical text means: two JSON values print alike exactly when they are equal up to
 the order of object keys, at every depth.
 */
module JsonMeaning {
  import opened StableJson

  // ---- key order ----

  predicate Less(a: string, b: string) {
    b != "" && (a == "" || a[0] < b[0] || (a[0] == b[0] && Less(a[1..], b[1..])))
  }

  /** A canonical array index, below 2^32 - 1: an object keeps these first, in numeric order. */
  predicate IsIndex(s: string) {
    && s != "" && (forall i :: 0 <= i < |s| ==> '0' <= s[i] <= '9') && (s[0] == '0' ==> |s| == 1)
    && (|s| < 10 || (|s| == 10 && !Less("4294967294", s)))
  }

  predicate KeyLess(a: string, b: string) {
    if IsIndex(a) && IsIndex(b) then |a| < |b| || (|a| == |b| && Less(a, b))
    else if IsIndex(a) || IsIndex(b) then IsIndex(a)
    else Less(a, b)
  }

  lemma {:induction false} LessIsOrder(a: string, b: string, c: string)
    ensures !Less(a, a)
    ensures a == b || Less(a, b) || Less(b, a)
    ensures Less(a, b) && Less(b, c) ==> Less(a, c)
  {
    if a != "" {
      if b != "" {
        LessIsOrder(a[1..], b[1..], if c == "" then "" else c[1..]);
        assert a == [a[0]] + a[1..] && b == [b[0]] + b[1..];
      } else {
        LessIsOrder(a[1..], "", "");
      }
    }
  }

  lemma KeyLessIsOrder(a: string, b: string, c: string)
    ensures !KeyLess(a, a)
    ensures a == b || KeyLess(a, b) || KeyLess(b, a)
    ensures KeyLess(a, b) && KeyLess(b, c) ==> KeyLess(a, c)
  {
    hide Less, IsIndex;
    LessIsOrder(a, b, c);
  }

  // ---- an object whose keys were assigned in sorted order ----

  function InsertSorted(m: Member, sorted: seq<Member>): seq<Member> {
    if sorted == [] then [m]
    else if Less(m.key, sorted[0].key) then [m] + sorted
    else [sorted[0]] + InsertSorted(m, sorted[1..])
  }

  /** Object.keys(v).sort(), each key with its value. */
  function SortKeys(members: seq<Member>): seq<Member> {
    if members == [] then [] else InsertSorted(members[0], SortKeys(members[1..]))
  }

  function InsertIndex(m: Member, obj: seq<Member>): seq<Member> {
    if obj == [] then [m]
    else if KeyLess(m.key, obj[0].key) then [m] + obj
    else [obj[0]] + InsertIndex(m, obj[1..])
  }

  const PROTO := "__proto__"

  /** `obj[k] = v` for a new key: `__proto__` is no own key, an index goes among the indices, any other key last. */
  function Assign(obj: seq<Member>, m: Member): seq<Member> {
    if m.key == PROTO then obj else if IsIndex(m.key) then InsertIndex(m, obj) else obj + [m]
  }

  function AssignAll(members: seq<Member>): seq<Member> {
    if members == [] then [] else Assign(AssignAll(members[..|members| - 1]), members[|members| - 1])
  }

  function Ordered(members: seq<Member>): seq<Member> { AssignAll(SortKeys(members)) }

  predicate InKeyOrder(members: seq<Member>) {
    forall i, j :: 0 <= i < j < |members| ==> KeyLess(members[i].key, members[j].key)
  }

  predicate InLessOrder(members: seq<Member>) {
    forall i, j :: 0 <= i < j < |members| ==> Less(members[i].key, members[j].key)
  }

  lemma {:induction false} InsertSortedKeeps(m: Member, sorted: seq<Member>)
    requires InLessOrder(sorted) && forall x :: x in sorted ==> x.key != m.key
    ensures InLessOrder(InsertSorted(m, sorted))
    ensures forall x :: x in InsertSorted(m, sorted) <==> x == m || x in sorted
  {
    hide Less;
    if sorted == [] {
    } else if Less(m.key, sorted[0].key) {
      forall j | 0 <= j < |sorted| ensures Less(m.key, sorted[j].key) {
        LessIsOrder(m.key, sorted[0].key, sorted[j].key);
      }
    } else {
      var rest := InsertSorted(m, sorted[1..]);
      assert sorted[0] in sorted;
      LessIsOrder(sorted[0].key, m.key, "");
      InsertSortedKeeps(m, sorted[1..]);
      forall j | 0 <= j < |rest| ensures Less(sorted[0].key, rest[j].key) {
        assert rest[j] in rest;
        if rest[j] != m {
          var k :| 0 <= k < |sorted[1..]| && sorted[1..][k] == rest[j];
          assert sorted[1 + k] == rest[j];
        }
      }
      assert sorted == [sorted[0]] + sorted[1..];
    }
  }

  lemma {:induction false} SortKeysSorts(members: seq<Member>)
    requires DistinctKeys(members)
    ensures InLessOrder(SortKeys(members))
    ensures forall x :: x in SortKeys(members) <==> x in members
  {
    if members != [] {
      SortKeysSorts(members[1..]);
      assert members == [members[0]] + members[1..];
      forall x | x in members[1..] ensures x.key != members[0].key {
        var k :| 0 <= k < |members[1..]| && members[1..][k] == x;
        assert members[1 + k] == x;
      }
      InsertSortedKeeps(members[0], SortKeys(members[1..]));
    }
  }

  lemma {:induction false} InsertIndexKeeps(m: Member, obj: seq<Member>)
    requires InKeyOrder(obj) && forall x :: x in obj ==> x.key != m.key
    ensures InKeyOrder(InsertIndex(m, obj))
    ensures forall x :: x in InsertIndex(m, obj) <==> x == m || x in obj
  {
    hide KeyLess;
    if obj == [] {
    } else if KeyLess(m.key, obj[0].key) {
      forall j | 0 <= j < |obj| ensures KeyLess(m.key, obj[j].key) {
        KeyLessIsOrder(m.key, obj[0].key, obj[j].key);
      }
    } else {
      var rest := InsertIndex(m, obj[1..]);
      assert obj[0] in obj;
      KeyLessIsOrder(obj[0].key, m.key, "");
      InsertIndexKeeps(m, obj[1..]);
      forall j | 0 <= j < |rest| ensures KeyLess(obj[0].key, rest[j].key) {
        assert rest[j] in rest;
        if rest[j] != m {
          var k :| 0 <= k < |obj[1..]| && obj[1..][k] == rest[j];
          assert obj[1 + k] == rest[j];
        }
      }
      assert obj == [obj[0]] + obj[1..];
    }
  }

  /** Assigned in sorted order, the keys end up in the object's own order, `__proto__` left out. */
  lemma {:induction false} AssignAllOrders(members: seq<Member>)
    requires InLessOrder(members)
    ensures InKeyOrder(AssignAll(members))
    ensures forall x :: x in AssignAll(members) <==> x in members && x.key != PROTO
  {
    if members != [] {
      var n := |members| - 1;
      var m, obj := members[n], AssignAll(members[..n]);
      AssignAllOrders(members[..n]);
      assert members == members[..n] + [m];
      forall x | x in obj ensures Less(x.key, m.key) {
        var k :| 0 <= k < |members[..n]| && members[..n][k] == x;
        assert members[k] == x;
      }
      AssignKeeps(obj, m);
    }
  }

  lemma AssignKeeps(obj: seq<Member>, m: Member)
    requires InKeyOrder(obj) && forall x :: x in obj ==> Less(x.key, m.key)
    ensures InKeyOrder(Assign(obj, m))
    ensures forall x :: x in Assign(obj, m) <==> x in obj || (x == m && m.key != PROTO)
  {
    hide Less, IsIndex;
    forall x | x in obj ensures x.key != m.key {
      LessIsOrder(x.key, m.key, "");
    }
    if m.key != PROTO && IsIndex(m.key) {
      InsertIndexKeeps(m, obj);
    } else {
      forall j | 0 <= j < |obj| ensures Less(obj[j].key, m.key) {
        assert obj[j] in obj;
      }
    }
  }

  lemma OrderedIs(members: seq<Member>)
    requires DistinctKeys(members)
    ensures InKeyOrder(Ordered(members))
    ensures forall x :: x in Ordered(members) <==> x in members && x.key != PROTO
  {
    SortKeysSorts(members);
    AssignAllOrders(SortKeys(members));
  }

  lemma KeyOrderIsDistinct(members: seq<Member>)
    requires InKeyOrder(members)
    ensures DistinctKeys(members)
  {
    hide KeyLess;
    forall i, j | 0 <= i < j < |members| ensures members[i].key != members[j].key {
      KeyLessIsOrder(members[i].key, members[j].key, "");
    }
  }

  /** A set of members has one ordered listing. */
  lemma {:induction false} OneOrder(a: seq<Member>, b: seq<Member>)
    requires InKeyOrder(a) && InKeyOrder(b) && forall x :: x in a <==> x in b
    ensures a == b
  {
    hide KeyLess;
    assert b != [] ==> b[0] in b;
    if a == [] {
    } else {
      assert a[0] in a;
      assert b != [];
      FirstIsFirst(a, b);
      assert a == [a[0]] + a[1..] && b == [b[0]] + b[1..];
      forall x ensures x in a[1..] <==> x in b[1..] {
        if x in a[1..] { NotFirst(a, x); assert x in a && x in b; }
        if x in b[1..] { NotFirst(b, x); assert x in b && x in a; }
      }
      OneOrder(a[1..], b[1..]);
    }
  }

  lemma NotFirst(a: seq<Member>, x: Member)
    requires InKeyOrder(a) && a != [] && x in a[1..]
    ensures x != a[0]
  {
    hide KeyLess;
    var k :| 0 <= k < |a[1..]| && a[1..][k] == x;
    KeyLessIsOrder(a[0].key, a[0].key, "");
    assert a[1 + k] == x;
  }

  lemma FirstIsFirst(a: seq<Member>, b: seq<Member>)
    requires InKeyOrder(a) && InKeyOrder(b) && a != [] && b != [] && forall x :: x in a <==> x in b
    ensures a[0] == b[0]
  {
    hide KeyLess;
    assert a[0] in b && b[0] in a;
    var i :| 0 <= i < |b| && b[i] == a[0];
    var j :| 0 <= j < |a| && a[j] == b[0];
    KeyLessIsOrder(a[0].key, b[0].key, a[0].key);
  }

  // ---- the canonical value and its text ----

  function Canon(x: Json): Json {
    match x
    case Arr(items) => Arr(CanonItems(items))
    case Obj(members) => Obj(Ordered(CanonMembers(members)))
    case _ => x
  }

  function CanonItems(items: seq<Json>): (r: seq<Json>)
    ensures |r| == |items| && forall i :: 0 <= i < |r| ==> r[i] == Canon(items[i])
  {
    if items == [] then [] else [Canon(items[0])] + CanonItems(items[1..])
  }

  function CanonMembers(members: seq<Member>): (r: seq<Member>)
    ensures |r| == |members| && forall i :: 0 <= i < |r| ==> r[i] == Member(members[i].key, Canon(members[i].value))
  {
    if members == [] then [] else [Member(members[0].key, Canon(members[0].value))] + CanonMembers(members[1..])
  }

  /** stableJson. */
  function Stable(x: Json): string { Render(Canon(x)) }

  // ---- meaning: objects are maps ----

  datatype Value =
    | VNull
    | VBool(b: bool)
    | VNum(token: string)
    | VStr(s: string)
    | VArr(items: seq<Value>)
    | VObj(members: map<string, Value>)

  function Meaning(x: Json): Value {
    match x
    case Null => VNull
    case Bool(b) => VBool(b)
    case Num(token) => VNum(token)
    case Str(s) => VStr(s)
    case Arr(items) => VArr(ItemsMeaning(items))
    case Obj(members) => VObj(MembersMeaning(members))
  }

  function ItemsMeaning(items: seq<Json>): (r: seq<Value>)
    ensures |r| == |items| && forall i :: 0 <= i < |r| ==> r[i] == Meaning(items[i])
  {
    if items == [] then [] else [Meaning(items[0])] + ItemsMeaning(items[1..])
  }

  /** The map an object is, without the one key that cannot be an own property of the sorted copy. */
  function MembersMeaning(members: seq<Member>): map<string, Value> {
    if members == [] then map[]
    else
      var rest := MembersMeaning(members[1..]);
      if members[0].key == PROTO then rest else rest[members[0].key := Meaning(members[0].value)]
  }

  lemma {:induction false} MeaningAt(members: seq<Member>, i: nat)
    requires DistinctKeys(members) && i < |members| && members[i].key != PROTO
    ensures members[i].key in MembersMeaning(members)
    ensures MembersMeaning(members)[members[i].key] == Meaning(members[i].value)
  {
    hide Meaning;
    if i > 0 {
      MeaningAt(members[1..], i - 1);
      assert members[0].key != members[i].key;
    }
  }

  lemma {:induction false} MeaningFrom(members: seq<Member>, k: string) returns (i: nat)
    requires k in MembersMeaning(members)
    ensures i < |members| && members[i].key == k != PROTO
  {
    hide Meaning;
    if members[0].key == k && k != PROTO {
      i := 0;
    } else {
      var j := MeaningFrom(members[1..], k);
      i := j + 1;
    }
  }

  // ---- canonical form keeps the meaning ----

  lemma {:induction false} CanonIsValid(x: Json)
    requires Valid(x)
    ensures Valid(Canon(x))
  {
    match x
    case Arr(items) =>
      forall i | 0 <= i < |items| ensures Valid(Canon(items[i])) { CanonIsValid(items[i]); }
    case Obj(members) =>
      var canon, ordered := CanonMembers(members), Ordered(CanonMembers(members));
      OrderedIs(canon);
      KeyOrderIsDistinct(ordered);
      forall i | 0 <= i < |ordered| ensures Valid(ordered[i].value) {
        assert ordered[i] in ordered;
        var k :| 0 <= k < |canon| && canon[k] == ordered[i];
        CanonIsValid(members[k].value);
      }
    case _ =>
  }

  lemma {:induction false} CanonKeepsMeaning(x: Json)
    requires Valid(x)
    ensures Meaning(Canon(x)) == Meaning(x)
    decreases x, 1
  {
    match x
    case Arr(items) =>
      forall i | 0 <= i < |items| ensures Meaning(Canon(items[i])) == Meaning(items[i]) { CanonKeepsMeaning(items[i]); }
    case Obj(members) => ObjKeepsMeaning(x);
    case _ =>
  }

  lemma {:induction false} ObjKeepsMeaning(x: Json)
    requires Valid(x) && x.Obj?
    ensures Meaning(Canon(x)) == Meaning(x)
    decreases x, 0
  {
    hide Ordered;
    var members := x.members;
    var canon, ordered := CanonMembers(members), Ordered(CanonMembers(members));
    OrderedIs(canon);
    KeyOrderIsDistinct(ordered);
    var before, after := MembersMeaning(members), MembersMeaning(ordered);
    forall k | k in after ensures k in before && before[k] == after[k] {
      var i := MeaningFrom(ordered, k);
      assert ordered[i] in ordered;
      var j :| 0 <= j < |canon| && canon[j] == ordered[i];
      MeaningAt(ordered, i);
      MeaningAt(members, j);
      CanonKeepsMeaning(members[j].value);
    }
    forall k | k in before ensures k in after {
      var j := MeaningFrom(members, k);
      assert canon[j] in canon;
      var i :| 0 <= i < |ordered| && ordered[i] == canon[j];
      MeaningAt(ordered, i);
    }
    assert after == before;
  }

  /** A value's canonical form depends on its meaning alone. */
  lemma {:induction false} MeaningFixesCanon(x: Json, y: Json)
    requires Valid(x) && Valid(y) && Meaning(x) == Meaning(y)
    ensures Canon(x) == Canon(y)
    decreases x, 1
  {
    match x
    case Arr(items) =>
      assert |items| == |ItemsMeaning(items)| == |ItemsMeaning(y.items)| == |y.items|;
      forall i | 0 <= i < |items| ensures Canon(items[i]) == Canon(y.items[i]) {
        assert ItemsMeaning(items)[i] == ItemsMeaning(y.items)[i];
        MeaningFixesCanon(items[i], y.items[i]);
      }
      assert CanonItems(items) == CanonItems(y.items);
    case Obj(members) =>
      OrderedIs(CanonMembers(members));
      OrderedIs(CanonMembers(y.members));
      forall m ensures m in Ordered(CanonMembers(members)) <==> m in Ordered(CanonMembers(y.members)) {
        if m in CanonMembers(members) && m.key != PROTO { SameMember(x, y, m); }
        if m in CanonMembers(y.members) && m.key != PROTO { SameMemberBack(x, y, m); }
      }
      OneOrder(Ordered(CanonMembers(members)), Ordered(CanonMembers(y.members)));
    case _ =>
  }

  lemma {:induction false} SameMember(x: Json, y: Json, m: Member)
    requires Valid(x) && Valid(y) && Meaning(x) == Meaning(y) && x.Obj? && y.Obj?
    requires m in CanonMembers(x.members) && m.key != PROTO
    ensures m in CanonMembers(y.members)
    decreases x, 0
  {
    var i :| 0 <= i < |x.members| && CanonMembers(x.members)[i] == m;
    MeaningAt(x.members, i);
    var j := MeaningFrom(y.members, m.key);
    MeaningAt(y.members, j);
    MeaningFixesCanon(x.members[i].value, y.members[j].value);
    assert CanonMembers(y.members)[j] == m;
  }

  lemma {:induction false} SameMemberBack(x: Json, y: Json, m: Member)
    requires Valid(x) && Valid(y) && Meaning(x) == Meaning(y) && x.Obj? && y.Obj?
    requires m in CanonMembers(y.members) && m.key != PROTO
    ensures m in CanonMembers(x.members)
    decreases x, 0
  {
    var j :| 0 <= j < |y.members| && CanonMembers(y.members)[j] == m;
    MeaningAt(y.members, j);
    var i := MeaningFrom(x.members, m.key);
    MeaningAt(x.members, i);
    MeaningFixesCanon(x.members[i].value, y.members[j].value);
    assert CanonMembers(x.members)[i] == m;
  }

  /** Two JSON values have one stable text exactly when they are equal up to key order at every depth. */
  lemma SameTextIffSameMeaning(x: Json, y: Json)
    requires Valid(x) && Valid(y)
    ensures Stable(x) == Stable(y) <==> Meaning(x) == Meaning(y)
  {
    hide Canon, Meaning;
    CanonIsValid(x);
    CanonIsValid(y);
    if Stable(x) == Stable(y) {
      assert Render(Canon(x)) + "" == Render(Canon(y)) + "";
      RenderUnambiguous(Canon(x), Canon(y), "", "");
      CanonKeepsMeaning(x);
      CanonKeepsMeaning(y);
    }
    if Meaning(x) == Meaning(y) {
      MeaningFixesCanon(x, y);
    }
  }

  /** The one own key the sorted copy loses: an object that has it prints like one that does not. */
  lemma ProtoKeyIsLost(value: Json)
    requires Valid(value)
    ensures Stable(Obj([Member(PROTO, value)])) == Stable(Obj([]))
  {
    var x, y := Obj([Member(PROTO, value)]), Obj([]);
    assert x.members[1..] == [];
    SameTextIffSameMeaning(x, y);
  }
}
