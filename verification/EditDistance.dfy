/**
 Two-row Levenshtein with an early bail, against the least cost of an edit script.
 A script is a list of edits read left to right; running it consumes the whole of one
 string and produces another.
 */
module EditDistance {
  import opened Wrappers

  datatype Edit<T> = Keep | Insert(c: T) | Delete | Substitute(c: T)

  type Script<T> = seq<Edit<T>>

  /** Run a script on `a`, or None when it asks for characters `a` does not have or leaves some over. */
  function Apply<T>(script: Script<T>, a: seq<T>): Option<seq<T>>
    decreases |script|
  {
    if script == [] then (if a == [] then Some([]) else None)
    else
      match script[0]
      case Keep => if a == [] then None else Prepend(a[0], Apply(script[1..], a[1..]))
      case Substitute(c) => if a == [] then None else Prepend(c, Apply(script[1..], a[1..]))
      case Delete => if a == [] then None else Apply(script[1..], a[1..])
      case Insert(c) => Prepend(c, Apply(script[1..], a))
  }

  function Prepend<T>(c: T, rest: Option<seq<T>>): Option<seq<T>> {
    match rest
    case Some(s) => Some([c] + s)
    case None => None
  }

  function Cost<T>(script: Script<T>): nat {
    if script == [] then 0 else (if script[0].Keep? then 0 else 1) + Cost(script[1..])
  }

  /** The recurrence the table is filled by, over prefixes. */
  function Distance<T(==)>(a: seq<T>, b: seq<T>): nat
    decreases |a| + |b|
  {
    if a == [] then |b|
    else if b == [] then |a|
    else
      var a', b' := a[..|a| - 1], b[..|b| - 1];
      Min(Min(Distance(a', b) + 1, Distance(a, b') + 1),
          Distance(a', b') + if a[|a| - 1] == b[|b| - 1] then 0 else 1)
  }

  // ---- scripts, read from their last edit ----

  lemma {:induction false} ApplyAppend<T>(s: Script<T>, t: Script<T>, a: seq<T>, b: seq<T>)
    requires Apply(s, a).Some? && Apply(t, b).Some?
    ensures Apply(s + t, a + b) == Some(Apply(s, a).value + Apply(t, b).value)
    ensures Cost(s + t) == Cost(s) + Cost(t)
    decreases |s|
  {
    if s == [] {
      assert s + t == t && a + b == b;
      assert [] + Apply(t, b).value == Apply(t, b).value;
    } else {
      assert (s + t)[0] == s[0] && (s + t)[1..] == s[1..] + t;
      if s[0].Insert? {
        ApplyAppend(s[1..], t, a, b);
        assert Apply(s, a).value + Apply(t, b).value == [s[0].c] + (Apply(s[1..], a).value + Apply(t, b).value);
      } else {
        ApplyAppend(s[1..], t, a[1..], b);
        assert (a + b)[0] == a[0] && (a + b)[1..] == a[1..] + b;
        if !s[0].Delete? {
          var c := if s[0].Keep? then a[0] else s[0].c;
          assert Apply(s, a).value + Apply(t, b).value == [c] + (Apply(s[1..], a[1..]).value + Apply(t, b).value);
        }
      }
    }
  }

  /** What a script's last edit consumed and produced. */
  predicate Consumes<T>(e: Edit<T>) { !e.Insert? }

  predicate Produces<T>(e: Edit<T>) { !e.Delete? }

  /** Without its last edit the script works on what the edit did not touch, and costs that much less. */
  ghost predicate EndsWell<T>(s: Script<T>, a: seq<T>)
    requires s != [] && Apply(s, a).Some?
  {
    var e, b := s[|s| - 1], Apply(s, a).value;
    && (Consumes(e) ==> a != []) && (Produces(e) ==> b != [])
    && Apply(s[..|s| - 1], if Consumes(e) then a[..|a| - 1] else a) == Some(if Produces(e) then b[..|b| - 1] else b)
    && (e.Keep? ==> a[|a| - 1] == b[|b| - 1])
    && Cost(s) == Cost(s[..|s| - 1]) + if e.Keep? then 0 else 1
  }

  lemma {:induction false} ApplyLast<T>(s: Script<T>, a: seq<T>)
    requires s != [] && Apply(s, a).Some?
    ensures EndsWell(s, a)
    decreases |s|
  {
    hide EndsWell;
    if |s| == 1 {
      OneEdit(s, a);
    } else if s[0].Insert? {
      ApplyLast(s[1..], a);
      AfterInsert(s, a);
    } else if s[0].Delete? {
      ApplyLast(s[1..], a[1..]);
      AfterDelete(s, a);
    } else {
      ApplyLast(s[1..], a[1..]);
      AfterKept(s, a);
    }
  }

  lemma OneEdit<T>(s: Script<T>, a: seq<T>)
    requires |s| == 1 && Apply(s, a).Some?
    ensures EndsWell(s, a)
  {
    assert s[..0] == [] && s[1..] == [];
  }

  lemma AfterInsert<T>(s: Script<T>, a: seq<T>)
    requires |s| > 1 && s[0].Insert? && Apply(s, a).Some? && EndsWell(s[1..], a)
    ensures EndsWell(s, a)
  {
    var rest, front := s[1..], s[..|s| - 1];
    var b, b' := Apply(s, a).value, Apply(rest, a).value;
    assert front[0] == s[0] && front[1..] == rest[..|rest| - 1];
    assert b == [s[0].c] + b';
    if Produces(s[|s| - 1]) { assert b[..|b| - 1] == [s[0].c] + b'[..|b'| - 1]; }
  }

  lemma AfterDelete<T>(s: Script<T>, a: seq<T>)
    requires |s| > 1 && s[0].Delete? && Apply(s, a).Some? && EndsWell(s[1..], a[1..])
    ensures EndsWell(s, a)
  {
    var rest, front := s[1..], s[..|s| - 1];
    assert front[0] == s[0] && front[1..] == rest[..|rest| - 1];
    if Consumes(s[|s| - 1]) { assert a[..|a| - 1][1..] == a[1..][..|a| - 2]; }
  }

  lemma AfterKept<T>(s: Script<T>, a: seq<T>)
    requires |s| > 1 && !s[0].Insert? && !s[0].Delete? && Apply(s, a).Some? && EndsWell(s[1..], a[1..])
    ensures EndsWell(s, a)
  {
    var rest, front := s[1..], s[..|s| - 1];
    var b, b' := Apply(s, a).value, Apply(rest, a[1..]).value;
    var c := if s[0].Keep? then a[0] else s[0].c;
    assert front[0] == s[0] && front[1..] == rest[..|rest| - 1];
    assert b == [c] + b';
    if Consumes(s[|s| - 1]) { assert a[..|a| - 1][1..] == a[1..][..|a| - 2] && a[..|a| - 1][0] == a[0]; }
    if Produces(s[|s| - 1]) { assert b[..|b| - 1] == [c] + b'[..|b'| - 1]; }
  }

  /** No script from a to b is cheaper than the distance. */
  lemma {:induction false} DistanceIsLowerBound<T>(s: Script<T>, a: seq<T>, b: seq<T>)
    requires Apply(s, a) == Some(b)
    ensures Distance(a, b) <= Cost(s)
    decreases |s|
  {
    if s != [] {
      ApplyLast(s, a);
      var e := s[|s| - 1];
      var a' := if Consumes(e) then a[..|a| - 1] else a;
      var b' := if Produces(e) then b[..|b| - 1] else b;
      DistanceIsLowerBound(s[..|s| - 1], a', b');
      if a != [] && b != [] {
      } else if a != [] {
        assert a'[..] == a[..|a| - 1];
      }
    }
  }

  function Repeat<T>(e: Edit<T>, n: nat): Script<T> { seq(n, _ => e) }

  function Inserts<T>(b: seq<T>): Script<T> { seq(|b|, i requires 0 <= i < |b| => Insert(b[i])) }

  lemma {:induction false} InsertsWork<T>(b: seq<T>)
    ensures Apply(Inserts(b), []) == Some(b) && Cost(Inserts(b)) == |b|
  {
    if b != [] {
      InsertsWork(b[1..]);
      assert Inserts(b)[1..] == Inserts(b[1..]);
      assert [b[0]] + b[1..] == b;
    }
  }

  lemma {:induction false} DeletesWork<T>(a: seq<T>)
    ensures Apply(Repeat<T>(Delete, |a|), a) == Some([]) && Cost(Repeat<T>(Delete, |a|)) == |a|
  {
    if a != [] {
      DeletesWork(a[1..]);
      assert Repeat<T>(Delete, |a|)[1..] == Repeat<T>(Delete, |a[1..]|);
    }
  }

  /** One more edit at the end of a script. */
  lemma OneMoreEdit<T>(s: Script<T>, e: Edit<T>, a: seq<T>, x: seq<T>, b: seq<T>, y: seq<T>)
    requires Apply(s, a) == Some(b) && Apply([e], x) == Some(y)
    ensures Apply(s + [e], a + x) == Some(b + y) && Cost(s + [e]) == Cost(s) + if e.Keep? then 0 else 1
  {
    ApplyAppend(s, [e], a, x);
    assert [e][1..] == [];
  }

  /** Some script from a to b costs exactly the distance. */
  lemma {:induction false} DistanceIsReached<T>(a: seq<T>, b: seq<T>) returns (s: Script<T>)
    ensures Apply(s, a) == Some(b) && Cost(s) == Distance(a, b)
    decreases |a| + |b|
  {
    if a == [] {
      InsertsWork(b);
      s := Inserts(b);
    } else if b == [] {
      DeletesWork(a);
      s := Repeat(Delete, |a|);
    } else {
      var a', b', x, y := a[..|a| - 1], b[..|b| - 1], a[|a| - 1], b[|b| - 1];
      assert a == a' + [x] && b == b' + [y] && a == a + [] && b == b + [];
      assert [x][1..] == [] && [Insert(y)][1..] == [];
      if Distance(a, b) == Distance(a', b) + 1 {
        var t := DistanceIsReached(a', b);
        s := t + [Delete];
        OneMoreEdit(t, Delete, a', [x], b, []);
      } else if Distance(a, b) == Distance(a, b') + 1 {
        var t := DistanceIsReached(a, b');
        s := t + [Insert(y)];
        assert [y] + [] == [y];
        OneMoreEdit(t, Insert(y), a, [], b', [y]);
      } else {
        var t := DistanceIsReached(a', b');
        var e := if x == y then Keep else Substitute(y);
        s := t + [e];
        OneMoreEdit(t, e, a', [x], b', [y]);
      }
    }
  }

  /** `d` is the least number of insertions, deletions and substitutions that turn a into b. */
  ghost predicate IsEditDistance<T(!new)>(a: seq<T>, b: seq<T>, d: int) {
    && (exists s: Script<T> :: Apply(s, a) == Some(b) && Cost(s) == d)
    && (forall s: Script<T> :: Apply(s, a) == Some(b) ==> d <= Cost(s))
  }

  lemma DistanceIsOptimal<T(!new)>(a: seq<T>, b: seq<T>)
    ensures IsEditDistance(a, b, Distance(a, b))
  {
    var best := DistanceIsReached(a, b);
    assert Apply(best, a) == Some(b) && Cost(best) == Distance(a, b);
    forall s: Script<T> | Apply(s, a) == Some(b)
      ensures Distance(a, b) <= Cost(s)
    {
      DistanceIsLowerBound(s, a, b);
    }
  }

  // ---- a metric ----

  lemma {:induction false} DistanceIsSymmetric<T>(a: seq<T>, b: seq<T>)
    ensures Distance(a, b) == Distance(b, a)
    decreases |a| + |b|
  {
    if a != [] && b != [] {
      DistanceIsSymmetric(a[..|a| - 1], b);
      DistanceIsSymmetric(a, b[..|b| - 1]);
      DistanceIsSymmetric(a[..|a| - 1], b[..|b| - 1]);
    }
  }

  lemma {:induction false} ZeroOnlyOnEqual<T>(a: seq<T>, b: seq<T>)
    ensures Distance(a, b) == 0 <==> a == b
    decreases |a| + |b|
  {
    if a != [] && b != [] {
      var a', b' := a[..|a| - 1], b[..|b| - 1];
      ZeroOnlyOnEqual(a', b');
      assert a == a' + [a[|a| - 1]] && b == b' + [b[|b| - 1]];
    }
  }

  /** Dropping or adding a last character moves the distance by at most one. */
  lemma {:induction false} LengthGap<T>(a: seq<T>, b: seq<T>)
    ensures |a| - |b| <= Distance(a, b) && |b| - |a| <= Distance(a, b)
    decreases |a| + |b|
  {
    if a != [] && b != [] {
      LengthGap(a[..|a| - 1], b);
      LengthGap(a, b[..|b| - 1]);
      LengthGap(a[..|a| - 1], b[..|b| - 1]);
    }
  }

  lemma {:induction false} AtMostBoth<T>(a: seq<T>, b: seq<T>)
    ensures Distance(a, b) <= |a| + |b|
    decreases |a| + |b|
  {
    if a != [] && b != [] {
      AtMostBoth(a[..|a| - 1], b);
    }
  }

  lemma {:induction false} TriangleInequality<T>(a: seq<T>, b: seq<T>, c: seq<T>)
    ensures Distance(a, c) <= Distance(a, b) + Distance(b, c)
    decreases |a| + |b| + |c|
  {
    LengthGap(a, b);
    LengthGap(b, c);
    AtMostBoth(a, c);
    if a != [] && b != [] && c != [] {
      var a', b', c' := a[..|a| - 1], b[..|b| - 1], c[..|c| - 1];
      TriangleInequality(a', b, c);
      TriangleInequality(a, b, c');
      TriangleInequality(a, b', c);
      TriangleInequality(a, b', c');
      TriangleInequality(a', b', c);
      TriangleInequality(a', b', c');
    }
  }

  // ---- the two-row programme ----

  /** The cells of row `i` before column `upto`: distances from a's first i characters to prefixes of b. */
  ghost predicate IsRow<T>(row: array<int>, a: seq<T>, i: nat, b: seq<T>, upto: nat)
    requires i <= |a|
    reads row
  {
    row.Length == |b| + 1 && upto <= |b| + 1 && forall j :: 0 <= j < upto ==> row[j] == Distance(a[..i], b[..j])
  }

  lemma FirstRow<T>(a: seq<T>, b: seq<T>)
    ensures forall j :: 0 <= j <= |b| ==> Distance(a[..0], b[..j]) == j
  {
  }

  lemma FirstColumn<T>(a: seq<T>, b: seq<T>, i: nat)
    requires i <= |a|
    ensures Distance(a[..i], b[..0]) == i
  {
  }

  /** One cell of the table from its three neighbours. */
  lemma Cell<T>(a: seq<T>, b: seq<T>, i: nat, j: nat)
    requires 1 <= i <= |a| && 1 <= j <= |b|
    ensures Distance(a[..i], b[..j]) ==
            Min(Min(Distance(a[..i - 1], b[..j]) + 1, Distance(a[..i], b[..j - 1]) + 1),
                Distance(a[..i - 1], b[..j - 1]) + if a[i - 1] == b[j - 1] then 0 else 1)
  {
    assert a[..i][..i - 1] == a[..i - 1] && b[..j][..j - 1] == b[..j - 1];
  }

  /** The inner loop: row i of the table from row i - 1. */
  method NextRow<T(==)>(prev: array<int>, a: seq<T>, b: seq<T>, i: nat) returns (cur: array<int>)
    requires 1 <= i <= |a| && IsRow(prev, a, i - 1, b, |b| + 1)
    ensures IsRow(cur, a, i, b, |b| + 1)
  {
    hide Distance;
    cur := new int[|b| + 1];
    cur[0] := i;
    FirstColumn(a, b, i);
    var j := 1;
    while j <= |b|
      invariant 1 <= j <= |b| + 1
      invariant IsRow(prev, a, i - 1, b, |b| + 1)
      invariant IsRow(cur, a, i, b, j)
    {
      Cell(a, b, i, j);
      cur[j] := Min(Min(prev[j] + 1, cur[j - 1] + 1), prev[j - 1] + if a[i - 1] == b[j - 1] then 0 else 1);
      j := j + 1;
    }
  }

  method Levenshtein<T(==)>(a: seq<T>, b: seq<T>, cap: Option<int>) returns (r: int)
    ensures cap.None? ==> r == Distance(a, b)
    ensures cap.Some? ==> (r > cap.value <==> Distance(a, b) > cap.value)
    ensures cap.Some? && -cap.value <= |a| - |b| <= cap.value ==> r == Distance(a, b)
    ensures cap.Some? && !(-cap.value <= |a| - |b| <= cap.value) ==> r == cap.value + 1
  {
    if cap.Some? && (if |a| < |b| then |b| - |a| else |a| - |b|) > cap.value {
      LengthGap(a, b);
      return cap.value + 1;
    }
    FirstRow(a, b);
    hide Distance;
    var prev := new int[|b| + 1](j => j);
    var i := 1;
    while i <= |a|
      invariant 1 <= i <= |a| + 1
      invariant IsRow(prev, a, i - 1, b, |b| + 1)
    {
      prev := NextRow(prev, a, b, i);
      i := i + 1;
    }
    assert a[..|a|] == a && b[..|b|] == b;
    return prev[|b|];
  }
}
