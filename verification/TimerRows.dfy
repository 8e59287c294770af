/** The rows of a skip list as sequences of timer numbers: sub-rows, removal, and the place where a
    timer goes.  Nothing here knows about ticks. */
module TimerRows {
  import opened Lists

  type Tid = nat
  type Row = seq<Tid>

  /** The entries of s that are in keep, in their order. */
  function Keep(s: Row, keep: set<Tid>): Row {
    if s == [] then [] else (if s[0] in keep then [s[0]] else []) + Keep(s[1..], keep)
  }

  /** Every entry of a is in b, in the same order. */
  predicate SubRow(a: Row, b: Row) { a == Keep(b, Elems(a)) }

  function Without(s: Row, x: Tid): Row { Keep(s, Elems(s) - {x}) }

  // ----- keeping -----

  lemma {:induction false} KeepElems(s: Row, keep: set<Tid>)
    ensures Elems(Keep(s, keep)) == Elems(s) * keep
  {
    if s != [] {
      KeepElems(s[1..], keep);
      var head := if s[0] in keep then [s[0]] else [];
      assert Keep(s, keep) == head + Keep(s[1..], keep);
      assert forall x :: x in Keep(s, keep) <==> x in head || x in Keep(s[1..], keep);
      assert forall x :: x in s <==> x == s[0] || x in s[1..];
      assert forall x :: x in Keep(s[1..], keep) <==> x in Elems(Keep(s[1..], keep));
    }
  }

  lemma {:induction false} KeepConcat(a: Row, b: Row, keep: set<Tid>)
    ensures Keep(a + b, keep) == Keep(a, keep) + Keep(b, keep)
  {
    if a == [] {
      assert a + b == b;
    } else {
      assert (a + b)[1..] == a[1..] + b && (a + b)[0] == a[0];
      KeepConcat(a[1..], b, keep);
      Associative(if a[0] in keep then [a[0]] else [], Keep(a[1..], keep), Keep(b, keep));
    }
  }

  lemma {:induction false} KeepSame(s: Row, p: set<Tid>, q: set<Tid>)
    requires forall x :: x in s ==> (x in p <==> x in q)
    ensures Keep(s, p) == Keep(s, q)
  {
    if s != [] {
      assert forall x :: x in s[1..] ==> x in s;
      KeepSame(s[1..], p, q);
    }
  }

  lemma {:induction false} KeepAll(s: Row, keep: set<Tid>)
    requires forall x :: x in s ==> x in keep
    ensures Keep(s, keep) == s
  {
    if s != [] {
      assert forall x :: x in s[1..] ==> x in s;
      KeepAll(s[1..], keep);
    }
  }

  lemma {:induction false} KeepTwice(s: Row, p: set<Tid>, q: set<Tid>)
    ensures Keep(Keep(s, p), q) == Keep(s, p * q)
  {
    if s != [] {
      KeepTwice(s[1..], p, q);
      var head := if s[0] in p then [s[0]] else [];
      KeepConcat(head, Keep(s[1..], p), q);
      assert [s[0]][1..] == [];
      assert Keep(head, q) == if s[0] in p * q then [s[0]] else [];
    }
  }

  /** Two entries that were kept stand where they stood relative to each other. */
  lemma {:induction false} KeepOrder(s: Row, keep: set<Tid>, i: nat, j: nat) returns (a: nat, b: nat)
    requires i < j < |Keep(s, keep)|
    ensures a < b < |s| && s[a] == Keep(s, keep)[i] && s[b] == Keep(s, keep)[j]
  {
    var rest := Keep(s[1..], keep);
    if s[0] !in keep {
      a, b := KeepOrder(s[1..], keep, i, j);
      a, b := a + 1, b + 1;
    } else if i == 0 {
      a, b := 0, 1 + KeptAt(s[1..], keep, j - 1);
    } else {
      a, b := KeepOrder(s[1..], keep, i - 1, j - 1);
      a, b := a + 1, b + 1;
    }
  }

  function KeptAt(s: Row, keep: set<Tid>, j: nat): (b: nat)
    requires j < |Keep(s, keep)|
    ensures b < |s| && s[b] == Keep(s, keep)[j]
  {
    if s[0] !in keep then 1 + KeptAt(s[1..], keep, j)
    else if j == 0 then 0
    else 1 + KeptAt(s[1..], keep, j - 1)
  }

  lemma KeepDistinct(s: Row, keep: set<Tid>)
    requires Distinct(s)
    ensures Distinct(Keep(s, keep))
  {
    forall i, j | 0 <= i < j < |Keep(s, keep)|
      ensures Keep(s, keep)[i] != Keep(s, keep)[j]
    {
      var a, b := KeepOrder(s, keep, i, j);
    }
  }

  // ----- removal -----

  lemma WithoutAt(s: Row, i: nat)
    requires i < |s| && Distinct(s)
    ensures Without(s, s[i]) == s[..i] + s[i + 1..]
  {
    var x, keep := s[i], Elems(s) - {s[i]};
    assert forall y :: y in s[..i] || y in s[i + 1..] ==> y in keep;
    assert s == s[..i] + ([x] + s[i + 1..]);
    KeepAllBut(s[..i], x, s[i + 1..], keep);
  }

  lemma KeepAllBut(a: Row, x: Tid, b: Row, keep: set<Tid>)
    requires x !in keep && forall y :: y in a || y in b ==> y in keep
    ensures Keep(a + ([x] + b), keep) == a + b
  {
    KeepAll(a, keep);
    KeepAll(b, keep);
    KeepOne(x, keep);
    hide Keep;
    KeepConcat(a, [x] + b, keep);
    KeepConcat([x], b, keep);
    assert [] + b == b;
  }

  lemma KeepOne(x: Tid, keep: set<Tid>)
    ensures Keep([x], keep) == if x in keep then [x] else []
  {
    assert [x][1..] == [];
  }

  lemma WithoutAbsent(s: Row, x: Tid)
    requires x !in s
    ensures Without(s, x) == s
  {
    KeepAll(s, Elems(s) - {x});
  }

  lemma WithoutElems(s: Row, x: Tid)
    ensures Elems(Without(s, x)) == Elems(s) - {x}
  {
    KeepElems(s, Elems(s) - {x});
  }

  /** Taking a timer out of both rows leaves one a sub-row of the other. */
  lemma WithoutSub(a: Row, b: Row, x: Tid)
    requires SubRow(a, b)
    ensures SubRow(Without(a, x), Without(b, x))
  {
    var ea, eb := Elems(a), Elems(b);
    WithoutElems(a, x);
    KeepTwice(b, ea, ea - {x});
    assert ea * (ea - {x}) == ea - {x};
    KeepTwice(b, eb - {x}, ea - {x});
    KeepSame(b, (eb - {x}) * (ea - {x}), ea - {x});
  }

  // ----- where a timer goes -----

  /** How far the walk along a row gets: up to the first entry that is late. */
  function Place(s: Row, late: set<Tid>): (k: nat)
    ensures k <= |s| && (k < |s| ==> s[k] in late) && forall i :: 0 <= i < k ==> s[i] !in late
  {
    if s == [] || s[0] in late then 0 else 1 + Place(s[1..], late)
  }

  /** Once an entry is late, so are all after it. */
  predicate Partitioned(s: Row, late: set<Tid>) {
    forall i, j :: 0 <= i < j < |s| && s[i] in late ==> s[j] in late
  }

  function Ins(s: Row, late: set<Tid>, x: Tid): Row {
    s[..Place(s, late)] + [x] + s[Place(s, late)..]
  }

  lemma PlaceIs(s: Row, late: set<Tid>, k: nat)
    requires k <= |s| && (k < |s| ==> s[k] in late) && forall i :: 0 <= i < k ==> s[i] !in late
    ensures Place(s, late) == k
  {
  }

  lemma PlaceOfParts(a: Row, b: Row, late: set<Tid>)
    requires (forall x :: x in a ==> x !in late) && (forall x :: x in b ==> x in late)
    ensures Place(a + b, late) == |a|
  {
    PlaceIs(a + b, late, |a|);
  }

  lemma Parts(s: Row, late: set<Tid>)
    requires Partitioned(s, late)
    ensures var k := Place(s, late);
      s == s[..k] + s[k..] && (forall x :: x in s[..k] ==> x !in late) && (forall x :: x in s[k..] ==> x in late)
  {
    var k := Place(s, late);
    LateFrom(s, late, k);
    hide Place, Partitioned;
  }

  lemma LateFrom(s: Row, late: set<Tid>, k: nat)
    requires Partitioned(s, late) && k <= |s| && (k < |s| ==> s[k] in late)
    ensures forall x :: x in s[k..] ==> x in late
  {
    forall i | k <= i < |s|
      ensures s[i] in late
    {
    }
  }

  lemma NotLate(s: Row, late: set<Tid>, i: nat)
    requires Partitioned(s, late) && i < |s| && s[i] !in late
    ensures i < Place(s, late)
  {
  }

  lemma KeepParts(s: Row, late: set<Tid>, keep: set<Tid>)
    requires Partitioned(s, late)
    ensures var k := Place(s, late); var a, b := Keep(s[..k], keep), Keep(s[k..], keep);
      Keep(s, keep) == a + b && Place(a + b, late) == |a|
  {
    var k := Place(s, late);
    Parts(s, late);
    KeepConcat(s[..k], s[k..], keep);
    var a, b := Keep(s[..k], keep), Keep(s[k..], keep);
    KeepElems(s[..k], keep);
    KeepElems(s[k..], keep);
    assert forall x :: x in a ==> x in Elems(a);
    assert forall x :: x in b ==> x in Elems(b);
    PlaceOfParts(a, b, late);
  }

  lemma InsElems(s: Row, late: set<Tid>, x: Tid)
    ensures Elems(Ins(s, late, x)) == Elems(s) + {x} && |Ins(s, late, x)| == |s| + 1
  {
    var k := Place(s, late);
    assert s == s[..k] + s[k..];
  }

  lemma InsDistinct(s: Row, late: set<Tid>, x: Tid)
    requires Distinct(s) && x !in s
    ensures Distinct(Ins(s, late, x))
  {
  }

  /** Putting a timer in both rows leaves one a sub-row of the other. */
  lemma InsBothSub(a: Row, b: Row, late: set<Tid>, x: Tid)
    requires SubRow(a, b) && Partitioned(b, late) && x !in b
    ensures SubRow(Ins(a, late, x), Ins(b, late, x))
  {
    var k, ea, ex := Place(b, late), Elems(a), Elems(a) + {x};
    KeepParts(b, late, ea);
    var a1, a2 := Keep(b[..k], ea), Keep(b[k..], ea);
    InsElems(a, late, x);
    KeepIns(b, late, x, ex);
    KeepSame(b[..k], ex, ea);
    KeepSame(b[k..], ex, ea);
    assert a == a1 + a2 && a[..|a1|] == a1 && a[|a1|..] == a2;
  }

  /** Putting it in the longer row only does too. */
  lemma InsBelowSub(a: Row, b: Row, late: set<Tid>, x: Tid)
    requires SubRow(a, b) && x !in b
    ensures SubRow(a, Ins(b, late, x))
  {
    var k, ea := Place(b, late), Elems(a);
    KeepElems(b, ea);
    assert x !in Elems(b) && x !in ea;
    KeepIns(b, late, x, ea);
    KeepConcat(b[..k], b[k..], ea);
    assert b == b[..k] + b[k..];
  }

  lemma KeepIns(s: Row, late: set<Tid>, x: Tid, keep: set<Tid>)
    ensures var k := Place(s, late);
      Keep(Ins(s, late, x), keep) == Keep(s[..k], keep) + (if x in keep then [x] else []) + Keep(s[k..], keep)
  {
    var k := Place(s, late);
    KeepConcat(s[..k] + [x], s[k..], keep);
    KeepConcat(s[..k], [x], keep);
    assert [x][1..] == [];
  }

  // ----- going down a row -----

  /** The walk in the row below may start right after the timer the walk above ended on. */
  lemma DescendBelow(a: Row, b: Row, late: set<Tid>)
    requires SubRow(a, b) && Partitioned(b, late)
    ensures var k := Place(a, late);
      k > 0 ==> a[k - 1] in b && IndexOf(b, a[k - 1]) + 1 <= Place(b, late)
  {
    var k := Place(a, late);
    if k > 0 {
      var x := a[k - 1];
      KeepElems(b, Elems(a));
      assert x in Elems(a) && x in Elems(b);
      NotLate(b, late, IndexOf(b, x));
    }
  }
}
