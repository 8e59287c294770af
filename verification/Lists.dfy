/** Lists without repetition, and the sets of what is on them. */
module Lists {

  function Elems<T>(s: seq<T>): set<T> { set x | x in s }

  predicate Distinct<T(==)>(s: seq<T>) { forall i, j :: 0 <= i < j < |s| ==> s[i] != s[j] }

  function Reverse<T>(s: seq<T>): seq<T> { if s == [] then [] else Reverse(s[1..]) + [s[0]] }

  function Remove<T(==)>(s: seq<T>, x: T): seq<T> {
    if s == [] then [] else if s[0] == x then s[1..] else [s[0]] + Remove(s[1..], x)
  }

  function Insert<T>(s: seq<T>, at: nat, x: T): seq<T>
    requires at <= |s|
  {
    s[..at] + [x] + s[at..]
  }

  function IndexOf<T(==)>(s: seq<T>, x: T): (i: nat)
    requires x in s
    ensures i < |s| && s[i] == x && forall j :: 0 <= j < i ==> s[j] != x
  {
    if s[0] == x then 0 else 1 + IndexOf(s[1..], x)
  }

  lemma Associative<T>(a: seq<T>, b: seq<T>, c: seq<T>)
    ensures (a + b) + c == a + (b + c)
  {
  }

  lemma TailElems<T>(s: seq<T>)
    requires s != [] && Distinct(s)
    ensures Distinct(s[1..]) && s[0] !in Elems(s[1..]) && Elems(s[1..]) == Elems(s) - {s[0]}
  {
    assert s == [s[0]] + s[1..];
  }

  lemma FrontElems<T>(x: T, s: seq<T>)
    requires Distinct(s) && x !in Elems(s)
    ensures Distinct([x] + s) && Elems([x] + s) == Elems(s) + {x}
  {
    assert x !in s;
  }

  lemma BackElems<T>(s: seq<T>, x: T)
    requires Distinct(s) && x !in Elems(s)
    ensures Distinct(s + [x]) && Elems(s + [x]) == Elems(s) + {x}
  {
    assert x !in s;
  }

  lemma InsertElems<T>(s: seq<T>, at: nat, x: T)
    requires Distinct(s) && x !in Elems(s) && at <= |s|
    ensures Distinct(s[..at] + [x] + s[at..]) && Elems(s[..at] + [x] + s[at..]) == Elems(s) + {x}
  {
    assert s == s[..at] + s[at..];
    assert x !in s;
  }

  lemma {:induction false} RemoveElems<T>(s: seq<T>, x: T)
    requires Distinct(s)
    ensures Distinct(Remove(s, x)) && Elems(Remove(s, x)) == Elems(s) - {x}
  {
    if s != [] {
      TailElems(s);
      if s[0] != x {
        RemoveElems(s[1..], x);
        FrontElems(s[0], Remove(s[1..], x));
      }
    }
  }

  lemma {:induction false} ReverseElems<T>(s: seq<T>)
    requires Distinct(s)
    ensures Distinct(Reverse(s)) && Elems(Reverse(s)) == Elems(s)
  {
    if s != [] {
      TailElems(s);
      ReverseElems(s[1..]);
      BackElems(Reverse(s[1..]), s[0]);
    }
  }

  lemma JoinElems<T>(a: seq<T>, b: seq<T>)
    requires Distinct(a) && Distinct(b) && Elems(a) !! Elems(b)
    ensures Distinct(a + b) && Elems(a + b) == Elems(a) + Elems(b)
  {
    forall i, j | 0 <= i < j < |a + b|
      ensures (a + b)[i] != (a + b)[j]
    {
      if i < |a| <= j { assert a[i] in Elems(a) && b[j - |a|] in Elems(b); }
    }
  }

  lemma {:induction false} SizeOf<T>(s: seq<T>)
    requires Distinct(s)
    ensures |Elems(s)| == |s|
  {
    if s != [] {
      TailElems(s);
      SizeOf(s[1..]);
    }
  }

  // ----- suspend lists -----

  /** x has joined a list at a place; the others stand as they stood. */
  predicate JoinedAt<T(==)>(was: seq<T>, list: seq<T>, at: nat, x: T) {
    at < |list| && list[at] == x && list[..at] + list[at + 1..] == was
  }

  /** x, which was on it, has left a list without repetition; the others stand as they stood. */
  predicate LeftBy<T(==)>(was: seq<T>, list: seq<T>, x: T) {
    exists i :: 0 <= i < |was| && was[i] == x && list == was[..i] + was[i + 1..]
  }

  /** The first of a list, if there is one, has gone over to the woken. */
  predicate FirstWoken<T(==)>(was: seq<T>, wokenBefore: set<T>, list: seq<T>, woken: set<T>) {
    if was == [] then list == [] && woken == wokenBefore
    else was == [was[0]] + list && woken == wokenBefore + {was[0]}
  }

  lemma InsertJoins<T>(s: seq<T>, at: nat, x: T)
    requires at <= |s|
    ensures JoinedAt(s, s[..at] + [x] + s[at..], at, x)
  {
    assert s == s[..at] + s[at..];
  }

  lemma {:induction false} RemoveIs<T>(s: seq<T>, x: T)
    requires x in s
    ensures var i := IndexOf(s, x); Remove(s, x) == s[..i] + s[i + 1..]
  {
    if s[0] != x {
      RemoveIs(s[1..], x);
      var i := IndexOf(s[1..], x);
      assert s[..i + 1] == [s[0]] + s[1..][..i];
    }
  }

  lemma RemoveLeaves<T>(s: seq<T>, x: T)
    requires x in s
    ensures LeftBy(s, Remove(s, x), x)
  {
    RemoveIs(s, x);
  }

  // ----- the place of an element -----

  lemma IndexIs<T>(s: seq<T>, i: nat)
    requires Distinct(s) && i < |s|
    ensures IndexOf(s, s[i]) == i
  {
  }

  /** The place of x when somebody joins at the back, the first leaves, or u leaves. */
  lemma IndexAfterJoin<T>(s: seq<T>, x: T, u: T)
    requires Distinct(s) && x in s && u !in s
    ensures x in s + [u] && IndexOf(s + [u], x) == IndexOf(s, x)
  {
    assert Distinct(s + [u]);
    IndexIs(s + [u], IndexOf(s, x));
  }

  lemma IndexAfterFirst<T>(s: seq<T>, x: T)
    requires Distinct(s) && x in s
    ensures x in s[1..] <==> IndexOf(s, x) > 0
    ensures x in s[1..] ==> IndexOf(s[1..], x) == IndexOf(s, x) - 1
  {
    var i := IndexOf(s, x);
    if i > 0 { assert s[1..][i - 1] == x; }
  }

  lemma IndexAfterRemove<T>(s: seq<T>, x: T, u: T)
    requires Distinct(s) && x in s && u in s && u != x
    ensures x in Remove(s, u)
    ensures IndexOf(Remove(s, u), x) == IndexOf(s, x) - (if IndexOf(s, u) < IndexOf(s, x) then 1 else 0)
  {
    var i, j := IndexOf(s, x), IndexOf(s, u);
    var k := if j < i then i - 1 else i;
    RemoveIs(s, u);
    RemoveElems(s, u);
    assert Remove(s, u)[k] == x;
    IndexIs(Remove(s, u), k);
  }
}
