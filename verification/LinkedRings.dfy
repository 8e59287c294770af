/** Doubly linked rings kept in two fields of the nodes, and the sequences they stand for. */
module LinkedRings {
  import opened Lists

  type Node = int
  type Links = map<Node, Node>

  function After(s: seq<Node>, i: nat): Node
    requires i < |s|
  {
    if i + 1 < |s| then s[i + 1] else s[0]
  }

  function Ahead(s: seq<Node>, i: nat): Node
    requires i < |s|
  {
    if i > 0 then s[i - 1] else s[|s| - 1]
  }

  /** The node at i is linked to its neighbours, both ways. */
  predicate LinkedAt(next: Links, prev: Links, s: seq<Node>, i: nat)
    requires i < |s|
  {
    s[i] in next && s[i] in prev && next[s[i]] == After(s, i) && prev[s[i]] == Ahead(s, i)
  }

  /** Following next from the first node goes through s and back to its start; prev goes the other way. */
  predicate Ring(next: Links, prev: Links, s: seq<Node>) {
    s != [] && Distinct(s) && forall i :: 0 <= i < |s| ==> LinkedAt(next, prev, s, i)
  }

  /** next and prev are inverse to each other on the ring. */
  lemma RingInverse(next: Links, prev: Links, s: seq<Node>, i: nat)
    requires Ring(next, prev, s) && i < |s|
    ensures s[i] in next && next[s[i]] in prev && prev[next[s[i]]] == s[i]
    ensures s[i] in prev && prev[s[i]] in next && next[prev[s[i]]] == s[i]
  {
    assert LinkedAt(next, prev, s, i);
    assert LinkedAt(next, prev, s, if i + 1 < |s| then i + 1 else 0);
    assert LinkedAt(next, prev, s, if i > 0 then i - 1 else |s| - 1);
  }

  // ----- inserting after a node -----

  function Inserted(s: seq<Node>, i: nat, x: Node): seq<Node>
    requires i < |s|
  {
    s[..i + 1] + [x] + s[i + 1..]
  }

  function InsertNext(next: Links, p: Node, x: Node): Links
    requires p in next
  {
    next[x := next[p]][p := x]
  }

  function InsertPrev(next: Links, prev: Links, p: Node, x: Node): Links
    requires p in next
  {
    prev[x := p][next[p] := x]
  }

  lemma InsertRing(next: Links, prev: Links, s: seq<Node>, i: nat, x: Node)
    requires Ring(next, prev, s) && i < |s| && x !in s
    ensures s[i] in next && Ring(InsertNext(next, s[i], x), InsertPrev(next, prev, s[i], x), Inserted(s, i, x))
  {
    assert LinkedAt(next, prev, s, i);
    var n2, p2, t := InsertNext(next, s[i], x), InsertPrev(next, prev, s[i], x), Inserted(s, i, x);
    InsertedAt(s, i, x);
    forall k | 0 <= k < |t|
      ensures LinkedAt(n2, p2, t, k)
    {
      if k <= i {
        assert LinkedAt(next, prev, s, k);
      } else if k > i + 1 {
        assert LinkedAt(next, prev, s, k - 1);
      }
    }
  }

  lemma InsertedAt(s: seq<Node>, i: nat, x: Node)
    requires i < |s| && Distinct(s) && x !in s
    ensures var t := Inserted(s, i, x);
      && |t| == |s| + 1 && Distinct(t) && t[i + 1] == x
      && (forall k :: 0 <= k <= i ==> t[k] == s[k]) && (forall k :: i + 1 < k < |t| ==> t[k] == s[k - 1])
  {
  }

  // ----- taking a node out -----

  function Removed(s: seq<Node>, i: nat): seq<Node>
    requires i < |s|
  {
    s[..i] + s[i + 1..]
  }

  function RemoveNext(next: Links, prev: Links, x: Node): Links
    requires x in next && x in prev
  {
    next[prev[x] := next[x]]
  }

  function RemovePrev(next: Links, prev: Links, x: Node): Links
    requires x in next && x in prev
  {
    prev[next[x] := prev[x]]
  }

  lemma RemoveRing(next: Links, prev: Links, s: seq<Node>, i: nat)
    requires Ring(next, prev, s) && 0 < i < |s|
    ensures s[i] in next && s[i] in prev
    ensures Ring(RemoveNext(next, prev, s[i]), RemovePrev(next, prev, s[i]), Removed(s, i))
  {
    assert LinkedAt(next, prev, s, i);
    var n2, p2, t := RemoveNext(next, prev, s[i]), RemovePrev(next, prev, s[i]), Removed(s, i);
    RemovedAt(s, i);
    forall k | 0 <= k < |t|
      ensures LinkedAt(n2, p2, t, k)
    {
      assert LinkedAt(next, prev, s, if k < i then k else k + 1);
    }
  }

  lemma RemovedAt(s: seq<Node>, i: nat)
    requires i < |s| && Distinct(s)
    ensures var t := Removed(s, i);
      && |t| == |s| - 1 && Distinct(t) && s[i] !in t
      && (forall k :: 0 <= k < i ==> t[k] == s[k]) && (forall k :: i <= k < |t| ==> t[k] == s[k + 1])
  {
  }
}
