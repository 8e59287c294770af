/** Memory as one cell per byte address, and the copying of a range of it. */
module Cells {

  function Min(a: int, b: int): int { if a < b then a else b }

  /** The n cells at dst in d are the n cells that were at src in c. */
  predicate Copied(c: seq<int>, d: seq<int>, src: int, dst: int, n: int) {
    && 0 <= src && src + n <= |c| && 0 <= dst && dst + n <= |d|
    && forall a :: dst <= a < dst + n ==> d[a] == c[a - dst + src]
  }

  /** d is c but for n cells at dst. */
  predicate SameOutside(c: seq<int>, d: seq<int>, dst: int, n: int) {
    |c| == |d| && forall a :: 0 <= a < |c| && !(dst <= a < dst + n) ==> d[a] == c[a]
  }

  /** Of a copied range a part is copied too. */
  lemma CopiedLess(c: seq<int>, d: seq<int>, src: int, dst: int, n: int, m: int)
    requires Copied(c, d, src, dst, n) && 0 <= m <= n
    ensures Copied(c, d, src, dst, m)
  {
  }

  lemma SameIsCopied(c: seq<int>, at: int, n: int)
    requires 0 <= at && at + n <= |c|
    ensures Copied(c, c, at, at, n)
  {
  }

  /** A range beside the one written keeps its cells. */
  lemma KeptBeside(c: seq<int>, d: seq<int>, dst: int, n: int, at: int, m: int)
    requires SameOutside(c, d, dst, n) && 0 <= at && at + m <= |c| && (at + m <= dst || dst + n <= at)
    ensures Copied(c, d, at, at, m)
  {
  }

  /** rt_memcpy between two ranges that do not overlap. */
  method Memcpy(cells: array<int>, dst: nat, src: nat, n: nat)
    requires dst + n <= cells.Length && src + n <= cells.Length && (dst + n <= src || src + n <= dst)
    modifies cells
    ensures Copied(old(cells[..]), cells[..], src, dst, n) && SameOutside(old(cells[..]), cells[..], dst, n)
  {
    var t := 0;
    while t < n
      invariant t <= n
      invariant forall a :: dst <= a < dst + t ==> cells[a] == old(cells[a - dst + src])
      invariant forall a :: 0 <= a < cells.Length && !(dst <= a < dst + t) ==> cells[a] == old(cells[a])
    {
      cells[dst + t] := cells[src + t];
      t := t + 1;
    }
  }
}
