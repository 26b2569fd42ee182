/** The triangular numbering of unordered vertex pairs that generateRandomGraph
    uses: a linear index `k` stands for the pair `(x, y)` with
    `k == Tri(x + y) + x`, and `unpair` inverts it. The float expression
    `floor((-1 + sqrt(1 + 8k)) / 2)` is replaced by the exact integer
    triangular root. */
module Pairing {

  /** The triangular number z(z+1)/2, written as the source writes it. */
  function Tri(z: nat): nat
  {
    z * (z + 1) / 2
  }

  lemma TriStep(z: nat)
    ensures Tri(z + 1) == Tri(z) + z + 1
  {
    assert (z + 1) * (z + 2) == z * (z + 1) + 2 * (z + 1);
  }

  /** The second coordinate of `unpair` uses z(3+z)/2, which is Tri(z) + z. */
  lemma TriPlus(z: nat)
    ensures z * (3 + z) / 2 == Tri(z) + z
  {
    var square := z * (z + 1);
    assert z * (3 + z) == square + 2 * z;
    assert (square + 2 * z) / 2 == square / 2 + z;
  }

  /** Tri is increasing. */
  lemma {:induction false} TriOrder(a: nat, b: nat)
    ensures a <= b ==> Tri(a) <= Tri(b)
    decreases b - a
  {
    if a < b {
      TriStep(a);
      TriOrder(a + 1, b);
    }
  }

  /** The exact triangular root: the largest `z` with `Tri(z) <= k`. */
  function TriRoot(k: nat): (z: nat)
    ensures Tri(z) <= k < Tri(z + 1)
  {
    if k == 0 then 0
    else
      var z := TriRoot(k - 1);
      TriStep(z);
      TriStep(z + 1);
      if Tri(z + 1) <= k then z + 1 else z
  }

  /** The bracket `Tri(z) <= k < Tri(z + 1)` determines `z`. */
  lemma TriRootUnique(k: nat, z: nat)
    requires Tri(z) <= k < Tri(z + 1)
    ensures TriRoot(k) == z
  {
    var r := TriRoot(k);
    TriOrder(r + 1, z);
    TriOrder(z + 1, r);
  }

  /** The linear index of the pair `(x, y)`. */
  function Pair(x: nat, y: nat): nat
  {
    Tri(x + y) + x
  }

  /** `unpair(k)` (graph.ts lines 606-609): with `z` the triangular root,
      `[k - z(1+z)/2, z(3+z)/2 - k]`. Its two coordinates add up to `z`, and
      `Pair` maps them back to `k`, so `unpair` is injective. */
  function Unpair(k: nat): (p: (nat, nat))
    ensures Pair(p.0, p.1) == k
    ensures p.0 + p.1 == TriRoot(k)
  {
    var z := TriRoot(k);
    TriStep(z);
    TriPlus(z);
    (k - Tri(z), z * (3 + z) / 2 - k)
  }

  /** Every pair is reached: `unpair` is onto, with `Pair` its inverse. */
  lemma UnpairPair(x: nat, y: nat)
    ensures Unpair(Pair(x, y)) == (x, y)
  {
    var k := Pair(x, y);
    TriStep(x + y);
    TriRootUnique(k, x + y);
  }

  /** The maximum number of edges of a simple graph on `n` vertices,
      `(n * (n - 1)) / 2` as the source computes it. */
  function MaxNumEdges(n: int): int
  {
    (n * (n - 1)) / 2
  }

  lemma MaxNumEdgesIsTri(n: nat)
    requires 1 <= n
    ensures MaxNumEdges(n) == Tri(n - 1)
  {
  }

  /** The vertex positions joined by the edge with index `k` among `n`
      vertices: `(x, n - 1 - y)` where `(x, y) == Unpair(k)` (lines 612-614). */
  function EdgeOf(n: int, k: nat): (e: (int, int))
    ensures e.0 >= 0 && n - 1 - e.1 >= 0 && Pair(e.0, n - 1 - e.1) == k
  {
    var p := Unpair(k);
    (p.0, n - 1 - p.1)
  }

  /** Every index below the maximum names two distinct positions in range,
      the smaller one first: no self-loop, no out-of-range access. */
  lemma EdgeInRange(n: int, k: nat)
    requires 0 <= n && k < MaxNumEdges(n)
    ensures 0 <= EdgeOf(n, k).0 < EdgeOf(n, k).1 < n
  {
    assert 2 <= n;
    MaxNumEdgesIsTri(n);
    var z := TriRoot(k);
    TriOrder(n - 1, z);
  }

  /** Distinct indices below the maximum name distinct edges: as positions
      with the smaller first, the two pairs differ. */
  lemma EdgeOfInjective(n: int, j: nat, k: nat)
    requires j != k
    ensures EdgeOf(n, j) != EdgeOf(n, k)
  {
    assert Pair(Unpair(j).0, Unpair(j).1) != Pair(Unpair(k).0, Unpair(k).1);
  }

  /** A pair whose coordinates add up to less than `n - 1` has an index
      below the maximum for `n` vertices. */
  lemma PairBelowMax(n: int, x: nat, y: nat)
    requires x + y < n - 1
    ensures Pair(x, y) < MaxNumEdges(n)
  {
    TriStep(x + y);
    TriOrder(x + y + 1, n - 1);
    MaxNumEdgesIsTri(n);
  }

  /** Every pair of positions `u < v` below `n` is the edge of the index
      `Pair(u, n - 1 - v)`, which lies below the maximum. */
  lemma EdgeOfOnto(n: int, u: nat, v: nat)
    requires u < v < n
    ensures Pair(u, n - 1 - v) < MaxNumEdges(n)
    ensures EdgeOf(n, Pair(u, n - 1 - v)) == (u, v)
  {
    PairBelowMax(n, u, n - 1 - v);
    UnpairPair(u, n - 1 - v);
  }
}
