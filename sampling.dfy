/** The edge-index sampling of generateRandomGraph (graph.ts lines 586-604):
    the argument guard and the partial Fisher-Yates shuffle over a sparse map
    that stands for the identity array `[0, 1, ..., max - 1]`. `Math.random`
    is replaced by the sequence of values `randomInt(i, max)` returned. */
module EdgeSampling {
  import opened Pairing

  /** The guard at line 588: generateRandomGraph returns `undefined` unless
      both counts are non-negative and `m` does not exceed the number of
      vertex pairs. */
  predicate Accepts(n: int, m: int)
    ensures Accepts(n, m) && 0 < m ==> 2 <= n
  {
    !(n < 0 || m < 0 || m > MaxNumEdges(n))
  }

  /** The values the `m` calls `randomInt(i, max)` return: call `i` yields an
      integer in `[i, max)`. */
  predicate ValidChoices(m: int, max: int, choices: seq<int>)
  {
    |choices| == m && forall i :: 0 <= i < m ==> i <= choices[i] < max
  }

  /** `state[k]` where an absent key stands for itself (the `if (!(k in
      state)) state[k] = k` default at lines 601-602). */
  function Lookup(state: map<int, int>, k: int): (v: int)
    ensures v == k || v in state.Values
  {
    if k in state then state[k] else k
  }

  /** The array of length `size` that the sparse map represents. */
  function Image(state: map<int, int>, size: nat): (s: seq<int>)
    ensures |s| == size && forall k :: 0 <= k < size ==> s[k] == Lookup(state, k)
  {
    seq(size, k => Lookup(state, k))
  }

  /** No value occurs twice in `s`. */
  predicate Distinct(s: seq<int>)
  {
    forall p, q :: 0 <= p < q < |s| ==> s[p] != s[q]
  }

  /** `s` holds each of `0, ..., |s| - 1` exactly once. */
  predicate IsPermutation(s: seq<int>)
  {
    && (forall k :: 0 <= k < |s| ==> 0 <= s[k] < |s|)
    && Distinct(s)
    && (forall v :: 0 <= v < |s| ==> v in s)
  }

  /** `[s[i], s[j]] = [s[j], s[i]]` on a sequence. */
  function Swap(s: seq<int>, i: nat, j: nat): (r: seq<int>)
    requires i < |s| && j < |s|
    ensures |r| == |s| && r[i] == s[j] && r[j] == s[i]
    ensures forall k :: 0 <= k < |s| && k != i && k != j ==> r[k] == s[k]
  {
    s[i := s[j]][j := s[i]]
  }

  /** Swapping two entries keeps the multiset of values and their
      distinctness. */
  lemma SwapKeeps(s: seq<int>, i: nat, j: nat)
    requires i < |s| && j < |s|
    ensures multiset(Swap(s, i, j)) == multiset(s)
    ensures Distinct(s) ==> Distinct(Swap(s, i, j))
  {
    var r := Swap(s, i, j);
    if Distinct(s) {
      forall p, q | 0 <= p < q < |r|
        ensures r[p] != r[q]
      {
        var p' := if p == i then j else if p == j then i else p;
        var q' := if q == i then j else if q == j then i else q;
        assert r[p] == s[p'] && r[q] == s[q'] && p' != q';
      }
    }
  }

  /** Lines 601-603: give `i` and `j` their default entries, then swap
      the two entries. The keys gain `i` and `j` and nothing else, and the
      represented array has its positions `i` and `j` exchanged. */
  method SwapEntries(state: map<int, int>, i: int, j: int) returns (r: map<int, int>)
    ensures r.Keys == state.Keys + {i, j}
    ensures forall k ::
      Lookup(r, k) == (if k == j then Lookup(state, i) else if k == i then Lookup(state, j) else Lookup(state, k))
  {
    r := state;
    if i !in r { r := r[i := i]; }
    if j !in r { r := r[j := j]; }
    r := r[i := r[j]][j := r[i]];
  }

  /** A sequence over `[0, |s|)` with the identity's multiset and no repeated
      value is a permutation. */
  lemma PermutationFromMultiset(s: seq<int>)
    requires multiset(s) == multiset(seq(|s|, k => k)) && Distinct(s)
    ensures IsPermutation(s)
  {
    var identity := seq(|s|, k => k);
    forall k | 0 <= k < |s|
      ensures 0 <= s[k] < |s|
    {
      assert s[k] in multiset(identity);
    }
    forall v | 0 <= v < |s|
      ensures v in s
    {
      assert identity[v] == v;
      assert v in multiset(s);
    }
  }

  /** The array `[0, 1, ..., max - 1]` after round `i` has swapped its
      positions `i` and `cs[i]`, for each `i` of `cs` in turn: the array that
      the swap loop at lines 599-604 builds from the values `randomInt`
      returned. It is a permutation of `[0, max)`. */
  function Swaps(max: nat, cs: seq<int>): (s: seq<int>)
    requires |cs| <= max && forall i :: 0 <= i < |cs| ==> i <= cs[i] < max
    ensures |s| == max
    ensures multiset(s) == multiset(seq(max, k => k)) && Distinct(s)
    decreases |cs|
  {
    if cs == [] then seq(max, k => k)
    else
      var before := Swaps(max, cs[..|cs| - 1]);
      SwapKeeps(before, |cs| - 1, cs[|cs| - 1]);
      Swap(before, |cs| - 1, cs[|cs| - 1])
  }

  /** One more round of the swap loop extends `Swaps` by one swap. */
  lemma SwapsStep(max: nat, choices: seq<int>, i: nat)
    requires i < |choices| <= max && forall k :: 0 <= k < |choices| ==> k <= choices[k] < max
    ensures Swaps(max, choices[..i + 1]) == Swap(Swaps(max, choices[..i]), i, choices[i])
  {
    assert choices[..i + 1][..i] == choices[..i];
  }

  /** What holds after `i` rounds of the swap loop: `perm` is the array
      `state` stands for, a permutation of `[0, max)` as a multiset without
      repeats, and the keys are the first `i` positions plus positions
      below `max`. */
  ghost predicate Shuffled(state: map<int, int>, perm: seq<int>, i: int, max: nat)
  {
    && |perm| == max
    && (forall k :: 0 <= k < i ==> k in state)
    && (forall k :: k in state ==> 0 <= k < max)
    && (forall k :: 0 <= k < max ==> perm[k] == Lookup(state, k))
    && multiset(perm) == multiset(seq(max, k => k))
    && Distinct(perm)
  }

  /** One round of the loop keeps Shuffled, with positions `i` and `j` of
      the represented array exchanged. */
  lemma ShuffleStep(state: map<int, int>, r: map<int, int>, perm: seq<int>, i: nat, j: int, max: nat)
    requires Shuffled(state, perm, i, max) && i < max && i <= j < max
    requires r.Keys == state.Keys + {i, j}
    requires forall k ::
      Lookup(r, k) == (if k == j then Lookup(state, i) else if k == i then Lookup(state, j) else Lookup(state, k))
    ensures Shuffled(r, Swap(perm, i, j), i + 1, max)
  {
    SwapKeeps(perm, i, j);
  }

  /** The swap loop at lines 598-604. Afterwards the first `m` positions are
      keys of `state`, every key is an index below `max`, and the array the
      map stands for is the one the swaps with `choices` produce, a
      permutation of `[0, max)`. */
  method Shuffle(m: nat, max: nat, choices: seq<int>) returns (state: map<int, int>)
    requires m <= max && ValidChoices(m, max, choices)
    ensures forall k :: 0 <= k < m ==> k in state
    ensures forall k :: k in state ==> 0 <= k < max
    ensures Image(state, max) == Swaps(max, choices)
    ensures IsPermutation(Image(state, max))
  {
    state := map[];
    ghost var perm := seq(max, k => k);
    var i := 0;
    while i < m
      invariant 0 <= i <= m
      invariant Shuffled(state, perm, i, max)
      invariant perm == Swaps(max, choices[..i])
    {
      var j := choices[i];
      var next := SwapEntries(state, i, j);
      ShuffleStep(state, next, perm, i, j, max);
      SwapsStep(max, choices, i);
      state := next;
      perm := Swap(perm, i, j);
      i := i + 1;
    }
    assert choices[..i] == choices;
    assert Image(state, max) == perm;
    PermutationFromMultiset(perm);
  }
}
