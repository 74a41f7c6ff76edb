/** The bubble sort of a bucket table by block size, which swaps sizes in place by exclusive-or. */
module BucketSort {
  import opened Bits
  import opened PoolModel

  function SizesOf(table: seq<Bucket>): (r: seq<size_t>)
    ensures |r| == |table|
    ensures forall i :: 0 <= i < |table| ==> r[i] == table[i].blockSize
  {
    seq(|table|, i requires 0 <= i < |table| => table[i].blockSize)
  }

  /** Only the sizes are set, as they are while a record is initialized. */
  predicate Unused(table: seq<Bucket>) {
    forall i :: 0 <= i < |table| ==> table[i] == Bucket(table[i].blockSize, 0, 0, 0, 0)
  }

  /** From position m on every size is as large as all before it. */
  predicate SettledFrom(s: seq<size_t>, m: int) {
    forall i, j :: 0 <= i < j < |s| && m <= j ==> s[i] <= s[j]
  }

  function Swapped(s: seq<size_t>, i: nat): (r: seq<size_t>)
    requires i + 1 < |s|
    ensures |r| == |s|
  {
    s[i := s[i + 1]][i + 1 := s[i]]
  }

  lemma SwapKeeps(s: seq<size_t>, i: nat)
    requires i + 1 < |s|
    ensures multiset(Swapped(s, i)) == multiset(s)
  {
    assert s == s[..i] + [s[i], s[i + 1]] + s[i + 2..];
    assert Swapped(s, i) == s[..i] + [s[i + 1], s[i]] + s[i + 2..];
  }

  /** A pass over the pairs before position i: the largest size so far has been carried to i - 1. */
  predicate PassState(s: seq<size_t>, i: nat, m: nat, swaps: nat)
    requires 1 <= i <= |s| && m <= |s|
  {
    && SettledFrom(s, m)
    && (forall k :: 0 <= k < i - 1 ==> s[k] <= s[i - 1])
    && (0 < m <= i ==> forall k :: 0 <= k < m - 1 ==> s[k] <= s[m - 1])
    && (swaps == 0 ==> forall k :: 0 < k < i ==> s[k - 1] <= s[k])
    && (swaps > 0 ==> m > 0)
  }

  lemma PassSwap(s: seq<size_t>, i: nat, m: nat, swaps: nat)
    requires 1 <= i < |s| && m <= |s| && PassState(s, i, m, swaps) && s[i - 1] > s[i]
    ensures PassState(Swapped(s, i - 1), i + 1, m, swaps + 1)
  {
    assert i < m;
  }

  lemma SizesSwapped(before: seq<Bucket>, after: seq<Bucket>, i: nat)
    requires |after| == |before| && i + 1 < |before|
    requires after == before[i := before[i].(blockSize := before[i + 1].blockSize)]
                            [i + 1 := before[i + 1].(blockSize := before[i].blockSize)]
    ensures SizesOf(after) == Swapped(SizesOf(before), i)
    ensures Unused(before) ==> Unused(after)
  {}

  /** The three exclusive-or assignments exchange two sizes. */
  method SwapSizes(table: array<Bucket>, i: nat)
    requires i + 1 < table.Length
    modifies table
    ensures table[..] == old(table[..])[i := old(table[i]).(blockSize := old(table[i + 1].blockSize))]
                                       [i + 1 := old(table[i + 1]).(blockSize := old(table[i].blockSize))]
  {
    hide Xor;
    ghost var a, b := table[i].blockSize, table[i + 1].blockSize;
    XorWord(a, b);
    XorCancel(a, b);
    table[i] := table[i].(blockSize := Xor(table[i].blockSize, table[i + 1].blockSize));
    table[i + 1] := table[i + 1].(blockSize := Xor(table[i + 1].blockSize, table[i].blockSize));
    table[i] := table[i].(blockSize := Xor(table[i].blockSize, table[i + 1].blockSize));
  }

  lemma PassStay(s: seq<size_t>, i: nat, m: nat, swaps: nat)
    requires 1 <= i < |s| && m <= |s| && PassState(s, i, m, swaps) && s[i - 1] <= s[i]
    ensures PassState(s, i + 1, m, swaps)
  {}

  lemma PassStart(s: seq<size_t>, m: nat)
    requires 1 <= |s| && m <= |s| && SettledFrom(s, m)
    ensures PassState(s, 1, m, 0)
  {}

  lemma PassEnd(s: seq<size_t>, m: nat, swaps: nat)
    requires 1 <= |s| && m <= |s| && PassState(s, |s|, m, swaps)
    ensures SettledFrom(s, m - 1) && (swaps == 0 ==> Ascending(s)) && (swaps > 0 ==> m > 0)
  {
    if swaps == 0 { AdjacentAscending(s); }
  }

  /** One pass over adjacent pairs settles the largest size not settled yet. */
  method Pass(table: array<Bucket>, n: nat, ghost m: nat) returns (swaps: nat)
    requires m <= n <= table.Length && 1 <= n && Unused(table[..n]) && SettledFrom(SizesOf(table[..n]), m)
    modifies table
    ensures Unused(table[..n]) && multiset(SizesOf(table[..n])) == old(multiset(SizesOf(table[..n])))
    ensures table[n..] == old(table[n..])
    ensures SettledFrom(SizesOf(table[..n]), m - 1)
    ensures swaps == 0 ==> Ascending(SizesOf(table[..n]))
    ensures swaps > 0 ==> m > 0
  {
    hide PassState; hide SettledFrom; hide Ascending; hide Swapped;
    swaps := 0;
    PassStart(SizesOf(table[..n]), m);
    ghost var sizes := SizesOf(table[..n]);
    var i := 1;
    while i < n
      invariant 1 <= i <= n
      invariant Unused(table[..n]) && sizes == SizesOf(table[..n])
      invariant multiset(sizes) == old(multiset(SizesOf(table[..n]))) && table[n..] == old(table[n..])
      invariant PassState(sizes, i, m, swaps)
    {
      if table[i - 1].blockSize > table[i].blockSize {
        PassSwap(sizes, i, m, swaps);
        SwapKeeps(sizes, i - 1);
        label L:
        SwapSizes(table, i - 1);
        SizesSwapped(old@L(table[..n]), table[..n], i - 1);
        sizes := Swapped(sizes, i - 1);
        swaps := swaps + 1;
      } else {
        PassStay(sizes, i, m, swaps);
      }
      i := i + 1;
    }
    PassEnd(sizes, m, swaps);
  }

  lemma AdjacentAscending(s: seq<size_t>)
    requires forall k :: 0 < k < |s| ==> s[k - 1] <= s[k]
    ensures Ascending(s)
  {
    forall i, j | 0 <= i < j < |s| ensures s[i] <= s[j] {
      AdjacentLeq(s, i, j);
    }
  }

  lemma {:induction false} AdjacentLeq(s: seq<size_t>, i: nat, j: nat)
    requires forall k :: 0 < k < |s| ==> s[k - 1] <= s[k]
    requires i <= j < |s|
    ensures s[i] <= s[j]
    decreases j
  {
    if i < j { AdjacentLeq(s, i, j - 1); }
  }

  /** Sorts the first n entries: passes until one makes no swap. */
  method Sort(table: array<Bucket>, n: nat)
    requires 1 <= n <= table.Length && Unused(table[..n])
    modifies table
    ensures Unused(table[..n]) && Ascending(SizesOf(table[..n]))
    ensures multiset(SizesOf(table[..n])) == old(multiset(SizesOf(table[..n])))
    ensures table[n..] == old(table[n..])
  {
    ghost var m := n;
    var swaps := Pass(table, n, m);
    while swaps > 0
      invariant m <= n && Unused(table[..n]) && SettledFrom(SizesOf(table[..n]), m - 1)
      invariant multiset(SizesOf(table[..n])) == old(multiset(SizesOf(table[..n]))) && table[n..] == old(table[n..])
      invariant swaps == 0 ==> Ascending(SizesOf(table[..n]))
      invariant swaps > 0 ==> m > 0
      decreases m, swaps
    {
      m := m - 1;
      swaps := Pass(table, n, m);
    }
  }
}
