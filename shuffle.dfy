/**
  The in-place sort with a random comparator that shuffles the answer options.

  Whatever order the engine's sort visits elements in and whatever the comparator answers,
  the sort only rearranges the array it is given. The model makes that rearrangement
  explicit: the sort performs a sequence of transpositions, and the random answers of the
  comparator are the caller-supplied choice of which transpositions happen.
*/
module Shuffle {

  /** Exchange the elements at the two positions of `p`; a pair outside the sequence does nothing. */
  function Swap<T>(s: seq<T>, p: (nat, nat)): seq<T> {
    if p.0 < |s| && p.1 < |s| then s[p.0 := s[p.1]][p.1 := s[p.0]] else s
  }

  /** The transpositions applied in order, first pair first. */
  function ApplySwaps<T>(s: seq<T>, swaps: seq<(nat, nat)>): seq<T>
    decreases |swaps|
  {
    if swaps == [] then s else ApplySwaps(Swap(s, swaps[0]), swaps[1..])
  }

  lemma SwapPermutes<T>(s: seq<T>, p: (nat, nat))
    ensures |Swap(s, p)| == |s|
    ensures multiset(Swap(s, p)) == multiset(s)
  {
  }

  /** Any sequence of transpositions yields a permutation of its input: same length, same
      elements with the same multiplicities. */
  lemma {:induction false} ApplySwapsPermutes<T>(s: seq<T>, swaps: seq<(nat, nat)>)
    ensures |ApplySwaps(s, swaps)| == |s|
    ensures multiset(ApplySwaps(s, swaps)) == multiset(s)
    decreases |swaps|
  {
    if swaps != [] {
      SwapPermutes(s, swaps[0]);
      ApplySwapsPermutes(Swap(s, swaps[0]), swaps[1..]);
    }
  }

  /** `options.sort(() => Math.random() - 0.5)`: rearranges `a` in place. */
  method RandomSort(a: array<string>, swaps: seq<(nat, nat)>)
    modifies a
    ensures a[..] == ApplySwaps(old(a[..]), swaps)
    ensures multiset(a[..]) == multiset(old(a[..]))
  {
    var k := 0;
    while k < |swaps|
      invariant 0 <= k <= |swaps|
      invariant ApplySwaps(a[..], swaps[k..]) == ApplySwaps(old(a[..]), swaps)
    {
      var i, j := swaps[k].0, swaps[k].1;
      ghost var before := a[..];
      assert swaps[k..][1..] == swaps[k + 1..];
      if i < a.Length && j < a.Length {
        var t := a[i];
        a[i] := a[j];
        a[j] := t;
      }
      assert a[..] == Swap(before, swaps[k]);
      k := k + 1;
    }
    assert swaps[k..] == [];
    ApplySwapsPermutes(old(a[..]), swaps);
  }
}
