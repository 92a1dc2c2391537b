/** The list of block sizes each benchmark tries for a matrix of a given size:
    the powers of two 1, 2, 4, … not above the size, and then the size itself
    unless it is already the last of them. */
module BlockSizes {

  function Pow2(k: nat): nat
  {
    if k == 0 then 1 else 2 * Pow2(k - 1)
  }

  /** p, 2p, 4p, … while not above `size`. */
  function PowersFrom(p: nat, size: int): seq<int>
    requires p >= 1
    decreases size - p
  {
    if p > size then [] else [p] + PowersFrom(2 * p, size)
  }

  predicate StrictlyIncreasing(s: seq<int>)
  {
    forall a, b :: 0 <= a < b < |s| ==> s[a] < s[b]
  }

  lemma {:induction false} Pow2Increasing(j: nat, k: nat)
    requires j < k
    ensures 1 <= Pow2(j) < Pow2(k)
    decreases k
  {
    if j < k - 1 {
      Pow2Increasing(j, k - 1);
    } else {
      Pow2Positive(j);
    }
  }

  lemma {:induction false} Pow2Positive(k: nat)
    ensures Pow2(k) >= 1
  {
    if k > 0 {
      Pow2Positive(k - 1);
    }
  }

  lemma Pow2Monotone(j: nat, k: nat)
    ensures j <= k ==> Pow2(j) <= Pow2(k)
  {
    if j < k {
      Pow2Increasing(j, k);
    }
  }

  /** Element i of PowersFrom(p, size) is p · 2^i, and it is at most `size`. */
  lemma {:induction false} PowersFromAt(p: nat, size: int, i: nat)
    requires p >= 1 && i < |PowersFrom(p, size)|
    ensures PowersFrom(p, size)[i] == p * Pow2(i) <= size
    decreases i
  {
    if i > 0 {
      PowersFromAt(2 * p, size, i - 1);
      assert PowersFrom(p, size)[i] == PowersFrom(2 * p, size)[i - 1];
      assert (2 * p) * Pow2(i - 1) == p * (2 * Pow2(i - 1));
    }
  }

  /** The list stops at the first p · 2^m above `size`. */
  lemma {:induction false} PowersFromEnd(p: nat, size: int)
    requires p >= 1
    ensures p * Pow2(|PowersFrom(p, size)|) > size
    decreases size - p
  {
    if p <= size {
      var m := |PowersFrom(2 * p, size)|;
      PowersFromEnd(2 * p, size);
      assert (2 * p) * Pow2(m) == p * (2 * Pow2(m));
    }
  }

  /** Every power of two not above `size` is among the powers collected. */
  lemma PowersComplete(size: int, k: nat)
    requires Pow2(k) <= size
    ensures k < |PowersFrom(1, size)| && PowersFrom(1, size)[k] == Pow2(k)
  {
    PowersFromEnd(1, size);
    Pow2Monotone(|PowersFrom(1, size)|, k);
    PowersFromAt(1, size, k);
  }

  /** The powers of two up to `size`, then `size` unless it is already last. */
  function WithSize(size: int): seq<int>
  {
    var powers := PowersFrom(1, size);
    if powers == [] || powers[|powers| - 1] != size then powers + [size] else powers
  }

  /** The list ends with `size`, is strictly increasing, holds 2^i at every
      position i before the last, and contains every power of two not above
      `size`. */
  lemma WithSizeShape(size: int)
    ensures |WithSize(size)| > 0 && WithSize(size)[|WithSize(size)| - 1] == size
    ensures StrictlyIncreasing(WithSize(size))
    ensures forall i :: 0 <= i < |WithSize(size)| - 1 ==> WithSize(size)[i] == Pow2(i)
    ensures forall k: nat :: Pow2(k) <= size ==> Pow2(k) in WithSize(size)
  {
    var powers := PowersFrom(1, size);
    var sizes := WithSize(size);
    forall i | 0 <= i < |powers|
      ensures powers[i] == Pow2(i) <= size
    {
      PowersFromAt(1, size, i);
    }
    forall a, b | 0 <= a < b < |sizes|
      ensures sizes[a] < sizes[b]
    {
      if b < |powers| {
        Pow2Increasing(a, b);
      } else {
        Pow2Monotone(a, |powers| - 1);
      }
    }
    forall k: nat | Pow2(k) <= size
      ensures Pow2(k) in sizes
    {
      PowersComplete(size, k);
      assert sizes[k] == Pow2(k);
    }
  }

  /** The loop in `main`: powers of two up to `size`, then `size` if it is not
      already last. `WithSizeShape` states what that list looks like. */
  method BlockSizes(size: int) returns (sizes: seq<int>)
    ensures sizes == WithSize(size)
  {
    sizes := [];
    var blockSize := 1;
    while blockSize <= size
      invariant blockSize >= 1
      invariant sizes + PowersFrom(blockSize, size) == PowersFrom(1, size)
      decreases size - blockSize
    {
      if blockSize > size {
        break;
      }
      assert PowersFrom(blockSize, size) == [blockSize] + PowersFrom(2 * blockSize, size);
      assert (sizes + [blockSize]) + PowersFrom(2 * blockSize, size) == sizes + PowersFrom(blockSize, size);
      sizes := sizes + [blockSize];
      blockSize := blockSize * 2;
    }
    assert PowersFrom(blockSize, size) == [];
    assert sizes == PowersFrom(1, size);
    if sizes == [] || sizes[|sizes| - 1] != size {
      sizes := sizes + [size];
    }
  }
}
