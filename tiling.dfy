/** How the block-parallel multipliers cut the N×N index space into tiles.
    Along each dimension there are `NumBlocks(n, blockSize)` tiles; tile `b`
    covers the half-open range `[b * blockSize, end)`, where the three
    programs compute `end` in three different ways. */
module Tiling {

  function Min(a: int, b: int): int
  {
    if a < b then a else b
  }

  /** `(N + blockSize - 1) / blockSize`, the number of tiles per dimension. */
  function NumBlocks(n: nat, blockSize: nat): nat
    requires blockSize >= 1
  {
    (n + blockSize - 1) / blockSize
  }

  /** The three ways the programs clip a tile's end to N. */
  datatype EndRule =
    | Ternary  // (start + blockSize < N) ? start + blockSize : N
    | StdMin   // std::min(start + blockSize, N)
    | Clip     // end = (block + 1) * blockSize; if (end > N) end = N;

  function TileStart(block: nat, blockSize: nat): nat
  {
    block * blockSize
  }

  function TileEnd(rule: EndRule, block: nat, blockSize: nat, n: nat): int
  {
    var start := block * blockSize;
    match rule
    case Ternary => if start + blockSize < n then start + blockSize else n
    case StdMin => Min(start + blockSize, n)
    case Clip => var end := (block + 1) * blockSize; if end > n then n else end
  }

  /** Cell index `i` lies in tile `block` along one dimension. */
  predicate InTile(i: int, block: nat, blockSize: nat, n: nat)
  {
    TileStart(block, blockSize) <= i < Min(TileStart(block, blockSize) + blockSize, n)
  }

  /** The tile count is the ceiling of N / blockSize: the tiles reach N, and
      the last tile starts below N. */
  lemma NumBlocksIsCeiling(n: nat, blockSize: nat)
    requires blockSize >= 1
    ensures NumBlocks(n, blockSize) * blockSize >= n
    ensures (NumBlocks(n, blockSize) - 1) * blockSize < n
    ensures n == 0 <==> NumBlocks(n, blockSize) == 0
  {
    var m := n + blockSize - 1;
    var q, r := m / blockSize, m % blockSize;
    assert m == q * blockSize + r && 0 <= r < blockSize;
    assert (q - 1) * blockSize == q * blockSize - blockSize;
  }

  /** All three end formulas give `min(start + blockSize, N)`. */
  lemma {:induction false} TileEndAgree(rule: EndRule, block: nat, blockSize: nat, n: nat)
    ensures TileEnd(rule, block, blockSize, n) == Min(TileStart(block, blockSize) + blockSize, n)
  {
    assert (block + 1) * blockSize == block * blockSize + blockSize;
  }

  /** Every tile the loops visit is non-empty and lies inside `[0, N)`. */
  lemma TileBounds(rule: EndRule, block: nat, blockSize: nat, n: nat)
    requires blockSize >= 1 && block < NumBlocks(n, blockSize)
    ensures 0 <= TileStart(block, blockSize) < TileEnd(rule, block, blockSize, n) <= n
  {
    TileEndAgree(rule, block, blockSize, n);
    NumBlocksIsCeiling(n, blockSize);
    assert block * blockSize <= (NumBlocks(n, blockSize) - 1) * blockSize;
  }

  /** `i` lies in tile `block` exactly when `block` is `i / blockSize`. */
  lemma TileOfIndex(i: nat, block: nat, blockSize: nat, n: nat)
    requires blockSize >= 1 && i < n
    ensures InTile(i, block, blockSize, n) <==> block == i / blockSize
  {
    var q := i / blockSize;
    assert q * blockSize <= i < q * blockSize + blockSize;
    if InTile(i, block, blockSize, n) {
      DivOfRange(i, block, blockSize);
    }
  }

  /** The quotient is the one block whose range holds `i`. */
  lemma DivOfRange(i: nat, b: nat, blockSize: nat)
    requires blockSize >= 1 && b * blockSize <= i < b * blockSize + blockSize
    ensures i / blockSize == b
  {
    var q := i / blockSize;
    assert q * blockSize <= i < q * blockSize + blockSize;
    assert (b + 1) * blockSize == b * blockSize + blockSize;
    assert (q + 1) * blockSize == q * blockSize + blockSize;
    MulMonotone(b + 1, q, blockSize);
    MulMonotone(q + 1, b, blockSize);
  }

  /** The index of the tile holding `i` is one the loops visit. */
  lemma TileOfIndexVisited(i: nat, blockSize: nat, n: nat)
    requires blockSize >= 1 && i < n
    ensures i / blockSize < NumBlocks(n, blockSize)
  {
    NumBlocksIsCeiling(n, blockSize);
    var q := i / blockSize;
    assert q * blockSize <= i;
    MulMonotone(NumBlocks(n, blockSize), q, blockSize);
  }

  lemma MulMonotone(a: int, b: int, c: nat)
    ensures a <= b ==> a * c <= b * c
  {
    assert b * c - a * c == (b - a) * c;
  }

  /** The tiles partition `[0, N) × [0, N)`: every cell lies in a visited tile,
      and in no other one. */
  lemma TilesPartition(i: nat, j: nat, blockSize: nat, n: nat)
    requires blockSize >= 1 && i < n && j < n
    ensures i / blockSize < NumBlocks(n, blockSize) && j / blockSize < NumBlocks(n, blockSize)
    ensures InTile(i, i / blockSize, blockSize, n) && InTile(j, j / blockSize, blockSize, n)
    ensures forall br: nat, bc: nat :: InTile(i, br, blockSize, n) && InTile(j, bc, blockSize, n)
              ==> br == i / blockSize && bc == j / blockSize
  {
    TileOfIndexVisited(i, blockSize, n);
    TileOfIndexVisited(j, blockSize, n);
    forall br: nat, bc: nat ensures InTile(i, br, blockSize, n) && InTile(j, bc, blockSize, n)
      ==> br == i / blockSize && bc == j / blockSize
    {
      TileOfIndex(i, br, blockSize, n);
      TileOfIndex(j, bc, blockSize, n);
    }
    TileOfIndex(i, i / blockSize, blockSize, n);
    TileOfIndex(j, j / blockSize, blockSize, n);
  }
}
