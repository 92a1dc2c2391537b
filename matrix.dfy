/** The matrix multipliers: a sequential triple loop, and a tiled version in
    which every tile of the N×N result is filled by its own worker. Workers
    write disjoint cells and are all joined before the result is read, so the
    tiled version is modelled as a sequential loop over the tiles. Matrices
    are `array2<int>` with mathematical integers. */
module Matrix {
  import opened Tiling

  predicate IsSquare(M: array2<int>, n: nat)
  {
    M.Length0 == n && M.Length1 == n
  }

  /** Σ_{k < m} A[i, k] * B[k, j], accumulated with k ascending. */
  function Dot(A: array2<int>, B: array2<int>, i: nat, j: nat, m: nat): int
    reads A, B
    requires i < A.Length0 && m <= A.Length1 && m <= B.Length0 && j < B.Length1
    decreases m
  {
    if m == 0 then 0 else Dot(A, B, i, j, m - 1) + A[i, m - 1] * B[m - 1, j]
  }

  /** Row-major progress of the sequential loop: the cells before (i, j) hold
      the product, the others still hold the initial 0. */
  ghost predicate FilledBefore(C: array2<int>, A: array2<int>, B: array2<int>, n: nat, i: int, j: int)
    reads C, A, B
    requires IsSquare(C, n) && IsSquare(A, n) && IsSquare(B, n)
  {
    forall p, q :: 0 <= p < n && 0 <= q < n ==>
      C[p, q] == if p < i || (p == i && q < j) then Dot(A, B, p, q, n) else 0
  }

  /** Tile (r, c) comes before tile (blockRow, blockCol) in the tile loops. */
  predicate TileBefore(r: int, c: int, blockRow: int, blockCol: int)
  {
    r < blockRow || (r == blockRow && c < blockCol)
  }

  /** Progress of the tile loops: the cells of the tiles already handled hold
      the product, the others still hold the initial 0. */
  ghost predicate TilesFilledBefore(C: array2<int>, A: array2<int>, B: array2<int>, n: nat,
                                    blockSize: nat, blockRow: int, blockCol: int)
    reads C, A, B
    requires IsSquare(C, n) && IsSquare(A, n) && IsSquare(B, n) && blockSize >= 1
  {
    forall p, q :: 0 <= p < n && 0 <= q < n ==>
      C[p, q] == if TileBefore(p / blockSize, q / blockSize, blockRow, blockCol)
                 then Dot(A, B, p, q, n) else 0
  }

  class MatrixMultiplier {
    const n: nat

    constructor(size: nat)
      ensures n == size
    {
      n := size;
    }

    /** C = A × B by the textbook triple loop, `C[i][j] += A[i][k] * B[k][j]`. */
    method MultiplySequential(A: array2<int>, B: array2<int>) returns (C: array2<int>)
      requires IsSquare(A, n) && IsSquare(B, n)
      ensures fresh(C) && IsSquare(C, n)
      ensures forall p, q :: 0 <= p < n && 0 <= q < n ==> C[p, q] == Dot(A, B, p, q, n)
    {
      C := new int[n, n]((_, _) => 0);
      for i := 0 to n
        invariant FilledBefore(C, A, B, n, i, 0)
      {
        for j := 0 to n
          invariant FilledBefore(C, A, B, n, i, j)
        {
          for k := 0 to n
            invariant C[i, j] == Dot(A, B, i, j, k)
            invariant forall p, q :: 0 <= p < n && 0 <= q < n && (p != i || q != j) ==>
              C[p, q] == if p < i || (p == i && q < j) then Dot(A, B, p, q, n) else 0
          {
            C[i, j] := C[i, j] + A[i, k] * B[k, j];
          }
        }
      }
    }

    /** One worker: every cell of the tile [startRow, endRow) × [startCol, endCol)
        gets the dot product of its row of A and its column of B; no other cell
        of C changes. */
    method ProcessBlock(A: array2<int>, B: array2<int>, C: array2<int>,
                        startRow: nat, endRow: nat, startCol: nat, endCol: nat)
      requires IsSquare(A, n) && IsSquare(B, n) && IsSquare(C, n) && C != A && C != B
      requires endRow <= n && endCol <= n
      modifies C
      ensures forall p, q :: 0 <= p < n && 0 <= q < n ==>
        C[p, q] == if startRow <= p < endRow && startCol <= q < endCol
                   then Dot(A, B, p, q, n) else old(C[p, q])
    {
      var i := startRow;
      while i < endRow
        invariant startRow <= i && (i == startRow || i <= endRow)
        invariant forall p, q :: 0 <= p < n && 0 <= q < n ==>
          C[p, q] == if startRow <= p < i && p < endRow && startCol <= q < endCol
                     then Dot(A, B, p, q, n) else old(C[p, q])
      {
        var j := startCol;
        while j < endCol
          invariant startCol <= j && (j == startCol || j <= endCol)
          invariant forall p, q :: 0 <= p < n && 0 <= q < n ==>
            C[p, q] == if (startRow <= p < i && startCol <= q < endCol) || (p == i && startCol <= q < j)
                       then Dot(A, B, p, q, n) else old(C[p, q])
        {
          var sum := 0;
          for k := 0 to n
            invariant sum == Dot(A, B, i, j, k)
          {
            sum := sum + A[i, k] * B[k, j];
          }
          C[i, j] := sum;
          j := j + 1;
        }
        i := i + 1;
      }
    }

    /** The block-parallel multiplication: one worker per tile, tile ends
        computed by `rule`. Returns the product and the number of workers. */
    method MultiplyTiled(A: array2<int>, B: array2<int>, blockSize: nat, rule: EndRule)
      returns (C: array2<int>, workers: nat)
      requires IsSquare(A, n) && IsSquare(B, n) && blockSize >= 1
      ensures fresh(C) && IsSquare(C, n)
      ensures forall p, q :: 0 <= p < n && 0 <= q < n ==> C[p, q] == Dot(A, B, p, q, n)
      ensures workers == NumBlocks(n, blockSize) * NumBlocks(n, blockSize)
    {
      C := new int[n, n]((_, _) => 0);
      var numBlocks := (n + blockSize - 1) / blockSize;
      workers := 0;
      forall p, q | 0 <= p < n && 0 <= q < n
        ensures !TileBefore(p / blockSize, q / blockSize, 0, 0)
      {
      }
      for blockRow := 0 to numBlocks
        invariant TilesFilledBefore(C, A, B, n, blockSize, blockRow, 0)
        invariant workers == blockRow * numBlocks
      {
        ghost var rowStart := workers;
        for blockCol := 0 to numBlocks
          invariant TilesFilledBefore(C, A, B, n, blockSize, blockRow, blockCol)
          invariant workers == rowStart + blockCol
        {
          var startRow := blockRow * blockSize;
          var endRow := TileEnd(rule, blockRow, blockSize, n);
          var startCol := blockCol * blockSize;
          var endCol := TileEnd(rule, blockCol, blockSize, n);
          TileBounds(rule, blockRow, blockSize, n);
          TileBounds(rule, blockCol, blockSize, n);
          ProcessBlock(A, B, C, startRow, endRow, startCol, endCol);
          forall p, q | 0 <= p < n && 0 <= q < n
            ensures TileBefore(p / blockSize, q / blockSize, blockRow, blockCol + 1) <==>
              TileBefore(p / blockSize, q / blockSize, blockRow, blockCol) ||
              (startRow <= p < endRow && startCol <= q < endCol)
          {
            NextTile(p, q, rule, blockRow, blockCol, blockSize, n);
          }
          workers := workers + 1;
        }
        forall p, q | 0 <= p < n && 0 <= q < n
          ensures TileBefore(p / blockSize, q / blockSize, blockRow, numBlocks) <==>
                  TileBefore(p / blockSize, q / blockSize, blockRow + 1, 0)
        {
          TileOfIndexVisited(q, blockSize, n);
        }
        MulSuccessor(blockRow, numBlocks);
      }
      forall p, q | 0 <= p < n && 0 <= q < n
        ensures TileBefore(p / blockSize, q / blockSize, numBlocks, 0)
      {
        TileOfIndexVisited(p, blockSize, n);
      }
    }

    /** Cell-wise comparison of two N×N matrices, stopping at the first difference. */
    method AreMatricesEqual(X: array2<int>, Y: array2<int>) returns (equal: bool)
      requires IsSquare(X, n) && IsSquare(Y, n)
      ensures equal <==> forall p, q :: 0 <= p < n && 0 <= q < n ==> X[p, q] == Y[p, q]
    {
      for i := 0 to n
        invariant forall p, q :: 0 <= p < i && 0 <= q < n ==> X[p, q] == Y[p, q]
      {
        for j := 0 to n
          invariant forall q :: 0 <= q < j ==> X[i, q] == Y[i, q]
        {
          if X[i, j] != Y[i, j] {
            return false;
          }
        }
      }
      return true;
    }

    /** One benchmark round without the timing: the tiled result is compared
        with the sequential one, and the comparison always succeeds. */
    method TestBlockSize(A: array2<int>, B: array2<int>, blockSize: nat, rule: EndRule)
      returns (correct: bool)
      requires IsSquare(A, n) && IsSquare(B, n) && blockSize >= 1
      ensures correct
    {
      var sequential := MultiplySequential(A, B);
      var tiled, _ := MultiplyTiled(A, B, blockSize, rule);
      correct := AreMatricesEqual(sequential, tiled);
    }
  }

  /** Handling tile (blockRow, blockCol) adds exactly the cells of that tile
      to those already handled. */
  lemma NextTile(p: nat, q: nat, rule: EndRule, blockRow: nat, blockCol: nat, blockSize: nat, n: nat)
    requires blockSize >= 1 && p < n && q < n
    ensures TileBefore(p / blockSize, q / blockSize, blockRow, blockCol + 1) <==>
      TileBefore(p / blockSize, q / blockSize, blockRow, blockCol) ||
      (TileStart(blockRow, blockSize) <= p < TileEnd(rule, blockRow, blockSize, n) &&
       TileStart(blockCol, blockSize) <= q < TileEnd(rule, blockCol, blockSize, n))
  {
    TileEndAgree(rule, blockRow, blockSize, n);
    TileEndAgree(rule, blockCol, blockSize, n);
    TileOfIndex(p, blockRow, blockSize, n);
    TileOfIndex(q, blockCol, blockSize, n);
  }

  lemma MulSuccessor(a: int, b: int)
    ensures a * b + b == (a + 1) * b
  {
  }

  /** With entries in 0..9, as the benchmark fills them, every partial sum of a
      dot product lies in [0, 81 m]. */
  lemma {:induction false} DotBound(A: array2<int>, B: array2<int>, i: nat, j: nat, m: nat)
    requires i < A.Length0 && m <= A.Length1 && m <= B.Length0 && j < B.Length1
    requires forall p, q :: 0 <= p < A.Length0 && 0 <= q < A.Length1 ==> 0 <= A[p, q] <= 9
    requires forall p, q :: 0 <= p < B.Length0 && 0 <= q < B.Length1 ==> 0 <= B[p, q] <= 9
    ensures 0 <= Dot(A, B, i, j, m) <= 81 * m
    decreases m
  {
    if m > 0 {
      DotBound(A, B, i, j, m - 1);
      var a, b := A[i, m - 1], B[m - 1, j];
      assert 0 <= a * b <= 81 by {
        assert 0 <= a <= 9 && 0 <= b <= 9;
        assert a * b <= 9 * b <= 81;
      }
    }
  }

  /** Hence for N ≤ 500 no partial sum leaves the range of a 32-bit `int`. */
  lemma BenchmarkSumsFitInt32(A: array2<int>, B: array2<int>, i: nat, j: nat, m: nat)
    requires i < A.Length0 && m <= A.Length1 && m <= B.Length0 && j < B.Length1 && m <= 500
    requires forall p, q :: 0 <= p < A.Length0 && 0 <= q < A.Length1 ==> 0 <= A[p, q] <= 9
    requires forall p, q :: 0 <= p < B.Length0 && 0 <= q < B.Length1 ==> 0 <= B[p, q] <= 9
    ensures 0 <= Dot(A, B, i, j, m) < 0x8000_0000
  {
    DotBound(A, B, i, j, m);
  }
}
