/**
  Board geometry of a generalised Sudoku: a board of N x N cells made of
  blocks of blockH rows by blockW columns, N = blockH * blockW. Cells are
  numbered row-major: cell n sits at column n % N and row n / N.
 */
module Geometry {

  datatype Shape = Shape(blockH: nat, blockW: nat) {
    predicate Valid() {
      blockH >= 1 && blockW >= 1
    }

    /** Length of a row, a column and a block. */
    function N(): nat {
      blockH * blockW
    }

    /** Number of cells on the board. */
    function Size(): nat {
      N() * N()
    }
  }

  /** Arithmetic helpers (Dafny's / and % are Euclidean; all operands here are non-negative). */

  lemma MulPositive(a: int, b: int)
    requires a >= 1 && b >= 1
    ensures a * b >= 1 && a * b >= a && a * b >= b
  {
  }

  lemma MulDistrib(a: int, b: int, c: int)
    ensures (a - b) * c == a * c - b * c
  {
  }

  lemma MulLess(a: int, b: int, c: int)
    requires 0 <= a < b && c >= 1
    ensures a * c + c <= b * c
  {
    MulDistrib(b, a, c);
    MulPositive(b - a, c);
  }

  lemma DivModUnique(x: int, d: int, q: int, r: int)
    requires d >= 1 && 0 <= r < d && x == q * d + r
    ensures x / d == q && x % d == r
  {
    var q0, r0 := x / d, x % d;
    assert q0 * d + r0 == q * d + r;
    MulDistrib(q0, q, d);
    MulDistrib(q, q0, d);
    if q0 - q >= 1 {
      MulPositive(q0 - q, d);
    } else if q - q0 >= 1 {
      MulPositive(q - q0, d);
    }
  }

  lemma ShapeFacts(sh: Shape)
    requires sh.Valid()
    ensures sh.N() >= 1 && sh.N() >= sh.blockH && sh.N() >= sh.blockW
    ensures sh.Size() >= sh.N()
  {
    MulPositive(sh.blockH, sh.blockW);
    MulPositive(sh.N(), sh.N());
  }

  /** getRow: the row of cell n. */
  function Row(sh: Shape, n: int): int
    requires sh.Valid()
  {
    ShapeFacts(sh);
    n / sh.N()
  }

  /** getCol: the column of cell n. */
  function Col(sh: Shape, n: int): int
    requires sh.Valid()
  {
    ShapeFacts(sh);
    n % sh.N()
  }

  /** getN: the number of the cell at (col, row). */
  function Index(sh: Shape, col: int, row: int): int {
    row * sh.N() + col
  }

  predicate InBoard(sh: Shape, col: int, row: int) {
    0 <= col < sh.N() && 0 <= row < sh.N()
  }

  /** getN(getCol(n), getRow(n)) == n, and the coordinates lie on the board. */
  lemma CellCoordinates(sh: Shape, n: int)
    requires sh.Valid() && 0 <= n < sh.Size()
    ensures InBoard(sh, Col(sh, n), Row(sh, n))
    ensures Index(sh, Col(sh, n), Row(sh, n)) == n
  {
    ShapeFacts(sh);
    var N := sh.N();
    assert n == (n / N) * N + n % N;
  }

  /** getCol(getN(c, r)) == c and getRow(getN(c, r)) == r for every on-board (c, r). */
  lemma IndexCoordinates(sh: Shape, col: int, row: int)
    requires sh.Valid() && InBoard(sh, col, row)
    ensures 0 <= Index(sh, col, row) < sh.Size()
    ensures Col(sh, Index(sh, col, row)) == col
    ensures Row(sh, Index(sh, col, row)) == row
  {
    ShapeFacts(sh);
    var N := sh.N();
    DivModUnique(Index(sh, col, row), N, row, col);
    MulLess(row, N, N);
  }

  /** Two cells share a row, a column or a block (a cell shares all three with itself). */
  predicate SameUnit(sh: Shape, p: int, q: int)
    requires sh.Valid()
  {
    Row(sh, p) == Row(sh, q)
    || Col(sh, p) == Col(sh, q)
    || (Col(sh, p) / sh.blockW == Col(sh, q) / sh.blockW
        && Row(sh, p) / sh.blockH == Row(sh, q) / sh.blockH)
  }

  /** q is another cell in p's row, column or block. */
  predicate Peer(sh: Shape, p: int, q: int)
    requires sh.Valid()
  {
    p != q && SameUnit(sh, p, q)
  }

  /** The column loop of the C scans: cells (col, 0), ..., (col, N-1). */
  function ColumnCells(sh: Shape, col: int): seq<int> {
    seq(sh.N(), i => Index(sh, col, i))
  }

  /** The row loop: cells (0, row), ..., (N-1, row). */
  function RowCells(sh: Shape, row: int): seq<int> {
    seq(sh.N(), i => Index(sh, i, row))
  }

  /** The block loop: column offset i outer, row offset j inner, from the block's corner. */
  function BlockCells(sh: Shape, col: int, row: int): seq<int>
    requires sh.Valid()
  {
    var xx := col - col % sh.blockW;
    var yy := row - row % sh.blockH;
    seq(sh.blockW * sh.blockH, t => Index(sh, xx + t / sh.blockH, yy + t % sh.blockH))
  }

  /**
    The cells a row/column/block scan of cell k visits, in the order the
    C loops visit them. Cell k itself appears (once per loop); every loop
    body skips it.
   */
  function Scan(sh: Shape, k: int): seq<int>
    requires sh.Valid()
  {
    ColumnCells(sh, Col(sh, k)) + RowCells(sh, Row(sh, k)) + BlockCells(sh, Col(sh, k), Row(sh, k))
  }

  lemma MulMono(a: int, b: int, c: int)
    requires a <= b && c >= 0
    ensures a * c <= b * c
  {
    MulDistrib(b, a, c);
    assert (b - a) * c >= 0;
  }

  /** x / b < a whenever 0 <= x < a * b. */
  lemma DivLess(x: int, a: int, b: int)
    requires b >= 1 && 0 <= x < a * b
    ensures 0 <= x / b < a
  {
    var q := x / b;
    assert x == q * b + x % b;
    if q >= a {
      MulMono(a, q, b);
    }
    if q < 0 {
      MulMono(q, -1, b);
    }
  }

  lemma BlockCorner(sh: Shape, col: int, row: int)
    requires sh.Valid() && InBoard(sh, col, row)
    ensures col - col % sh.blockW == (col / sh.blockW) * sh.blockW
    ensures row - row % sh.blockH == (row / sh.blockH) * sh.blockH
    ensures 0 <= col / sh.blockW < sh.blockH
    ensures 0 <= row / sh.blockH < sh.blockW
  {
    var h, w := sh.blockH, sh.blockW;
    assert col == (col / w) * w + col % w;
    assert row == (row / h) * h + row % h;
    DivLess(col, h, w);
    DivLess(row, w, h);
  }

  /** Block cell number t of the block holding (col, row) is on the board and in that block. */
  lemma BlockCellFacts(sh: Shape, col: int, row: int, t: int)
    requires sh.Valid() && InBoard(sh, col, row) && 0 <= t < sh.blockW * sh.blockH
    ensures var c := col - col % sh.blockW + t / sh.blockH;
            var r := row - row % sh.blockH + t % sh.blockH;
            InBoard(sh, c, r) && c / sh.blockW == col / sh.blockW && r / sh.blockH == row / sh.blockH
  {
    var h, w := sh.blockH, sh.blockW;
    BlockCorner(sh, col, row);
    var i, j := t / h, t % h;
    DivLess(t, w, h);
    var bx, bY := col / w, row / h;
    var c := bx * w + i;
    var r := bY * h + j;
    DivModUnique(c, w, bx, i);
    DivModUnique(r, h, bY, j);
    MulLess(bx, h, w);
    MulLess(bY, w, h);
    assert c < h * w;
    assert r < w * h;
  }

  /** Cell number u of k's block scan is on the board and in k's block. */
  lemma BlockVisit(sh: Shape, k: int, u: int)
    requires sh.Valid() && 0 <= k < sh.Size() && 0 <= u < sh.blockW * sh.blockH
    ensures var q := BlockCells(sh, Col(sh, k), Row(sh, k))[u]; 0 <= q < sh.Size() && SameUnit(sh, k, q)
  {
    var h, w := sh.blockH, sh.blockW;
    var col, row := Col(sh, k), Row(sh, k);
    CellCoordinates(sh, k);
    BlockCellFacts(sh, col, row, u);
    var c := col - col % w + u / h;
    var r := row - row % h + u % h;
    assert BlockCells(sh, col, row)[u] == Index(sh, c, r);
    IndexCoordinates(sh, c, r);
  }

  /** Visit number t of Scan(k) is on the board and in a unit of k. */
  lemma ScanAt(sh: Shape, k: int, t: int)
    requires sh.Valid() && 0 <= k < sh.Size() && 0 <= t < |Scan(sh, k)|
    ensures 0 <= Scan(sh, k)[t] < sh.Size() && SameUnit(sh, k, Scan(sh, k)[t])
  {
    var N := sh.N();
    var col, row := Col(sh, k), Row(sh, k);
    CellCoordinates(sh, k);
    var cs, rs, bs := ColumnCells(sh, col), RowCells(sh, row), BlockCells(sh, col, row);
    assert Scan(sh, k) == cs + rs + bs;
    if t < N {
      assert Scan(sh, k)[t] == Index(sh, col, t);
      IndexCoordinates(sh, col, t);
    } else if t < 2 * N {
      assert Scan(sh, k)[t] == Index(sh, t - N, row);
      IndexCoordinates(sh, t - N, row);
    } else {
      assert Scan(sh, k)[t] == bs[t - 2 * N];
      BlockVisit(sh, k, t - 2 * N);
    }
  }

  /** Every cell Scan(k) visits is on the board and in a unit of k. */
  lemma ScanSound(sh: Shape, k: int)
    requires sh.Valid() && 0 <= k < sh.Size()
    ensures forall t :: 0 <= t < |Scan(sh, k)| ==> 0 <= Scan(sh, k)[t] < sh.Size() && SameUnit(sh, k, Scan(sh, k)[t])
  {
    forall t | 0 <= t < |Scan(sh, k)|
      ensures 0 <= Scan(sh, k)[t] < sh.Size() && SameUnit(sh, k, Scan(sh, k)[t])
    {
      ScanAt(sh, k, t);
    }
  }

  /** Every cell in a unit of k is visited by Scan(k). */
  lemma ScanComplete(sh: Shape, k: int)
    requires sh.Valid() && 0 <= k < sh.Size()
    ensures forall q :: 0 <= q < sh.Size() && SameUnit(sh, k, q) ==> q in Scan(sh, k)
  {
    var N, h, w := sh.N(), sh.blockH, sh.blockW;
    var col, row := Col(sh, k), Row(sh, k);
    CellCoordinates(sh, k);
    var cs, rs, bs := ColumnCells(sh, col), RowCells(sh, row), BlockCells(sh, col, row);
    assert Scan(sh, k) == cs + rs + bs;
    forall q | 0 <= q < sh.Size() && SameUnit(sh, k, q)
      ensures q in Scan(sh, k)
    {
      CellCoordinates(sh, q);
      var qc, qr := Col(sh, q), Row(sh, q);
      if qc == col {
        assert cs[qr] == q;
        assert Scan(sh, k)[qr] == q;
      } else if qr == row {
        assert rs[qc] == q;
        assert Scan(sh, k)[N + qc] == q;
      } else {
        assert qc / w == col / w && qr / h == row / h;
        BlockCorner(sh, col, row);
        BlockCorner(sh, qc, qr);
        var i, j := qc % w, qr % h;
        var u := i * h + j;
        MulLess(i, w, h);
        DivModUnique(u, h, i, j);
        assert qc == col - col % w + i;
        assert qr == row - row % h + j;
        assert bs[u] == Index(sh, qc, qr) == q;
        assert Scan(sh, k)[2 * N + u] == q;
      }
    }
  }

  /** Every cell in the same row, column or block as k is visited by Scan(k), and nothing else is. */
  lemma ScanMembers(sh: Shape, k: int)
    requires sh.Valid() && 0 <= k < sh.Size()
    ensures forall t :: 0 <= t < |Scan(sh, k)| ==> 0 <= Scan(sh, k)[t] < sh.Size() && SameUnit(sh, k, Scan(sh, k)[t])
    ensures forall q :: 0 <= q < sh.Size() && SameUnit(sh, k, q) ==> q in Scan(sh, k)
  {
    ScanSound(sh, k);
    ScanComplete(sh, k);
  }

  /** Every cell a scan visits is on the board. */
  lemma ScanInRange(sh: Shape, k: int)
    requires sh.Valid() && 0 <= k < sh.Size()
    ensures forall t :: 0 <= t < |Scan(sh, k)| ==> 0 <= Scan(sh, k)[t] < sh.Size()
  {
    ScanMembers(sh, k);
  }

  /** Apart from k itself, a scan of k visits exactly k's peers. */
  lemma ScanPeers(sh: Shape, k: int)
    requires sh.Valid() && 0 <= k < sh.Size()
    ensures forall q :: 0 <= q < sh.Size() && q != k ==> (q in Scan(sh, k) <==> Peer(sh, k, q))
  {
    ScanMembers(sh, k);
  }
}
