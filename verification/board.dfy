/**
  The game record and its cells (DataStructures.h), the duplicate relation
  that the error flags cache, and the cell-level helpers of AuxMethods.c:
  getCell/getCellN, nextEmptyCell, isErroneous and the demi-value helpers.
 */
module Board {
  import opened Geometry

  /** A board cell. demiVal is scratch space used by the search, autofill and generator. */
  datatype Cell = Cell(isFixed: bool, isError: bool, val: int, demiVal: int)

  /** One node of the move list: cell (col, row) went from oldVal to newVal. */
  datatype Move = Move(col: int, row: int, oldVal: int, newVal: int, user: bool)

  datatype Mode = Init | Solve | Edit

  /**
    The whole game state. moves[0] is the sentinel; moves[cur] is the current
    move; moves[cur+1..] is the redo branch.
   */
  datatype Game = Game(shape: Shape, mode: Mode, numFilled: int, board: seq<Cell>, moves: seq<Move>, cur: nat)

  /** What a command reports back instead of printing. */
  datatype Status =
    | Done
    | OutOfRange
    | FixedCell
    | HasValue
    | Erroneous
    | NotEmpty
    | NothingToUndo
    | NothingToRedo
    | Unsolvable
    | GeneratorFailed

  /** The sentinel node created by createGame. */
  const Sentinel := Move(0, 0, 0, 0, false)

  function Vals(b: seq<Cell>): seq<int> {
    seq(|b|, i requires 0 <= i < |b| => b[i].val)
  }

  function Demis(b: seq<Cell>): seq<int> {
    seq(|b|, i requires 0 <= i < |b| => b[i].demiVal)
  }

  /** getCell: the cell at (col, row), stored row by row. */
  function GetCell(sh: Shape, b: seq<Cell>, col: int, row: int): (c: Cell)
    requires sh.Valid() && InBoard(sh, col, row) && |b| == sh.Size()
    ensures 0 <= Index(sh, col, row) < |b| && c == b[Index(sh, col, row)]
    ensures Col(sh, Index(sh, col, row)) == col && Row(sh, Index(sh, col, row)) == row
  {
    IndexCoordinates(sh, col, row);
    b[Index(sh, col, row)]
  }

  /** getCellN: the n'th cell, counting left to right, then top to bottom. */
  function GetCellN(sh: Shape, b: seq<Cell>, n: int): (c: Cell)
    requires 0 <= n < |b|
    ensures c in b
  {
    b[n]
  }

  /** The n'th cell is the cell at the coordinates of n, and the cell at (col, row) is the cell numbered Index(col, row). */
  lemma GetCellAgree(sh: Shape, b: seq<Cell>, n: int, col: int, row: int)
    requires sh.Valid() && |b| == sh.Size() && 0 <= n < |b| && InBoard(sh, col, row)
    ensures InBoard(sh, Col(sh, n), Row(sh, n)) && GetCell(sh, b, Col(sh, n), Row(sh, n)) == GetCellN(sh, b, n)
    ensures 0 <= Index(sh, col, row) < |b| && GetCellN(sh, b, Index(sh, col, row)) == GetCell(sh, b, col, row)
  {
    CellCoordinates(sh, n);
    IndexCoordinates(sh, col, row);
  }

  /** Cell p holds a nonzero value that another cell of its row, column or block also holds. */
  predicate HasDup(sh: Shape, vs: seq<int>, p: int)
    requires sh.Valid()
  {
    0 <= p < |vs| && vs[p] != 0 && exists q :: 0 <= q < |vs| && Peer(sh, p, q) && vs[q] == vs[p]
  }

  /** Every error flag equals the duplicate relation of the current values. */
  ghost predicate Consistent(sh: Shape, b: seq<Cell>)
    requires sh.Valid()
  {
    forall p :: 0 <= p < |b| ==> b[p].isError == HasDup(sh, Vals(b), p)
  }

  /** No two cells of a row, column or block hold the same nonzero value. */
  ghost predicate NoDup(sh: Shape, vs: seq<int>)
    requires sh.Valid()
  {
    forall p :: 0 <= p < |vs| ==> !HasDup(sh, vs, p)
  }

  /** Number of nonzero values. */
  function CountFilled(vs: seq<int>): nat {
    if |vs| == 0 then 0 else CountFilled(vs[..|vs| - 1]) + (if vs[|vs| - 1] != 0 then 1 else 0)
  }

  /**
    The board with values vs and every error flag recomputed from scratch;
    fixed marks and demi-values are kept. This is the reference every
    incremental update of the error flags is measured against.
   */
  function Relabel(sh: Shape, b: seq<Cell>, vs: seq<int>): seq<Cell>
    requires sh.Valid() && |vs| == |b|
  {
    seq(|b|, i requires 0 <= i < |b| => Cell(b[i].isFixed, HasDup(sh, vs, i), vs[i], b[i].demiVal))
  }

  /** b' differs from b at most in error flags. */
  ghost predicate OnlyFlagsChange(b: seq<Cell>, b': seq<Cell>) {
    |b'| == |b|
    && forall i :: 0 <= i < |b| ==> b'[i] == b[i].(isError := b'[i].isError)
  }

  /** b' differs from b at most in demi-values. */
  ghost predicate OnlyDemisChange(b: seq<Cell>, b': seq<Cell>) {
    |b'| == |b|
    && forall i :: 0 <= i < |b| ==> b'[i] == b[i].(demiVal := b'[i].demiVal)
  }

  /** The board invariants: geometry, value range, cached flags and the fill counter. */
  ghost predicate BoardOk(g: Game) {
    && g.shape.Valid()
    && |g.board| == g.shape.Size()
    && (forall i :: 0 <= i < |g.board| ==> 0 <= g.board[i].val <= g.shape.N())
    && Consistent(g.shape, g.board)
    && g.numFilled == CountFilled(Vals(g.board))
  }

  lemma CountFilledUpdate(vs: seq<int>, a: int, x: int)
    requires 0 <= a < |vs|
    ensures CountFilled(vs[a := x]) == CountFilled(vs) - (if vs[a] != 0 then 1 else 0) + (if x != 0 then 1 else 0)
  {
    var n := |vs|;
    if a == n - 1 {
      assert vs[a := x][..n - 1] == vs[..n - 1];
    } else {
      assert vs[a := x][..n - 1] == vs[..n - 1][a := x];
      CountFilledUpdate(vs[..n - 1], a, x);
    }
  }

  lemma {:induction false} CountFilledZero(vs: seq<int>)
    ensures CountFilled(vs) == 0 <==> forall i :: 0 <= i < |vs| ==> vs[i] == 0
  {
    if |vs| > 0 {
      var n := |vs|;
      CountFilledZero(vs[..n - 1]);
      assert forall i :: 0 <= i < n - 1 ==> vs[..n - 1][i] == vs[i];
    }
  }

  lemma OnlyFlagsSameVals(b: seq<Cell>, b': seq<Cell>)
    requires OnlyFlagsChange(b, b')
    ensures Vals(b') == Vals(b)
  {
  }

  lemma OnlyDemisSameVals(b: seq<Cell>, b': seq<Cell>)
    requires OnlyDemisChange(b, b')
    ensures Vals(b') == Vals(b)
  {
  }

  /** The recomputed board carries the given values, consistent flags, and b's fixed marks and demi-values. */
  lemma RelabelFacts(sh: Shape, b: seq<Cell>, vs: seq<int>)
    requires sh.Valid() && |vs| == |b|
    ensures Vals(Relabel(sh, b, vs)) == vs
    ensures Consistent(sh, Relabel(sh, b, vs))
    ensures forall i :: 0 <= i < |b| ==> Relabel(sh, b, vs)[i].isFixed == b[i].isFixed && Relabel(sh, b, vs)[i].demiVal == b[i].demiVal
  {
    assert Vals(Relabel(sh, b, vs)) == vs;
  }

  /** A board whose flags are consistent is its own recomputation. */
  lemma RelabelConsistent(sh: Shape, b0: seq<Cell>, b: seq<Cell>)
    requires sh.Valid() && OnlyFlagsChange(b0, b) && Consistent(sh, b)
    ensures b == Relabel(sh, b0, Vals(b))
  {
  }

  /** Recomputation depends only on the fixed marks and demi-values of the board it starts from. */
  lemma RelabelSameBase(sh: Shape, b1: seq<Cell>, b2: seq<Cell>, vs: seq<int>)
    requires sh.Valid() && |b1| == |b2| == |vs|
    requires forall i :: 0 <= i < |b1| ==> b1[i].isFixed == b2[i].isFixed && b1[i].demiVal == b2[i].demiVal
    ensures Relabel(sh, b1, vs) == Relabel(sh, b2, vs)
  {
  }

  /** The first empty value at or after i, or |vs| when there is none (i itself when i is past the end). */
  function FirstEmpty(vs: seq<int>, i: nat): (j: nat)
    ensures i <= j && (i <= |vs| ==> j <= |vs|)
    ensures j < |vs| ==> vs[j] == 0
    ensures forall t :: i <= t < j ==> t < |vs| && vs[t] != 0
    decreases |vs| - i
  {
    if i >= |vs| || vs[i] == 0 then i else FirstEmpty(vs, i + 1)
  }

  /** Any position satisfying FirstEmpty's contract is FirstEmpty. */
  lemma {:induction false} FirstEmptyUnique(vs: seq<int>, i: nat, j: nat)
    requires i <= j && (i <= |vs| ==> j <= |vs|) && (i > |vs| ==> j == i)
    requires j < |vs| ==> vs[j] == 0
    requires forall t :: i <= t < j ==> t < |vs| && vs[t] != 0
    ensures j == FirstEmpty(vs, i)
    decreases j - i
  {
    if i < j {
      FirstEmptyUnique(vs, i + 1, j);
    }
  }

  /** FirstEmpty only looks at the values from i on. */
  lemma {:induction false} FirstEmptyAgree(vs: seq<int>, ws: seq<int>, i: nat)
    requires |vs| == |ws| && forall t :: i <= t < |vs| ==> vs[t] == ws[t]
    ensures FirstEmpty(vs, i) == FirstEmpty(ws, i)
    decreases |vs| - i
  {
    if i < |vs| && vs[i] != 0 {
      FirstEmptyAgree(vs, ws, i + 1);
    }
  }

  /** nextEmptyCell: the first empty cell at or after i, or N*N when there is none. */
  method NextEmptyCell(sh: Shape, b: seq<Cell>, i: int) returns (j: int)
    requires |b| == sh.Size() && i >= 0
    ensures j == FirstEmpty(Vals(b), i)
    ensures i >= sh.Size() ==> j == i
    ensures i < sh.Size() ==> i <= j <= sh.Size()
    ensures i < sh.Size() && j < sh.Size() ==> b[j].val == 0
    ensures forall t :: i <= t < j ==> b[t].val != 0
  {
    var size := sh.Size();
    if i >= size {
      return i;
    }
    j := i;
    while b[j].val != 0
      invariant i <= j < size
      invariant forall t :: i <= t < j ==> b[t].val != 0
      decreases size - j
    {
      j := j + 1;
      if j >= size {
        FirstEmptyUnique(Vals(b), i, j);
        return;
      }
    }
    FirstEmptyUnique(Vals(b), i, j);
  }

  /** The cell at (col, row) exists and is flagged erroneous. */
  predicate FlagAt(sh: Shape, b: seq<Cell>, col: int, row: int) {
    0 <= Index(sh, col, row) < |b| && b[Index(sh, col, row)].isError
  }

  /** isErroneous: some cell is flagged erroneous (scanned column by column). */
  method IsErroneous(sh: Shape, b: seq<Cell>) returns (r: bool)
    requires sh.Valid() && |b| == sh.Size()
    ensures r <==> exists p :: 0 <= p < |b| && b[p].isError
  {
    var N := sh.N();
    var i := 0;
    while i < N
      invariant 0 <= i <= N
      invariant forall c, w :: 0 <= c < i && 0 <= w < N ==> !FlagAt(sh, b, c, w)
    {
      var j := 0;
      while j < N
        invariant 0 <= j <= N
        invariant forall c, w :: 0 <= c < i && 0 <= w < N ==> !FlagAt(sh, b, c, w)
        invariant forall w :: 0 <= w < j ==> !FlagAt(sh, b, i, w)
      {
        IndexCoordinates(sh, i, j);
        if b[Index(sh, i, j)].isError {
          return true;
        }
        j := j + 1;
      }
      i := i + 1;
    }
    forall p | 0 <= p < |b|
      ensures !b[p].isError
    {
      CellCoordinates(sh, p);
      assert !FlagAt(sh, b, Col(sh, p), Row(sh, p));
    }
    return false;
  }

  /** clearDemiVals(i): zeroes the demi-value of every cell from i on, cell i included. */
  method ClearDemiVals(b: seq<Cell>, i: int) returns (b': seq<Cell>)
    requires i >= 0
    ensures |b'| == |b|
    ensures forall j :: 0 <= j < |b| ==> b'[j] == (if j >= i then b[j].(demiVal := 0) else b[j])
  {
    b' := b;
    var j := i;
    while j < |b|
      invariant |b'| == |b|
      invariant forall t :: 0 <= t < |b| ==> b'[t] == (if i <= t < j then b[t].(demiVal := 0) else b[t])
    {
      b' := b'[j := b'[j].(demiVal := 0)];
      j := j + 1;
    }
  }

  /** copyValsToDemivals: every filled cell's demi-value becomes its value; empty cells keep theirs. */
  method CopyValsToDemivals(b: seq<Cell>) returns (b': seq<Cell>)
    ensures |b'| == |b|
    ensures forall j :: 0 <= j < |b| ==> b'[j] == (if b[j].val != 0 then b[j].(demiVal := b[j].val) else b[j])
  {
    b' := b;
    var j := 0;
    while j < |b|
      invariant 0 <= j <= |b| && |b'| == |b|
      invariant forall t :: 0 <= t < |b| ==> b'[t] == (if t < j && b[t].val != 0 then b[t].(demiVal := b[t].val) else b[t])
    {
      if b'[j].val != 0 {
        b' := b'[j := b'[j].(demiVal := b'[j].val)];
      }
      j := j + 1;
    }
  }

  /** copyDemivalsToVals: every cell with a nonzero demi-value takes it as its value. */
  method CopyDemivalsToVals(b: seq<Cell>) returns (b': seq<Cell>)
    ensures |b'| == |b|
    ensures forall j :: 0 <= j < |b| ==> b'[j] == (if b[j].demiVal != 0 then b[j].(val := b[j].demiVal) else b[j])
  {
    b' := b;
    var j := 0;
    while j < |b|
      invariant 0 <= j <= |b| && |b'| == |b|
      invariant forall t :: 0 <= t < |b| ==> b'[t] == (if t < j && b[t].demiVal != 0 then b[t].(val := b[t].demiVal) else b[t])
    {
      if b'[j].demiVal != 0 {
        b' := b'[j := b'[j].(val := b'[j].demiVal)];
      }
      j := j + 1;
    }
  }

  /** clearBoard: every value becomes 0; flags, fixed marks and demi-values are untouched. */
  method ClearBoard(b: seq<Cell>) returns (b': seq<Cell>)
    ensures |b'| == |b|
    ensures forall j :: 0 <= j < |b| ==> b'[j] == b[j].(val := 0)
  {
    b' := b;
    var j := 0;
    while j < |b|
      invariant 0 <= j <= |b| && |b'| == |b|
      invariant forall t :: 0 <= t < |b| ==> b'[t] == (if t < j then b[t].(val := 0) else b[t])
    {
      b' := b'[j := b'[j].(val := 0)];
      j := j + 1;
    }
  }
}
