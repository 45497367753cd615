/**
  The move list (AuxMethods.c section 5 and setCell): a sequence of moves
  whose element 0 is the sentinel, and a cursor. Moves 1..cur are applied
  to the board, moves cur+1.. form the redo branch.

  Replaying the list is described by Undo1/Redo1 (one move) and
  Rewind/Advance (a range of moves). BackOk and FwdOk say that the board's
  values agree with the list: undoing the applied moves from the cursor
  down, and redoing the redo branch from the cursor up, each find the value
  the move expects in its cell.
 */
module History {
  import opened Geometry
  import opened Board
  import opened Constraints

  /** The cell a move writes. */
  function At(sh: Shape, m: Move): int {
    Index(sh, m.col, m.row)
  }

  predicate MoveOk(sh: Shape, m: Move) {
    InBoard(sh, m.col, m.row) && 0 <= m.oldVal <= sh.N() && 0 <= m.newVal <= sh.N()
  }

  /** Every move after the sentinel names a cell on the board and values in 0..N. */
  ghost predicate MovesOk(sh: Shape, moves: seq<Move>) {
    forall i :: 1 <= i < |moves| ==> MoveOk(sh, moves[i])
  }

  /** The values after undoing m: its cell goes back to oldVal. */
  function Undo1(sh: Shape, vs: seq<int>, m: Move): (r: seq<int>)
    ensures |r| == |vs|
  {
    if 0 <= At(sh, m) < |vs| then vs[At(sh, m) := m.oldVal] else vs
  }

  /** The values after redoing m: its cell takes newVal. */
  function Redo1(sh: Shape, vs: seq<int>, m: Move): (r: seq<int>)
    ensures |r| == |vs|
  {
    if 0 <= At(sh, m) < |vs| then vs[At(sh, m) := m.newVal] else vs
  }

  /** Undoing moves c, c-1, ..., j+1 finds each move's newVal in its cell. */
  ghost predicate BackOk(sh: Shape, vs: seq<int>, moves: seq<Move>, c: nat)
    requires c < |moves|
    decreases c
  {
    c == 0
    || (0 <= At(sh, moves[c]) < |vs| && vs[At(sh, moves[c])] == moves[c].newVal
        && BackOk(sh, Undo1(sh, vs, moves[c]), moves, c - 1))
  }

  /** Redoing moves c+1, c+2, ... finds each move's oldVal in its cell. */
  ghost predicate FwdOk(sh: Shape, vs: seq<int>, moves: seq<Move>, c: nat)
    requires c < |moves|
    decreases |moves| - c
  {
    c + 1 == |moves|
    || (0 <= At(sh, moves[c + 1]) < |vs| && vs[At(sh, moves[c + 1])] == moves[c + 1].oldVal
        && FwdOk(sh, Redo1(sh, vs, moves[c + 1]), moves, c + 1))
  }

  /** The values after undoing moves c down to j+1, starting from vs. */
  function Rewind(sh: Shape, vs: seq<int>, moves: seq<Move>, c: nat, j: nat): (r: seq<int>)
    requires j <= c < |moves|
    ensures |r| == |vs|
    decreases c - j
  {
    if j == c then vs else Undo1(sh, Rewind(sh, vs, moves, c, j + 1), moves[j + 1])
  }

  /** The values after redoing moves c+1 up to j, starting from vs. */
  function Advance(sh: Shape, vs: seq<int>, moves: seq<Move>, c: nat, j: nat): (r: seq<int>)
    requires c <= j < |moves|
    ensures |r| == |vs|
    decreases j - c
  {
    if j == c then vs else Redo1(sh, Advance(sh, vs, moves, c, j - 1), moves[j])
  }

  /** Rewinding peels off the move at the cursor first. */
  lemma {:induction false} RewindFirst(sh: Shape, vs: seq<int>, moves: seq<Move>, c: nat, j: nat)
    requires j < c < |moves|
    ensures Rewind(sh, vs, moves, c, j) == Rewind(sh, Undo1(sh, vs, moves[c]), moves, c - 1, j)
    decreases c - j
  {
    if j < c - 1 {
      RewindFirst(sh, vs, moves, c, j + 1);
    }
  }

  /** Advancing applies the move after the cursor first. */
  lemma {:induction false} AdvanceFirst(sh: Shape, vs: seq<int>, moves: seq<Move>, c: nat, j: nat)
    requires c < j < |moves|
    ensures Advance(sh, vs, moves, c, j) == Advance(sh, Redo1(sh, vs, moves[c + 1]), moves, c + 1, j)
    decreases j - c
  {
    if c + 1 < j {
      AdvanceFirst(sh, vs, moves, c, j - 1);
    }
  }

  /** Undoing one step keeps the redo side consistent. */
  lemma UndoFwd(sh: Shape, vs: seq<int>, moves: seq<Move>, c: nat)
    requires 0 < c < |moves| && BackOk(sh, vs, moves, c) && FwdOk(sh, vs, moves, c)
    ensures FwdOk(sh, Undo1(sh, vs, moves[c]), moves, c - 1)
  {
    var m := moves[c];
    assert Redo1(sh, Undo1(sh, vs, m), m) == vs;
  }

  /** Redoing one step keeps the undo side consistent. */
  lemma RedoBack(sh: Shape, vs: seq<int>, moves: seq<Move>, c: nat)
    requires c + 1 < |moves| && BackOk(sh, vs, moves, c) && FwdOk(sh, vs, moves, c)
    ensures BackOk(sh, Redo1(sh, vs, moves[c + 1]), moves, c + 1)
  {
    var m := moves[c + 1];
    assert Undo1(sh, Redo1(sh, vs, m), m) == vs;
  }

  /** Rewinding a consistent history leaves a consistent history at the new cursor. */
  lemma {:induction false} RewindOk(sh: Shape, vs: seq<int>, moves: seq<Move>, c: nat, j: nat)
    requires j <= c < |moves| && BackOk(sh, vs, moves, c) && FwdOk(sh, vs, moves, c)
    ensures BackOk(sh, Rewind(sh, vs, moves, c, j), moves, j)
    ensures FwdOk(sh, Rewind(sh, vs, moves, c, j), moves, j)
    decreases c - j
  {
    if j < c {
      RewindOk(sh, vs, moves, c, j + 1);
      UndoFwd(sh, Rewind(sh, vs, moves, c, j + 1), moves, j + 1);
    }
  }

  /** Advancing a consistent history leaves a consistent history at the new cursor. */
  lemma {:induction false} AdvanceOk(sh: Shape, vs: seq<int>, moves: seq<Move>, c: nat, j: nat)
    requires c <= j < |moves| && BackOk(sh, vs, moves, c) && FwdOk(sh, vs, moves, c)
    ensures BackOk(sh, Advance(sh, vs, moves, c, j), moves, j)
    ensures FwdOk(sh, Advance(sh, vs, moves, c, j), moves, j)
    decreases j - c
  {
    if c < j {
      AdvanceOk(sh, vs, moves, c, j - 1);
      RedoBack(sh, Advance(sh, vs, moves, c, j - 1), moves, j - 1);
    }
  }

  /** Redoing what was rewound restores the values. */
  lemma {:induction false} AdvanceRewind(sh: Shape, vs: seq<int>, moves: seq<Move>, c: nat, j: nat)
    requires j <= c < |moves| && BackOk(sh, vs, moves, c)
    ensures Advance(sh, Rewind(sh, vs, moves, c, j), moves, j, c) == vs
    decreases c - j
  {
    if j < c {
      var m := moves[c];
      RewindFirst(sh, vs, moves, c, j);
      AdvanceRewind(sh, Undo1(sh, vs, m), moves, c - 1, j);
      assert Redo1(sh, Undo1(sh, vs, m), m) == vs;
    }
  }

  /** Undoing what was advanced restores the values. */
  lemma {:induction false} RewindAdvance(sh: Shape, vs: seq<int>, moves: seq<Move>, c: nat, j: nat)
    requires c <= j < |moves| && FwdOk(sh, vs, moves, c)
    ensures Rewind(sh, Advance(sh, vs, moves, c, j), moves, j, c) == vs
    decreases j - c
  {
    if c < j {
      var m := moves[c + 1];
      AdvanceFirst(sh, vs, moves, c, j);
      RewindAdvance(sh, Redo1(sh, vs, m), moves, c + 1, j);
      assert Undo1(sh, Redo1(sh, vs, m), m) == vs;
    }
  }

  /** Rewinding to i and then to j is rewinding to j. */
  lemma {:induction false} RewindTrans(sh: Shape, vs: seq<int>, moves: seq<Move>, c: nat, i: nat, j: nat)
    requires j <= i <= c < |moves|
    ensures Rewind(sh, Rewind(sh, vs, moves, c, i), moves, i, j) == Rewind(sh, vs, moves, c, j)
    decreases i - j
  {
    if j < i {
      RewindTrans(sh, vs, moves, c, i, j + 1);
    }
  }

  /** Only the moves up to the cursor matter to BackOk and Rewind. */
  lemma {:induction false} BackPrefix(sh: Shape, vs: seq<int>, moves: seq<Move>, moves': seq<Move>, c: nat, j: nat)
    requires j <= c < |moves| && c < |moves'| && moves[..c + 1] == moves'[..c + 1]
    ensures BackOk(sh, vs, moves, c) == BackOk(sh, vs, moves', c)
    ensures Rewind(sh, vs, moves, c, j) == Rewind(sh, vs, moves', c, j)
    decreases c
  {
    assert moves[c] == moves[..c + 1][c];
    assert moves'[c] == moves'[..c + 1][c];
    if c > 0 {
      assert moves[..c] == moves[..c + 1][..c];
      assert moves'[..c] == moves'[..c + 1][..c];
      BackPrefix(sh, Undo1(sh, vs, moves[c]), moves, moves', c - 1, if j < c then j else c - 1);
      if j < c {
        RewindFirst(sh, vs, moves, c, j);
        RewindFirst(sh, vs, moves', c, j);
      }
    }
  }

  /** The nearest action boundary below c: the sentinel or a user move. */
  function PrevAnchor(moves: seq<Move>, c: nat): (r: nat)
    requires 0 < c < |moves|
    ensures r < c && (r == 0 || moves[r].user)
    ensures forall j :: r < j < c ==> !moves[j].user
  {
    if c - 1 == 0 || moves[c - 1].user then c - 1 else PrevAnchor(moves, c - 1)
  }

  /** The nearest user move above c. */
  function NextAnchor(moves: seq<Move>, c: nat): (r: nat)
    requires c < |moves| && exists j :: c < j < |moves| && moves[j].user
    ensures c < r < |moves| && moves[r].user
    ensures forall j :: c < j < r ==> !moves[j].user
    decreases |moves| - c
  {
    if moves[c + 1].user then c + 1 else NextAnchor(moves, c + 1)
  }

  /** The two anchor searches undo each other on action boundaries. */
  lemma AnchorsInverse(moves: seq<Move>, c: nat)
    requires c < |moves|
    ensures 0 < c && moves[c].user ==> NextAnchor(moves, PrevAnchor(moves, c)) == c
    ensures (c == 0 || moves[c].user) && (exists j :: c < j < |moves| && moves[j].user) ==> PrevAnchor(moves, NextAnchor(moves, c)) == c
  {
    if 0 < c && moves[c].user {
      var p := PrevAnchor(moves, c);
      var n := NextAnchor(moves, p);
      assert !(n < c) && !(c < n);
    }
    if (c == 0 || moves[c].user) && (exists j :: c < j < |moves| && moves[j].user) {
      var n := NextAnchor(moves, c);
      var p := PrevAnchor(moves, n);
      assert !(p < c) && !(c < p);
    }
  }

  /** The board, the fill counter and the history agree. */
  ghost predicate Coherent(g: Game) {
    && BoardOk(g)
    && 1 <= |g.moves| && g.cur < |g.moves|
    && MovesOk(g.shape, g.moves)
    && BackOk(g.shape, Vals(g.board), g.moves, g.cur)
    && FwdOk(g.shape, Vals(g.board), g.moves, g.cur)
  }

  /**
    Every command ends a logical action with a user move: the cursor sits on
    the sentinel or on a user move, and the list ends with a user move.
   */
  ghost predicate ActionsClosed(g: Game)
    requires 1 <= |g.moves| && g.cur < |g.moves|
  {
    (g.cur == 0 || g.moves[g.cur].user) && (|g.moves| == 1 || g.moves[|g.moves| - 1].user)
  }

  /** The invariant every command keeps. */
  ghost predicate WF(g: Game) {
    Coherent(g) && ActionsClosed(g)
  }

  /** g with values vs (flags recomputed) and cursor c. */
  function Rebuild(g: Game, vs: seq<int>, c: nat): Game
    requires g.shape.Valid() && |vs| == |g.board|
  {
    g.(board := Relabel(g.shape, g.board, vs), numFilled := CountFilled(vs), cur := c)
  }

  /** A coherent game is rebuilt from its own values unchanged. */
  lemma RebuildSelf(g: Game)
    requires Coherent(g)
    ensures Rebuild(g, Vals(g.board), g.cur) == g
  {
    RelabelConsistent(g.shape, g.board, g.board);
  }

  /** Rebuilding twice is rebuilding once from the original. */
  lemma RebuildTwice(g: Game, v1: seq<int>, c1: nat, v2: seq<int>, c2: nat)
    requires g.shape.Valid() && |v1| == |g.board| && |v2| == |g.board|
    ensures Rebuild(Rebuild(g, v1, c1), v2, c2) == Rebuild(g, v2, c2)
    ensures Vals(Rebuild(g, v1, c1).board) == v1
  {
    RelabelFacts(g.shape, g.board, v1);
    RelabelSameBase(g.shape, Relabel(g.shape, g.board, v1), g.board, v2);
  }

  /** The rebuilt state is coherent when its values agree with the history at the cursor. */
  lemma RebuildCoherent(g: Game, vs: seq<int>, c: nat)
    requires g.shape.Valid() && |g.board| == g.shape.Size() && |vs| == |g.board|
    requires 1 <= |g.moves| && c < |g.moves| && MovesOk(g.shape, g.moves)
    requires forall i :: 0 <= i < |vs| ==> 0 <= vs[i] <= g.shape.N()
    requires BackOk(g.shape, vs, g.moves, c) && FwdOk(g.shape, vs, g.moves, c)
    ensures Coherent(Rebuild(g, vs, c))
  {
    RelabelFacts(g.shape, g.board, vs);
  }

  /** g' differs from g at most in values, flags, numFilled and cursor. */
  ghost predicate SameSetup(g: Game, g': Game) {
    && g'.shape == g.shape && g'.mode == g.mode && g'.moves == g.moves
    && |g'.board| == |g.board|
    && forall i :: 0 <= i < |g.board| ==> g'.board[i].isFixed == g.board[i].isFixed && g'.board[i].demiVal == g.board[i].demiVal
  }

  /**
    g' is g with move m recorded after the cursor: m's cell holds m.newVal,
    the redo branch is replaced by m and the cursor is on it; only flags and
    numFilled may differ besides.
   */
  ghost predicate Recorded(g: Game, m: Move, g': Game)
    requires g.cur < |g.moves|
  {
    && 0 <= At(g.shape, m) < |g.board|
    && g'.cur == g.cur + 1
    && SameSetup(g.(moves := AddMove(g.moves, g.cur, m)), g')
    && Vals(g'.board) == Vals(g.board)[At(g.shape, m) := m.newVal]
  }

  /** A coherent game is determined by its setup, its values and its cursor: it is g rebuilt from them. */
  lemma SetupDetermines(g: Game, g': Game)
    requires g.shape.Valid() && Coherent(g') && SameSetup(g, g')
    ensures g' == Rebuild(g, Vals(g'.board), g'.cur)
  {
    RelabelConsistent(g'.shape, g'.board, g'.board);
    RelabelSameBase(g.shape, g.board, g'.board, Vals(g'.board));
  }

  /** The rebuilt game keeps g's setup and carries the given values and cursor. */
  lemma RebuildSetup(g: Game, vs: seq<int>, c: nat)
    requires g.shape.Valid() && |vs| == |g.board|
    ensures SameSetup(g, Rebuild(g, vs, c)) && Vals(Rebuild(g, vs, c).board) == vs && Rebuild(g, vs, c).cur == c
  {
    RelabelFacts(g.shape, g.board, vs);
  }

  /** The values a reset returns to: everything recorded undone. */
  function Origin(g: Game): seq<int>
    requires g.cur < |g.moves|
  {
    Rewind(g.shape, Vals(g.board), g.moves, g.cur, 0)
  }

  /** clearNextMoves: keeps the list up to and including the cursor, drops the redo branch. */
  function ClearNextMoves(moves: seq<Move>, cur: nat): (ms: seq<Move>)
    requires cur < |moves|
    ensures |ms| == cur + 1 && ms <= moves
  {
    moves[..cur + 1]
  }

  /** addMove: the redo branch is dropped and m follows the old current move. */
  function AddMove(moves: seq<Move>, cur: nat, m: Move): (ms: seq<Move>)
    requires cur < |moves|
    ensures |ms| == cur + 2 && ms[..cur + 1] == moves[..cur + 1] && ms[cur + 1] == m
  {
    ClearNextMoves(moves, cur) + [m]
  }

  /** An on-board cell of a move, as an index. */
  lemma MoveCell(sh: Shape, m: Move)
    requires sh.Valid() && MoveOk(sh, m)
    ensures 0 <= At(sh, m) < sh.Size()
  {
    IndexCoordinates(sh, m.col, m.row);
  }

  /**
    The common end of undoAny, redoAny and setCell: cell k took x, the flags
    were recomputed and numFilled adjusted, so the game is the rebuilt one.
   */
  lemma StepResult(g: Game, k: int, x: int, b': seq<Cell>, nf: int, c: nat)
    requires BoardOk(g) && 0 <= k < |g.board|
    requires b' == Relabel(g.shape, g.board[k := g.board[k].(val := x)], Vals(g.board)[k := x])
    requires nf == g.numFilled - (if g.board[k].val != 0 then 1 else 0) + (if x != 0 then 1 else 0)
    ensures g.(board := b', numFilled := nf, cur := c) == Rebuild(g, Vals(g.board)[k := x], c)
  {
    RelabelSameBase(g.shape, g.board[k := g.board[k].(val := x)], g.board, Vals(g.board)[k := x]);
    CountFilledUpdate(Vals(g.board), k, x);
  }

  /** Stepping the cursor back over one move keeps the game coherent. */
  lemma UndoStepCoherent(g: Game)
    requires Coherent(g) && 0 < g.cur
    ensures Coherent(Rebuild(g, Undo1(g.shape, Vals(g.board), g.moves[g.cur]), g.cur - 1))
  {
    UndoFwd(g.shape, Vals(g.board), g.moves, g.cur);
    RebuildCoherent(g, Undo1(g.shape, Vals(g.board), g.moves[g.cur]), g.cur - 1);
  }

  /** Stepping the cursor forward over one move keeps the game coherent. */
  lemma RedoStepCoherent(g: Game)
    requires Coherent(g) && g.cur + 1 < |g.moves|
    ensures Coherent(Rebuild(g, Redo1(g.shape, Vals(g.board), g.moves[g.cur + 1]), g.cur + 1))
  {
    RedoBack(g.shape, Vals(g.board), g.moves, g.cur);
    RebuildCoherent(g, Redo1(g.shape, Vals(g.board), g.moves[g.cur + 1]), g.cur + 1);
  }

  /**
    undoAny: the current move's cell goes back to oldVal, the cursor steps
    back, numFilled is adjusted from the move's two values and the flags
    are updated by checkIfError.
   */
  method UndoAny(g: Game) returns (g': Game)
    requires Coherent(g) && 0 < g.cur
    ensures Coherent(g') && SameSetup(g, g') && g'.cur == g.cur - 1
    ensures Vals(g'.board) == Undo1(g.shape, Vals(g.board), g.moves[g.cur])
  {
    var sh, m := g.shape, g.moves[g.cur];
    var k := Index(sh, m.col, m.row);
    MoveCell(sh, m);
    var b := g.board[k := g.board[k].(val := m.oldVal)];
    var nf := g.numFilled;
    if m.oldVal == 0 && m.newVal != 0 {
      nf := nf - 1;
    }
    if m.oldVal != 0 && m.newVal == 0 {
      nf := nf + 1;
    }
    assert b[k := b[k].(val := m.newVal)] == g.board;
    var b' := CheckIfError(sh, b, k, m.oldVal, m.newVal);
    assert Vals(b) == Vals(g.board)[k := m.oldVal];
    g' := g.(board := b', numFilled := nf, cur := g.cur - 1);
    StepResult(g, k, m.oldVal, b', nf, g.cur - 1);
    UndoStepCoherent(g);
    RebuildSetup(g, Vals(g.board)[k := m.oldVal], g.cur - 1);
  }

  /**
    redoAny: the cursor steps forward and the new current move's cell takes
    newVal; numFilled and the flags are updated as in undoAny.
   */
  method RedoAny(g: Game) returns (g': Game)
    requires Coherent(g) && g.cur + 1 < |g.moves|
    ensures Coherent(g') && SameSetup(g, g') && g'.cur == g.cur + 1
    ensures Vals(g'.board) == Redo1(g.shape, Vals(g.board), g.moves[g.cur + 1])
  {
    var sh, m := g.shape, g.moves[g.cur + 1];
    var k := Index(sh, m.col, m.row);
    MoveCell(sh, m);
    var b := g.board[k := g.board[k].(val := m.newVal)];
    var nf := g.numFilled;
    if m.oldVal == 0 && m.newVal != 0 {
      nf := nf + 1;
    }
    if m.oldVal != 0 && m.newVal == 0 {
      nf := nf - 1;
    }
    assert b[k := b[k].(val := m.oldVal)] == g.board;
    var b' := CheckIfError(sh, b, k, m.newVal, m.oldVal);
    assert Vals(b) == Vals(g.board)[k := m.newVal];
    g' := g.(board := b', numFilled := nf, cur := g.cur + 1);
    StepResult(g, k, m.newVal, b', nf, g.cur + 1);
    RedoStepCoherent(g);
    RebuildSetup(g, Vals(g.board)[k := m.newVal], g.cur + 1);
  }

  /** Recording a new move after the cursor keeps the history coherent with the new values. */
  lemma SetCoherent(g: Game, col: int, row: int, v: int, user: bool)
    requires Coherent(g) && InBoard(g.shape, col, row) && 0 <= v <= g.shape.N()
    ensures var k := Index(g.shape, col, row);
            0 <= k < |g.board|
            && Coherent(Rebuild(g.(moves := AddMove(g.moves, g.cur, Move(col, row, g.board[k].val, v, user))),
                                Vals(g.board)[k := v], g.cur + 1))
  {
    var sh := g.shape;
    var k := Index(sh, col, row);
    IndexCoordinates(sh, col, row);
    var m := Move(col, row, g.board[k].val, v, user);
    var moves := AddMove(g.moves, g.cur, m);
    var vs := Vals(g.board)[k := v];
    BackPrefix(sh, Vals(g.board), g.moves, moves, g.cur, g.cur);
    assert Undo1(sh, vs, m) == Vals(g.board);
    assert BackOk(sh, vs, moves, g.cur + 1);
    assert MovesOk(sh, moves) by {
      forall i | 1 <= i < |moves|
        ensures MoveOk(sh, moves[i])
      {
        if i <= g.cur {
          assert moves[i] == moves[..g.cur + 1][i] == g.moves[i];
        }
      }
    }
    RebuildCoherent(g.(moves := moves), vs, g.cur + 1);
  }

  /**
    setCell(col, row, newVal, user): the cell takes newVal, the move
    (col, row, old value, newVal, user) is added after the cursor, numFilled
    and the flags are updated.
   */
  method SetCell(g: Game, col: int, row: int, v: int, user: bool) returns (g': Game)
    requires Coherent(g) && InBoard(g.shape, col, row) && 0 <= v <= g.shape.N()
    ensures var k := Index(g.shape, col, row);
            0 <= k < |g.board| && Recorded(g, Move(col, row, g.board[k].val, v, user), g')
    ensures Coherent(g')
  {
    var sh := g.shape;
    var k := Index(sh, col, row);
    IndexCoordinates(sh, col, row);
    var oldVal := g.board[k].val;
    var b := g.board[k := g.board[k].(val := v)];
    var m := Move(col, row, oldVal, v, user);
    var moves := AddMove(g.moves, g.cur, m);
    var nf := g.numFilled;
    if oldVal == 0 && v != 0 {
      nf := nf + 1;
    }
    if oldVal != 0 && v == 0 {
      nf := nf - 1;
    }
    ghost var vs := Vals(g.board)[k := v];
    assert Vals(b) == vs;
    assert b[k := b[k].(val := oldVal)] == g.board;
    var b' := CheckIfError(sh, b, k, v, oldVal);
    g' := g.(board := b', numFilled := nf, moves := moves, cur := g.cur + 1);
    StepResult(g.(moves := moves), k, v, b', nf, g.cur + 1);
    SetCoherent(g, col, row, v, user);
    RebuildSetup(g.(moves := moves), vs, g.cur + 1);
  }
}
