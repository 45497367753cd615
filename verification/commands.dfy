/**
  The user commands of Game.c that act on the board and the history:
  set, undo, redo and reset, plus the refusal checks of validate and hint
  with the ILP solver as an oracle, and createGame.

  UndoBatch, RedoBatch and ResetSpec describe what one command does in
  terms of the replay functions of History; the methods are proved to
  compute exactly them, and the lemmas relate them to each other.
 */
module Commands {
  import opened Wrappers
  import opened Geometry
  import opened Board
  import opened Constraints
  import opened History

  /** The ILP solver, seen from the outside: board values in, a full assignment or nothing out. */
  type Solver = seq<int> -> Option<seq<int>>

  /** createGame: an empty board of the given block shape, no moves besides the sentinel. */
  function CreateGame(blockW: int, blockH: int, mode: Mode): (g: Game)
    requires blockW >= 1 && blockH >= 1
    ensures WF(g)
    ensures g.shape == Shape(blockH, blockW) && g.mode == mode && g.numFilled == 0
    ensures |g.board| == g.shape.Size() && forall i :: 0 <= i < |g.board| ==> g.board[i] == Cell(false, false, 0, 0)
    ensures g.moves == [Sentinel] && g.cur == 0
  {
    var sh := Shape(blockH, blockW);
    var b := seq(sh.Size(), i => Cell(false, false, 0, 0));
    CountFilledZero(Vals(b));
    Game(sh, mode, 0, b, [Sentinel], 0)
  }

  lemma {:induction false} ReplayRange(sh: Shape, vs: seq<int>, moves: seq<Move>, c: nat, j: nat)
    requires sh.Valid() && MovesOk(sh, moves) && c < |moves| && j < |moves|
    requires forall i :: 0 <= i < |vs| ==> 0 <= vs[i] <= sh.N()
    ensures j <= c ==> forall i :: 0 <= i < |vs| ==> 0 <= Rewind(sh, vs, moves, c, j)[i] <= sh.N()
    ensures c <= j ==> forall i :: 0 <= i < |vs| ==> 0 <= Advance(sh, vs, moves, c, j)[i] <= sh.N()
    decreases if j <= c then c - j else j - c
  {
    if j < c {
      ReplayRange(sh, vs, moves, c, j + 1);
    } else if c < j {
      ReplayRange(sh, vs, moves, c, j - 1);
    }
  }

  /** Rewinding a coherent game to an earlier cursor gives a coherent game. */
  lemma RewindCoherent(g: Game, j: nat)
    requires Coherent(g) && j <= g.cur
    ensures Coherent(Rebuild(g, Rewind(g.shape, Vals(g.board), g.moves, g.cur, j), j))
  {
    RewindOk(g.shape, Vals(g.board), g.moves, g.cur, j);
    ReplayRange(g.shape, Vals(g.board), g.moves, g.cur, j);
    RebuildCoherent(g, Rewind(g.shape, Vals(g.board), g.moves, g.cur, j), j);
  }

  /** Advancing a coherent game to a later cursor gives a coherent game. */
  lemma AdvanceCoherent(g: Game, j: nat)
    requires Coherent(g) && g.cur <= j < |g.moves|
    ensures Coherent(Rebuild(g, Advance(g.shape, Vals(g.board), g.moves, g.cur, j), j))
  {
    AdvanceOk(g.shape, Vals(g.board), g.moves, g.cur, j);
    ReplayRange(g.shape, Vals(g.board), g.moves, g.cur, j);
    RebuildCoherent(g, Advance(g.shape, Vals(g.board), g.moves, g.cur, j), j);
  }

  /** What undo does: everything back to the previous action boundary is undone. */
  function UndoBatch(g: Game): (g': Game)
    requires WF(g) && 0 < g.cur
    ensures WF(g') && g'.moves == g.moves && g'.cur < g.cur
  {
    var p := PrevAnchor(g.moves, g.cur);
    RewindCoherent(g, p);
    Rebuild(g, Rewind(g.shape, Vals(g.board), g.moves, g.cur, p), p)
  }

  /** What redo does: everything up to and including the next user move is redone. */
  function RedoBatch(g: Game): (g': Game)
    requires WF(g) && g.cur + 1 < |g.moves|
    ensures WF(g') && g'.moves == g.moves && g'.cur > g.cur
  {
    assert g.moves[|g.moves| - 1].user;
    var n := NextAnchor(g.moves, g.cur);
    AdvanceCoherent(g, n);
    Rebuild(g, Advance(g.shape, Vals(g.board), g.moves, g.cur, n), n)
  }

  /** What reset does: every recorded move undone, the list cut back to the sentinel. */
  function ResetSpec(g: Game): (g': Game)
    requires WF(g)
    ensures WF(g') && g'.cur == 0 && g'.moves == [g.moves[0]]
  {
    var vs := Origin(g);
    ReplayRange(g.shape, Vals(g.board), g.moves, g.cur, 0);
    var g1 := g.(moves := [g.moves[0]]);
    RebuildCoherent(g1, vs, 0);
    Rebuild(g1, vs, 0)
  }

  /** Redo after undo gives back the game as it was: values, flags, numFilled and cursor. */
  lemma RedoAfterUndo(g: Game)
    requires WF(g) && 0 < g.cur
    ensures RedoBatch(UndoBatch(g)) == g
  {
    var p := PrevAnchor(g.moves, g.cur);
    var vs := Rewind(g.shape, Vals(g.board), g.moves, g.cur, p);
    AnchorsInverse(g.moves, g.cur);
    AdvanceRewind(g.shape, Vals(g.board), g.moves, g.cur, p);
    RebuildTwice(g, vs, p, Vals(g.board), g.cur);
    RebuildSelf(g);
  }

  /** Undo after redo gives back the game as it was. */
  lemma UndoAfterRedo(g: Game)
    requires WF(g) && g.cur + 1 < |g.moves|
    ensures UndoBatch(RedoBatch(g)) == g
  {
    assert g.moves[|g.moves| - 1].user;
    var n := NextAnchor(g.moves, g.cur);
    var vs := Advance(g.shape, Vals(g.board), g.moves, g.cur, n);
    AnchorsInverse(g.moves, g.cur);
    RewindAdvance(g.shape, Vals(g.board), g.moves, g.cur, n);
    RebuildTwice(g, vs, n, Vals(g.board), g.cur);
    RebuildSelf(g);
  }

  /** Undo does not change the board a reset would return to. */
  lemma UndoKeepsOrigin(g: Game)
    requires WF(g) && 0 < g.cur
    ensures Origin(UndoBatch(g)) == Origin(g)
  {
    var p := PrevAnchor(g.moves, g.cur);
    var vs := Rewind(g.shape, Vals(g.board), g.moves, g.cur, p);
    RebuildTwice(g, vs, p, vs, p);
    RewindTrans(g.shape, Vals(g.board), g.moves, g.cur, p, 0);
  }

  /** Redo does not change the board a reset would return to. */
  lemma RedoKeepsOrigin(g: Game)
    requires WF(g) && g.cur + 1 < |g.moves|
    ensures Origin(RedoBatch(g)) == Origin(g)
  {
    assert g.moves[|g.moves| - 1].user;
    var n := NextAnchor(g.moves, g.cur);
    var vs := Advance(g.shape, Vals(g.board), g.moves, g.cur, n);
    RebuildTwice(g, vs, n, vs, n);
    RewindTrans(g.shape, vs, g.moves, n, g.cur, 0);
    RewindAdvance(g.shape, Vals(g.board), g.moves, g.cur, n);
  }

  /** Reset leaves the board it returned to, and a second reset changes nothing. */
  lemma ResetIdempotent(g: Game)
    requires WF(g)
    ensures Vals(ResetSpec(g).board) == Origin(g)
    ensures Origin(ResetSpec(g)) == Origin(g)
    ensures ResetSpec(ResetSpec(g)) == ResetSpec(g)
  {
    var g1 := g.(moves := [g.moves[0]]);
    RebuildTwice(g1, Origin(g), 0, Origin(g), 0);
    var r := ResetSpec(g);
    RebuildSelf(r);
  }

  /** Recording a move after the cursor, with its cell holding the new value, does not change the values a reset returns to. */
  lemma SetKeepsOrigin(sh: Shape, vs: seq<int>, moves: seq<Move>, cur: nat, m: Move)
    requires cur < |moves| && 0 <= At(sh, m) < |vs| && vs[At(sh, m)] == m.oldVal
    ensures Rewind(sh, vs[At(sh, m) := m.newVal], AddMove(moves, cur, m), cur + 1, 0) == Rewind(sh, vs, moves, cur, 0)
  {
    var moves' := AddMove(moves, cur, m);
    var vs' := vs[At(sh, m) := m.newVal];
    RewindFirst(sh, vs', moves', cur + 1, 0);
    assert Undo1(sh, vs', m) == vs;
    BackPrefix(sh, vs, moves, moves', cur, 0);
  }

  /**
    set(n1, n2, n3): column n1 and row n2 count from 1. Refused when a
    coordinate is outside 1..N or the value outside 0..N, or when the cell
    is fixed; otherwise one user move is recorded.
   */
  method Set(g: Game, n1: int, n2: int, n3: int) returns (g': Game, st: Status)
    requires WF(g)
    ensures !(1 <= n1 <= g.shape.N() && 1 <= n2 <= g.shape.N() && 0 <= n3 <= g.shape.N()) ==> g' == g && st == OutOfRange
    ensures 1 <= n1 <= g.shape.N() && 1 <= n2 <= g.shape.N() && 0 <= n3 <= g.shape.N() ==>
              var k := Index(g.shape, n1 - 1, n2 - 1);
              0 <= k < |g.board|
              && (g.board[k].isFixed ==> g' == g && st == FixedCell)
              && (!g.board[k].isFixed ==> st == Done && Recorded(g, Move(n1 - 1, n2 - 1, g.board[k].val, n3, true), g'))
    ensures WF(g') && Origin(g') == Origin(g)
  {
    var N := g.shape.N();
    if n1 < 1 || n1 > N || n2 < 1 || n2 > N || n3 < 0 || n3 > N {
      return g, OutOfRange;
    }
    var col, row := n1 - 1, n2 - 1;
    IndexCoordinates(g.shape, col, row);
    if g.board[Index(g.shape, col, row)].isFixed {
      return g, FixedCell;
    }
    g' := SetCell(g, col, row, n3, true);
    st := Done;
    SetKeepsOrigin(g.shape, Vals(g.board), g.moves, g.cur, Move(col, row, g.board[Index(g.shape, col, row)].val, n3, true));
  }

  /** One pass of the undo and reset loops: the values follow Rewind one move further down. */
  method UndoNext(ghost g: Game, g1: Game) returns (g2: Game)
    requires g.cur < |g.moves| && 0 < g1.cur <= g.cur
    requires Coherent(g1) && SameSetup(g, g1)
    requires Vals(g1.board) == Rewind(g.shape, Vals(g.board), g.moves, g.cur, g1.cur)
    ensures Coherent(g2) && SameSetup(g, g2) && g2.cur == g1.cur - 1
    ensures Vals(g2.board) == Rewind(g.shape, Vals(g.board), g.moves, g.cur, g2.cur)
  {
    g2 := UndoAny(g1);
    assert Rewind(g.shape, Vals(g.board), g.moves, g.cur, g1.cur - 1)
        == Undo1(g.shape, Rewind(g.shape, Vals(g.board), g.moves, g.cur, g1.cur), g.moves[g1.cur]);
  }

  /** One pass of the redo loop: the values follow Advance one move further up. */
  method RedoNext(ghost g: Game, g1: Game) returns (g2: Game)
    requires g.cur <= g1.cur && g1.cur + 1 < |g.moves|
    requires Coherent(g1) && SameSetup(g, g1)
    requires Vals(g1.board) == Advance(g.shape, Vals(g.board), g.moves, g.cur, g1.cur)
    ensures Coherent(g2) && SameSetup(g, g2) && g2.cur == g1.cur + 1
    ensures Vals(g2.board) == Advance(g.shape, Vals(g.board), g.moves, g.cur, g2.cur)
  {
    g2 := RedoAny(g1);
  }

  /** The redo loop stops at the next user move, in the state RedoBatch describes. */
  lemma RedoFinish(g: Game, g': Game)
    requires WF(g) && g.cur + 1 < |g.moves| && exists j :: g.cur < j < |g.moves| && g.moves[j].user
    requires g'.cur == NextAnchor(g.moves, g.cur) && Coherent(g') && SameSetup(g, g')
    requires Vals(g'.board) == Advance(g.shape, Vals(g.board), g.moves, g.cur, g'.cur)
    ensures g' == RedoBatch(g)
  {
    SetupDetermines(g, g');
  }

  /** The loop of undo: undoAny while the current move is automatic and not the sentinel, which ends at move p. */
  method UndoLoop(ghost g: Game, ghost p: nat, g1: Game) returns (g': Game)
    requires p <= g1.cur < g.cur < |g.moves| && (p == 0 || g.moves[p].user)
    requires forall j :: p < j < g.cur ==> !g.moves[j].user
    requires Coherent(g1) && SameSetup(g, g1)
    requires Vals(g1.board) == Rewind(g.shape, Vals(g.board), g.moves, g.cur, g1.cur)
    ensures Coherent(g') && SameSetup(g, g') && g'.cur == p
    ensures Vals(g'.board) == Rewind(g.shape, Vals(g.board), g.moves, g.cur, p)
    decreases g1.cur
  {
    if g1.moves[g1.cur].user || g1.cur == 0 {
      return g1;
    }
    var g2 := UndoNext(g, g1);
    g' := UndoLoop(g, p, g2);
  }

  /** The undo loop stops at the previous action boundary, in the state UndoBatch describes. */
  lemma UndoFinish(g: Game, g': Game)
    requires WF(g) && 0 < g.cur
    requires g'.cur == PrevAnchor(g.moves, g.cur) && Coherent(g') && SameSetup(g, g')
    requires Vals(g'.board) == Rewind(g.shape, Vals(g.board), g.moves, g.cur, g'.cur)
    ensures g' == UndoBatch(g)
  {
    SetupDetermines(g, g');
  }

  /** The moves undo performs once it is not refused. */
  method UndoAction(g: Game) returns (g': Game)
    requires WF(g) && 0 < g.cur
    ensures g' == UndoBatch(g)
  {
    g' := UndoNext(g, g);
    g' := UndoLoop(g, PrevAnchor(g.moves, g.cur), g');
    UndoFinish(g, g');
  }

  /**
    undo: refused at the sentinel; otherwise undoes the current move and
    keeps undoing while the newly current move is automatic and not the
    sentinel, i.e. exactly one logical action.
   */
  method Undo(g: Game) returns (g': Game, st: Status)
    requires WF(g)
    ensures g.cur == 0 ==> g' == g && st == NothingToUndo
    ensures 0 < g.cur ==> g' == UndoBatch(g) && st == Done
    ensures WF(g') && Origin(g') == Origin(g)
  {
    if g.cur == 0 {
      return g, NothingToUndo;
    }
    g' := UndoAction(g);
    st := Done;
    UndoKeepsOrigin(g);
  }

  /** The loop of redo: redoAny until the current move is a user move, which is move n. */
  method RedoLoop(ghost g: Game, ghost n: nat, g1: Game) returns (g': Game)
    requires g.cur < g1.cur <= n < |g.moves| && g.moves[n].user
    requires forall j :: g.cur < j < n ==> !g.moves[j].user
    requires Coherent(g1) && SameSetup(g, g1)
    requires Vals(g1.board) == Advance(g.shape, Vals(g.board), g.moves, g.cur, g1.cur)
    ensures Coherent(g') && SameSetup(g, g') && g'.cur == n
    ensures Vals(g'.board) == Advance(g.shape, Vals(g.board), g.moves, g.cur, n)
    decreases n - g1.cur
  {
    if g1.moves[g1.cur].user {
      return g1;
    }
    var g2 := RedoNext(g, g1);
    g' := RedoLoop(g, n, g2);
  }

  /** The moves redo performs once it is not refused. */
  method RedoAction(g: Game) returns (g': Game)
    requires WF(g) && g.cur + 1 < |g.moves|
    ensures g' == RedoBatch(g)
  {
    assert g.moves[|g.moves| - 1].user;
    g' := RedoNext(g, g);
    g' := RedoLoop(g, NextAnchor(g.moves, g.cur), g');
    RedoFinish(g, g');
  }

  /**
    redo: refused when nothing follows the cursor; otherwise redoes moves up
    to and including the first user move. The list always ends with a user
    move (ActionsClosed), which is what keeps the C loop on the list.
   */
  method Redo(g: Game) returns (g': Game, st: Status)
    requires WF(g)
    ensures g.cur + 1 == |g.moves| ==> g' == g && st == NothingToRedo
    ensures g.cur + 1 < |g.moves| ==> g' == RedoBatch(g) && st == Done
    ensures WF(g') && Origin(g') == Origin(g)
  {
    if g.cur + 1 == |g.moves| {
      return g, NothingToRedo;
    }
    g' := RedoAction(g);
    st := Done;
    RedoKeepsOrigin(g);
  }

  /** reset: undoes every recorded move, then drops the redo branch. */
  method Reset(g: Game) returns (g': Game)
    requires WF(g)
    ensures g' == ResetSpec(g)
    ensures Vals(g'.board) == Origin(g) && Origin(g') == Origin(g)
  {
    ghost var vs0 := Vals(g.board);
    g' := g;
    while g'.cur != 0
      invariant SameSetup(g, g') && g'.cur <= g.cur
      invariant Vals(g'.board) == Rewind(g.shape, vs0, g.moves, g.cur, g'.cur)
      invariant Coherent(g')
      decreases g'.cur
    {
      g' := UndoNext(g, g');
    }
    SetupDetermines(g, g');
    g' := g'.(moves := ClearNextMoves(g'.moves, g'.cur));
    ResetIdempotent(g);
  }

  /** ILPvalidate's effect on the board: each cell's demi-value takes the solution's value. */
  function StoreSolution(b: seq<Cell>, sol: seq<int>): (b': seq<Cell>)
    requires |sol| == |b|
    ensures OnlyDemisChange(b, b') && Demis(b') == sol
  {
    seq(|b|, i requires 0 <= i < |b| => b[i].(demiVal := sol[i]))
  }

  /**
    The solver step of validate and hint: demi-values are cleared (the
    clearDemiVals(0) both commands make before calling the solver), then
    filled with the solution when the solver finds one.
   */
  method SolveBoard(g: Game, solve: Solver) returns (g': Game, found: bool)
    requires BoardOk(g)
    ensures g' == g.(board := g'.board) && OnlyDemisChange(g.board, g'.board)
    ensures found <==> solve(Vals(g.board)).Some? && |solve(Vals(g.board)).value| == |g.board|
    ensures found ==> Demis(g'.board) == solve(Vals(g.board)).value
    ensures !found ==> forall i :: 0 <= i < |g.board| ==> g'.board[i].demiVal == 0
  {
    var b := ClearDemiVals(g.board, 0);
    assert Vals(b) == Vals(g.board);
    var r := solve(Vals(b));
    found := r.Some? && |r.value| == |b|;
    if found {
      b := StoreSolution(b, r.value);
    }
    g' := g.(board := b);
  }

  /** validate: refused on an erroneous board; otherwise reports whether the solver finds a solution. */
  method Validate(g: Game, solve: Solver) returns (g': Game, st: Status)
    requires BoardOk(g)
    ensures (exists p :: 0 <= p < |g.board| && g.board[p].isError) ==> g' == g && st == Erroneous
    ensures !(exists p :: 0 <= p < |g.board| && g.board[p].isError) ==>
              g' == g.(board := g'.board) && OnlyDemisChange(g.board, g'.board)
              && (st == Done <==> solve(Vals(g.board)).Some? && |solve(Vals(g.board)).value| == |g.board|)
              && (st == Done || st == Unsolvable)
  {
    var err := IsErroneous(g.shape, g.board);
    if err {
      return g, Erroneous;
    }
    var found;
    g', found := SolveBoard(g, solve);
    st := if found then Done else Unsolvable;
  }

  /**
    hint(col, row), coordinates from 0: refused when off the board, when the
    board is erroneous, or when the cell is fixed or filled; otherwise the
    hinted value is the solver's value for the cell.
   */
  method Hint(g: Game, col: int, row: int, solve: Solver) returns (g': Game, st: Status, v: int)
    requires BoardOk(g)
    ensures !InBoard(g.shape, col, row) ==> g' == g && st == OutOfRange
    ensures InBoard(g.shape, col, row) ==>
              var k := Index(g.shape, col, row);
              0 <= k < |g.board|
              && ((exists p :: 0 <= p < |g.board| && g.board[p].isError) ==> g' == g && st == Erroneous)
              && (!(exists p :: 0 <= p < |g.board| && g.board[p].isError) && g.board[k].isFixed ==> g' == g && st == FixedCell)
              && (!(exists p :: 0 <= p < |g.board| && g.board[p].isError) && !g.board[k].isFixed && g.board[k].val != 0 ==>
                    g' == g && st == HasValue)
              && (!(exists p :: 0 <= p < |g.board| && g.board[p].isError) && !g.board[k].isFixed && g.board[k].val == 0 ==>
                    g' == g.(board := g'.board) && OnlyDemisChange(g.board, g'.board)
                    && (st == Done ==> solve(Vals(g.board)).Some? && |solve(Vals(g.board)).value| == |g.board|
                                       && v == solve(Vals(g.board)).value[k])
                    && (st != Done ==> st == Unsolvable && !(solve(Vals(g.board)).Some? && |solve(Vals(g.board)).value| == |g.board|)))
  {
    v := 0;
    if !InBoard(g.shape, col, row) {
      return g, OutOfRange, v;
    }
    var k := Index(g.shape, col, row);
    IndexCoordinates(g.shape, col, row);
    var err := IsErroneous(g.shape, g.board);
    if err {
      return g, Erroneous, v;
    }
    if g.board[k].isFixed {
      return g, FixedCell, v;
    }
    if g.board[k].val != 0 {
      return g, HasValue, v;
    }
    var found;
    g', found := SolveBoard(g, solve);
    if !found {
      return g', Unsolvable, v;
    }
    assert Demis(g'.board)[k] == g'.board[k].demiVal;
    v := g'.board[k].demiVal;
    st := Done;
  }
}
