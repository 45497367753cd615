/**
  autofill (Game.c) and its helper getCellSingleValue (AuxMethods.c): every
  empty cell with exactly one candidate value, judged on the board as it was
  before the command, is committed in index order as one logical action.
 */
module Autofill {
  import opened Geometry
  import opened Board
  import opened History
  import opened Commands
  import opened Search

  /** v is a legal value for cell k: in 1..N and held by none of k's peers. */
  ghost predicate Candidate(sh: Shape, vs: seq<int>, k: int, v: int)
    requires sh.Valid()
  {
    1 <= v <= sh.N() && !exists q :: 0 <= q < |vs| && Peer(sh, k, q) && vs[q] == v
  }

  /** The legal values of cell k below bound. */
  ghost function CandidatesBelow(sh: Shape, vs: seq<int>, k: int, bound: int): set<int>
    requires sh.Valid()
  {
    set v | 1 <= v < bound && Candidate(sh, vs, k, v)
  }

  /** All legal values of cell k. */
  ghost function Candidates(sh: Shape, vs: seq<int>, k: int): set<int>
    requires sh.Valid()
  {
    CandidatesBelow(sh, vs, k, sh.N() + 1)
  }

  /** A set of one element that holds x is {x}. */
  lemma Singleton(s: set<int>, x: int)
    requires |s| == 1 && x in s
    ensures s == {x}
  {
    assert |s - {x}| == 0;
  }

  /** The single legal value of cell k, or 0 when it has none or several. */
  ghost function Sole(sh: Shape, vs: seq<int>, k: int): (r: int)
    requires sh.Valid()
    ensures r != 0 <==> |Candidates(sh, vs, k)| == 1
    ensures r != 0 ==> Candidates(sh, vs, k) == {r} && 1 <= r <= sh.N()
  {
    var c := Candidates(sh, vs, k);
    if |c| == 1 then
      var x :| x in c;
      Singleton(c, x);
      x
    else
      0
  }

  /**
    getCellSingleValue(k): each value 1..N is tried against k's column, row
    and block; the result is the only value that passed, or 0 unless exactly
    one did.
   */
  method GetCellSingleValue(sh: Shape, vs: seq<int>, k: int) returns (r: int)
    requires sh.Valid() && |vs| == sh.Size() && 0 <= k < |vs|
    ensures r != 0 <==> |Candidates(sh, vs, k)| == 1
    ensures r != 0 ==> Candidates(sh, vs, k) == {r}
    ensures r == Sole(sh, vs, k)
  {
    var counter := 0;
    var result := 0;
    var v := 1;
    while v <= sh.N()
      invariant 1 <= v <= sh.N() + 1
      invariant counter == |CandidatesBelow(sh, vs, k, v)|
      invariant counter > 0 ==> result in CandidatesBelow(sh, vs, k, v)
    {
      var held := PeerHolds(sh, vs, k, v);
      if held {
        assert CandidatesBelow(sh, vs, k, v + 1) == CandidatesBelow(sh, vs, k, v);
      } else {
        assert CandidatesBelow(sh, vs, k, v + 1) == CandidatesBelow(sh, vs, k, v) + {v};
        counter := counter + 1;
        result := v;
      }
      v := v + 1;
    }
    r := 0;
    if counter == 1 {
      Singleton(Candidates(sh, vs, k), result);
      r := result;
    }
  }

  /** The value the first pass stores in each cell's demi-value: the sole candidate of an empty cell, else 0. */
  ghost function Fills(sh: Shape, vs: seq<int>): (fs: seq<int>)
    requires sh.Valid()
    ensures |fs| == |vs|
  {
    seq(|vs|, i requires 0 <= i < |vs| => if vs[i] == 0 then Sole(sh, vs, i) else 0)
  }

  /**
    The first pass of autofill: demi-values cleared from cell 0, then every
    empty cell with a single candidate gets it as demi-value; last is the
    highest such cell, or -1.
   */
  method MarkSingles(sh: Shape, b: seq<Cell>) returns (b': seq<Cell>, last: int)
    requires sh.Valid() && |b| == sh.Size()
    ensures OnlyDemisChange(b, b') && Demis(b') == Fills(sh, Vals(b))
    ensures -1 <= last < |b| && (last >= 0 ==> Fills(sh, Vals(b))[last] != 0)
    ensures forall j :: last < j < |b| ==> Fills(sh, Vals(b))[j] == 0
  {
    ghost var fs := Fills(sh, Vals(b));
    var vs := Vals(b);
    b' := ClearDemiVals(b, 0);
    last := -1;
    var index := 0;
    while index < |b|
      invariant 0 <= index <= |b| && -1 <= last < index
      invariant OnlyDemisChange(b, b')
      invariant forall i :: 0 <= i < |b| ==> b'[i].demiVal == (if i < index then fs[i] else 0)
      invariant last >= 0 ==> fs[last] != 0
      invariant forall j :: last < j < index ==> fs[j] == 0
    {
      if b'[index].val != 0 {
        index := index + 1;
        continue;
      }
      var v := GetCellSingleValue(sh, vs, index);
      if v == 0 {
        index := index + 1;
        continue;
      }
      b' := b'[index := b'[index].(demiVal := v)];
      last := index;
      index := index + 1;
    }
  }

  /** The automatic moves that commit fs[0..n), in index order; every committed cell was empty. */
  function Plan(sh: Shape, fs: seq<int>, n: nat): (p: seq<Move>)
    requires sh.Valid() && n <= |fs|
  {
    if n == 0 then []
    else Plan(sh, fs, n - 1) + (if fs[n - 1] != 0 then [Move(Col(sh, n - 1), Row(sh, n - 1), 0, fs[n - 1], false)] else [])
  }

  /** The values once fs[0..n) is committed over vs. */
  function Partial(vs: seq<int>, fs: seq<int>, n: int): (r: seq<int>)
    requires |fs| == |vs|
  {
    seq(|vs|, i requires 0 <= i < |vs| => if i < n && fs[i] != 0 then fs[i] else vs[i])
  }

  /** Cells after the last nonzero fill add no move. */
  lemma {:induction false} PlanTail(sh: Shape, fs: seq<int>, last: nat, n: nat)
    requires sh.Valid() && last < n <= |fs|
    requires forall j :: last < j < |fs| ==> fs[j] == 0
    ensures Plan(sh, fs, n) == Plan(sh, fs, last + 1)
    decreases n
  {
    if n > last + 1 {
      PlanTail(sh, fs, last, n - 1);
    }
  }

  /** Recording a move over the value it replaces leaves every rewind to an earlier cursor unchanged. */
  lemma SetKeepsRewind(sh: Shape, vs: seq<int>, moves: seq<Move>, cur: nat, j: nat, m: Move)
    requires j <= cur < |moves| && 0 <= At(sh, m) < |vs| && vs[At(sh, m)] == m.oldVal
    ensures Rewind(sh, vs[At(sh, m) := m.newVal], AddMove(moves, cur, m), cur + 1, j) == Rewind(sh, vs, moves, cur, j)
  {
    var moves' := AddMove(moves, cur, m);
    var vs' := vs[At(sh, m) := m.newVal];
    RewindFirst(sh, vs', moves', cur + 1, j);
    assert Undo1(sh, vs', m) == vs;
    BackPrefix(sh, vs, moves, moves', cur, j);
  }

  /**
    The state of a commit loop before cell index, the history's coherence
    aside: g1 is g with fs[0..index) committed, the demi-values holding ds,
    and rewinding g1's new moves gives back g's values.
   */
  ghost predicate Committed(g: Game, fs: seq<int>, ds: seq<int>, g1: Game, index: int)
    requires g.shape.Valid() && g.cur < |g.moves| && |fs| == |g.board|
  {
    && g1.shape == g.shape && g1.mode == g.mode && |g1.board| == |g.board| && |ds| == |g.board|
    && (forall i :: 0 <= i < |g.board| ==> g1.board[i].isFixed == g.board[i].isFixed && g1.board[i].demiVal == ds[i])
    && Vals(g1.board) == Partial(Vals(g.board), fs, index)
    && g.cur <= g1.cur < |g1.moves|
    && g1.moves[..g.cur + 1] == g.moves[..g.cur + 1]
    && Rewind(g.shape, Vals(g1.board), g1.moves, g1.cur, g.cur) == Vals(g.board)
  }

  /** The moves after g's cursor up to g1's are the plan for fs[0..index). */
  ghost predicate Planned(g: Game, fs: seq<int>, g1: Game, index: nat)
    requires g.shape.Valid() && g.cur < |g.moves| && index <= |fs|
  {
    g1.cur == g.cur + |Plan(g.shape, fs, index)| < |g1.moves|
    && g1.moves[..g1.cur + 1] == g.moves[..g.cur + 1] + Plan(g.shape, fs, index)
  }

  /** A recorded setCell of the empty cell index to fs[index] advances the commit state by one cell. */
  lemma RecordStep(g: Game, fs: seq<int>, ds: seq<int>, g1: Game, g2: Game, index: int, user: bool)
    requires g.shape.Valid() && g.cur < |g.moves| && |fs| == |g.board| == g.shape.Size() && 0 <= index < |fs|
    requires Vals(g.board)[index] == 0 && fs[index] != 0
    requires Committed(g, fs, ds, g1, index)
    requires Recorded(g1, Move(Col(g.shape, index), Row(g.shape, index), 0, fs[index], user), g2)
    ensures Committed(g, fs, ds, g2, index + 1)
    ensures g2.moves == g1.moves[..g1.cur + 1] + [Move(Col(g.shape, index), Row(g.shape, index), 0, fs[index], user)]
    ensures g2.cur == g1.cur + 1
  {
    var sh := g.shape;
    CellCoordinates(sh, index);
    var m := Move(Col(sh, index), Row(sh, index), 0, fs[index], user);
    assert At(sh, m) == index;
    assert Vals(g2.board) == Partial(Vals(g.board), fs, index + 1);
    assert g2.moves[..g.cur + 1] == g1.moves[..g.cur + 1];
    SetKeepsRewind(sh, Vals(g1.board), g1.moves, g1.cur, g.cur, m);
  }

  /** One setCell of the commit loop: the empty cell index takes its demi-value and the move is recorded after the cursor. */
  method CommitCell(ghost g: Game, ghost fs: seq<int>, g1: Game, index: int, user: bool) returns (g2: Game)
    requires g.shape.Valid() && g.cur < |g.moves| && |fs| == |g.board| == g.shape.Size() && 0 <= index < |fs|
    requires Vals(g.board)[index] == 0 && 1 <= fs[index] <= g.shape.N()
    requires Coherent(g1) && Committed(g, fs, fs, g1, index)
    ensures Coherent(g2) && Committed(g, fs, fs, g2, index + 1)
    ensures g2.moves == g1.moves[..g1.cur + 1] + [Move(Col(g.shape, index), Row(g.shape, index), 0, fs[index], user)]
    ensures g2.cur == g1.cur + 1
  {
    var sh := g1.shape;
    CellCoordinates(sh, index);
    var col, row := Col(sh, index), Row(sh, index);
    var v := g1.board[index].demiVal;
    assert g1.board[index].val == Vals(g1.board)[index] == 0;
    g2 := SetCell(g1, col, row, v, user);
    RecordStep(g, fs, fs, g1, g2, index, user);
  }

  /** An automatic move for a nonzero fs[index] extends the plan by one move. */
  lemma PlanStep(g: Game, fs: seq<int>, g1: Game, g2: Game, index: nat)
    requires g.shape.Valid() && g.cur < |g.moves| && index < |fs| && fs[index] != 0
    requires Planned(g, fs, g1, index)
    requires g2.moves == g1.moves[..g1.cur + 1] + [Move(Col(g.shape, index), Row(g.shape, index), 0, fs[index], false)]
    requires g2.cur == g1.cur + 1
    ensures Planned(g, fs, g2, index + 1)
  {
    assert g2.moves[..g2.cur + 1] == g2.moves;
  }

  /** A zero fs[index] is skipped: neither the values nor the plan change. */
  lemma SkipStep(g: Game, fs: seq<int>, ds: seq<int>, g1: Game, index: nat)
    requires g.shape.Valid() && g.cur < |g.moves| && |fs| == |g.board| && index < |fs| && fs[index] == 0
    requires Committed(g, fs, ds, g1, index) && Planned(g, fs, g1, index)
    ensures Committed(g, fs, ds, g1, index + 1) && Planned(g, fs, g1, index + 1)
  {
    assert Partial(Vals(g.board), fs, index + 1) == Partial(Vals(g.board), fs, index);
  }

  /** Every move of a plan is automatic. */
  lemma {:induction false} PlanAutomatic(sh: Shape, fs: seq<int>, n: nat)
    requires sh.Valid() && n <= |fs|
    ensures forall i :: 0 <= i < |Plan(sh, fs, n)| ==> !Plan(sh, fs, n)[i].user
  {
    if n > 0 {
      PlanAutomatic(sh, fs, n - 1);
    }
  }

  /** Changing only demi-values keeps the game coherent. */
  lemma DemisKeepCoherent(g: Game, b: seq<Cell>)
    requires Coherent(g) && OnlyDemisChange(g.board, b)
    ensures Coherent(g.(board := b)) && Vals(b) == Vals(g.board)
    ensures WF(g) ==> WF(g.(board := b)) && Origin(g.(board := b)) == Origin(g)
  {
    OnlyDemisSameVals(g.board, b);
  }

  /** In the commit state every cell's demi-value is the one ds gives. */
  lemma DemiIsFill(g: Game, fs: seq<int>, ds: seq<int>, g1: Game, index: nat)
    requires g.shape.Valid() && g.cur < |g.moves| && |fs| == |g.board| && index < |fs|
    requires Committed(g, fs, ds, g1, index)
    ensures index < |g1.board| && g1.board[index].demiVal == ds[index]
  {
  }

  /** One pass of the commit loop: cell index is committed as an automatic move when its demi-value is nonzero. */
  method CommitStep(ghost g: Game, ghost fs: seq<int>, g1: Game, index: nat) returns (g2: Game)
    requires g.shape.Valid() && g.cur < |g.moves| && |fs| == |g.board| == g.shape.Size() && index < |fs|
    requires fs[index] != 0 ==> Vals(g.board)[index] == 0 && 1 <= fs[index] <= g.shape.N()
    requires Coherent(g1) && Committed(g, fs, fs, g1, index) && Planned(g, fs, g1, index)
    ensures Coherent(g2) && Committed(g, fs, fs, g2, index + 1) && Planned(g, fs, g2, index + 1)
  {
    DemiIsFill(g, fs, fs, g1, index);
    if g1.board[index].demiVal != 0 {
      g2 := CommitCell(g, fs, g1, index, false);
      PlanStep(g, fs, g1, g2, index);
    } else {
      SkipStep(g, fs, fs, g1, index);
      g2 := g1;
    }
  }

  /** The commit loop from cell index: every nonzero fs[index..last) is committed as an automatic move. */
  method CommitFrom(ghost g: Game, ghost fs: seq<int>, g1: Game, index: nat, last: nat) returns (g2: Game)
    requires g.shape.Valid() && g.cur < |g.moves| && |fs| == |g.board| == g.shape.Size() && index <= last < |fs|
    requires forall i :: 0 <= i < |fs| && fs[i] != 0 ==> Vals(g.board)[i] == 0 && 1 <= fs[i] <= g.shape.N()
    requires Coherent(g1) && Committed(g, fs, fs, g1, index) && Planned(g, fs, g1, index)
    ensures Coherent(g2) && Committed(g, fs, fs, g2, last) && Planned(g, fs, g2, last)
    decreases last - index
  {
    if index == last {
      return g1;
    }
    var next := CommitStep(g, fs, g1, index);
    g2 := CommitFrom(g, fs, next, index + 1, last);
  }

  /** After the commit, undo goes back exactly to g's cursor and values. */
  lemma UndoCommitted(g: Game, g': Game)
    requires WF(g) && WF(g') && g'.shape == g.shape && g.cur < g'.cur
    requires g'.moves[..g.cur + 1] == g.moves[..g.cur + 1]
    requires forall j :: g.cur < j < g'.cur ==> !g'.moves[j].user
    requires Rewind(g.shape, Vals(g'.board), g'.moves, g'.cur, g.cur) == Vals(g.board)
    ensures UndoBatch(g').cur == g.cur && Vals(UndoBatch(g').board) == Vals(g.board)
  {
    assert g.cur == 0 || g'.moves[g.cur].user by {
      assert g'.moves[g.cur] == g'.moves[..g.cur + 1][g.cur];
    }
    var p := PrevAnchor(g'.moves, g'.cur);
    assert !(p < g.cur) && !(g.cur < p);
    RebuildSetup(g', Rewind(g.shape, Vals(g'.board), g'.moves, g'.cur, p), p);
  }

  /**
    The last setCell closes the action: the values are all of fs committed,
    the moves are the plan with its last move user-flagged, and the moves
    between g's cursor and the new one are automatic.
   */
  lemma Finish(g: Game, fs: seq<int>, g1: Game, g': Game, last: nat)
    requires g.shape.Valid() && g.cur < |g.moves| && |fs| == |g.board| && last < |fs| && fs[last] != 0
    requires forall j :: last < j < |fs| ==> fs[j] == 0
    requires Planned(g, fs, g1, last) && Committed(g, fs, fs, g', last + 1) && g'.cur == g1.cur + 1
    requires g'.moves == g1.moves[..g1.cur + 1] + [Move(Col(g.shape, last), Row(g.shape, last), 0, fs[last], true)]
    ensures Origin(g') == Origin(g) && Vals(g'.board) == Partial(Vals(g.board), fs, |fs|)
    ensures g'.cur == |g'.moves| - 1 && g'.moves[g'.cur].user
    ensures forall j :: g.cur < j < g'.cur ==> !g'.moves[j].user
    ensures var p := Plan(g.shape, fs, |fs|);
            |p| > 0 && g'.moves == g.moves[..g.cur + 1] + p[..|p| - 1] + [p[|p| - 1].(user := true)]
  {
    var sh := g.shape;
    var vs := Vals(g.board);
    var pl := Plan(sh, fs, last);
    var m := Move(Col(sh, last), Row(sh, last), 0, fs[last], false);
    PlanTail(sh, fs, last, |fs|);
    var p := Plan(sh, fs, |fs|);
    assert p == pl + [m];
    assert p[..|p| - 1] == pl;
    assert Partial(vs, fs, last + 1) == Partial(vs, fs, |fs|);
    assert g'.moves == g.moves[..g.cur + 1] + pl + [m.(user := true)];
    RewindTrans(sh, Vals(g'.board), g'.moves, g'.cur, g.cur, 0);
    BackPrefix(sh, vs, g.moves, g'.moves, g.cur, 0);
    PlanAutomatic(sh, fs, last);
    forall j | g.cur < j < g'.cur
      ensures !g'.moves[j].user
    {
      assert g'.moves[j] == pl[j - g.cur - 1];
    }
  }

  /** The board carries an error flag. */
  ghost predicate Flagged(b: seq<Cell>) {
    exists p :: 0 <= p < |b| && b[p].isError
  }

  /**
    What autofill does to a board without error flags, fs being the single
    candidates on g's values: the demi-values hold fs, every nonzero fs[i]
    is committed, the other cells keep their values; the commits are the
    plan's moves in index order, the last one user-flagged, recorded after
    g's cursor; and undo takes the whole batch back. With nothing to commit
    the history is untouched.
   */
  ghost predicate Autofilled(g: Game, g': Game)
    requires WF(g)
  {
    var fs := Fills(g.shape, Vals(g.board));
    var p := Plan(g.shape, fs, |fs|);
    && WF(g') && Origin(g') == Origin(g)
    && Vals(g'.board) == Partial(Vals(g.board), fs, |fs|)
    && g'.shape == g.shape && g'.mode == g.mode && |g'.board| == |g.board|
    && (forall i :: 0 <= i < |g.board| ==> g'.board[i].isFixed == g.board[i].isFixed && g'.board[i].demiVal == fs[i])
    && (|p| == 0 ==> g'.moves == g.moves && g'.cur == g.cur)
    && (|p| > 0 ==>
          && g'.moves == g.moves[..g.cur + 1] + p[..|p| - 1] + [p[|p| - 1].(user := true)]
          && g'.cur == |g'.moves| - 1
          && UndoBatch(g').cur == g.cur && Vals(UndoBatch(g').board) == Vals(g.board))
  }

  /** A nonzero fill is the sole candidate of a cell that was empty. */
  lemma FillsFacts(sh: Shape, vs: seq<int>)
    requires sh.Valid()
    ensures forall i :: 0 <= i < |vs| && Fills(sh, vs)[i] != 0 ==> vs[i] == 0 && 1 <= Fills(sh, vs)[i] <= sh.N()
  {
    var fs := Fills(sh, vs);
    forall i | 0 <= i < |vs| && fs[i] != 0
      ensures vs[i] == 0 && 1 <= fs[i] <= sh.N()
    {
      assert fs[i] == (if vs[i] == 0 then Sole(sh, vs, i) else 0);
    }
  }

  /** With no single candidate anywhere, only the demi-values are cleared. */
  lemma NothingToFill(g: Game, b: seq<Cell>)
    requires WF(g) && OnlyDemisChange(g.board, b) && Demis(b) == Fills(g.shape, Vals(g.board))
    requires forall j :: 0 <= j < |b| ==> Fills(g.shape, Vals(g.board))[j] == 0
    ensures Autofilled(g, g.(board := b))
  {
    var sh := g.shape;
    var vs := Vals(g.board);
    var fs := Fills(sh, vs);
    DemisKeepCoherent(g, b);
    assert Partial(vs, fs, |fs|) == vs;
    assert forall i :: 0 <= i < |b| ==> b[i].demiVal == Demis(b)[i];
    if |fs| > 0 {
      PlanTail(sh, fs, 0, |fs|);
      assert fs[0] == 0;
    }
  }

  /** Before the commit loop: g with the marked demi-values is coherent and has committed nothing. */
  lemma StartCommit(g: Game, b: seq<Cell>)
    requires WF(g) && OnlyDemisChange(g.board, b) && Demis(b) == Fills(g.shape, Vals(g.board))
    ensures Coherent(g.(board := b))
    ensures Committed(g, Fills(g.shape, Vals(g.board)), Fills(g.shape, Vals(g.board)), g.(board := b), 0)
    ensures Planned(g, Fills(g.shape, Vals(g.board)), g.(board := b), 0)
  {
    DemisKeepCoherent(g, b);
    assert forall i :: 0 <= i < |b| ==> b[i].demiVal == Demis(b)[i];
    assert Partial(Vals(g.board), Fills(g.shape, Vals(g.board)), 0) == Vals(g.board);
  }

  /** After the final user move the game is in the state autofill promises. */
  lemma Closed(g: Game, g1: Game, g': Game, last: int)
    requires WF(g) && 0 <= last < |g.board| && Fills(g.shape, Vals(g.board))[last] != 0
    requires forall j :: last < j < |g.board| ==> Fills(g.shape, Vals(g.board))[j] == 0
    requires Planned(g, Fills(g.shape, Vals(g.board)), g1, last)
    requires Coherent(g') && Committed(g, Fills(g.shape, Vals(g.board)), Fills(g.shape, Vals(g.board)), g', last + 1) && g'.cur == g1.cur + 1
    requires g'.moves == g1.moves[..g1.cur + 1] + [Move(Col(g.shape, last), Row(g.shape, last), 0, Fills(g.shape, Vals(g.board))[last], true)]
    ensures Autofilled(g, g')
  {
    Finish(g, Fills(g.shape, Vals(g.board)), g1, g', last);
    UndoCommitted(g, g');
  }

  /** The commit phase: every nonzero demi-value up to last is committed, the one at last as a user move. */
  method CommitAll(g: Game, b: seq<Cell>, last: int) returns (g': Game)
    requires WF(g) && OnlyDemisChange(g.board, b) && Demis(b) == Fills(g.shape, Vals(g.board))
    requires 0 <= last < |b| && Fills(g.shape, Vals(g.board))[last] != 0
    requires forall j :: last < j < |b| ==> Fills(g.shape, Vals(g.board))[j] == 0
    ensures Autofilled(g, g')
  {
    ghost var fs := Fills(g.shape, Vals(g.board));
    FillsFacts(g.shape, Vals(g.board));
    var gd := g.(board := b);
    StartCommit(g, b);
    var g1 := CommitFrom(g, fs, gd, 0, last);
    g' := CommitCell(g, fs, g1, last, true);
    Closed(g, g1, g', last);
  }

  /**
    autofill: refused on an erroneous board; otherwise the first pass marks
    the single candidates and the commit phase records them.
   */
  method Autofill(g: Game) returns (g': Game, st: Status)
    requires WF(g)
    ensures Flagged(g.board) ==> g' == g && st == Erroneous
    ensures !Flagged(g.board) ==> st == Done && Autofilled(g, g')
  {
    var bad := IsErroneous(g.shape, g.board);
    if bad {
      return g, Erroneous;
    }
    st := Done;
    var b, last := MarkSingles(g.shape, g.board);
    if last < 0 {
      NothingToFill(g, b);
      return g.(board := b), st;
    }
    g' := CommitAll(g, b, last);
  }

  /**
    Cell by cell: a filled cell keeps its value, and an empty cell gets a
    value exactly when it had a single candidate on the board before the
    command, namely that candidate.
   */
  lemma AutofillCells(g: Game, g': Game, i: int)
    requires WF(g) && Autofilled(g, g') && 0 <= i < |g.board|
    ensures i < |g'.board|
    ensures g.board[i].val != 0 ==> g'.board[i].val == g.board[i].val
    ensures g.board[i].val == 0 ==> (g'.board[i].val != 0 <==> |Candidates(g.shape, Vals(g.board), i)| == 1)
    ensures g.board[i].val == 0 && g'.board[i].val != 0 ==> Candidates(g.shape, Vals(g.board), i) == {g'.board[i].val}
  {
    var vs := Vals(g.board);
    var fs := Fills(g.shape, vs);
    assert g'.board[i].val == Vals(g'.board)[i] == Partial(vs, fs, |fs|)[i];
    assert fs[i] == (if vs[i] == 0 then Sole(g.shape, vs, i) else 0);
  }
}
