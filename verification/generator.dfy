/**
  The puzzle generator: tryGenerate (AuxMethods.c) and the argument checks
  and retry loop of generate (Game.c). rand() is a finite stream of
  non-negative numbers given as input, and the ILP solver is an oracle.
 */
module Generator {
  import opened Wrappers
  import opened Geometry
  import opened Board
  import opened History
  import opened Commands
  import opened Autofill
  import opened Solutions

  /** What one tryGenerate attempt ends with; OutOfDraws is the model's answer when the finite random stream runs dry. */
  datatype Attempt = Generated | NoSolution | OutOfDraws

  /** tryGenerate marks a kept cell by storing its value plus this offset in the demi-value. */
  const Offset := 26

  /** Tries before generate gives up. */
  const MaxTries := 1000

  /** randInt(range): rand() % range, for the non-negative numbers rand() returns. */
  function RandInt(r: nat, range: int): (v: int)
    requires range > 0
    ensures 0 <= v < range
  {
    r % range
  }

  /** r is what is left of the stream s after some draws were taken from its front. */
  predicate Suffix(r: seq<nat>, s: seq<nat>) {
    |r| <= |s| && r == s[|s| - |r|..]
  }

  /** A solver answer tryGenerate can use: a full assignment of values in 1..N. */
  predicate Usable(sh: Shape, r: Option<seq<int>>) {
    r.Some? && |r.value| == sh.Size() && forall i :: 0 <= i < |r.value| ==> 1 <= r.value[i] <= sh.N()
  }

  /**
    The first loop of tryGenerate on the values: draw a cell; if it is empty,
    draw a value in 1..N for it; until x cells were filled. None when the
    stream runs out first. The result keeps every filled cell, fills exactly
    x empty ones, and leaves the unused rest of the stream.
   */
  function Scatter(sh: Shape, vs: seq<int>, x: nat, rand: seq<nat>): (r: Option<(seq<int>, seq<nat>)>)
    requires sh.Valid() && |vs| == sh.Size()
    ensures r.Some? ==> |r.value.0| == |vs| && Suffix(r.value.1, rand)
    ensures r.Some? ==> CountFilled(r.value.0) == CountFilled(vs) + x
    ensures r.Some? ==> forall i :: 0 <= i < |vs| ==> if vs[i] != 0 then r.value.0[i] == vs[i] else 0 <= r.value.0[i] <= sh.N()
    decreases |rand|
  {
    ShapeFacts(sh);
    if x == 0 then Some((vs, rand))
    else if |rand| == 0 then None
    else
      var n := RandInt(rand[0], |vs|);
      if vs[n] != 0 then Scatter(sh, vs, x, rand[1..])
      else if |rand| == 1 then None
      else
        var v := RandInt(rand[1], sh.N()) + 1;
        CountFilledUpdate(vs, n, v);
        Scatter(sh, vs[n := v], x - 1, rand[2..])
  }

  /**
    The keep loop of tryGenerate on the demi-values: draw a cell; if its
    demi-value is 0, mark it with its value plus Offset; until y cells were
    marked. None when the stream runs out first.
   */
  function Mark(vals: seq<int>, ds: seq<int>, y: nat, rand: seq<nat>): (r: Option<(seq<int>, seq<nat>)>)
    requires 0 < |vals| == |ds| && forall i :: 0 <= i < |vals| ==> vals[i] >= 0
    ensures r.Some? ==> |r.value.0| == |ds| && Suffix(r.value.1, rand)
    ensures r.Some? ==> CountFilled(r.value.0) == CountFilled(ds) + y
    ensures r.Some? ==> forall i :: 0 <= i < |ds| ==> r.value.0[i] == ds[i] || (ds[i] == 0 && r.value.0[i] == vals[i] + Offset)
    decreases |rand|
  {
    if y == 0 then Some((ds, rand))
    else if |rand| == 0 then None
    else
      var n := RandInt(rand[0], |ds|);
      if ds[n] == 0 then
        CountFilledUpdate(ds, n, vals[n] + Offset);
        Mark(vals, ds[n := vals[n] + Offset], y - 1, rand[1..])
      else
        Mark(vals, ds, y, rand[1..])
  }

  /**
    An example on a 2x1 game with the solution [1, 2, 2, 1]: keeping one
    cell on the stream [3] draws cell 3, so the kept board is [0, 0, 0, 1]
    and not, say, [1, 0, 0, 0].
   */
  lemma MarkExample()
    ensures Mark([1, 2, 2, 1], Zeros(4), 1, [3]) == Some(([0, 0, 0, 1 + Offset], []))
    ensures Target(Mark([1, 2, 2, 1], Zeros(4), 1, [3]).value.0) == [0, 0, 0, 1]
  {
    assert Zeros(4) == [0, 0, 0, 0];
    assert Zeros(4)[3 := 1 + Offset] == [0, 0, 0, 1 + Offset];
  }

  /** Two sequences with the same empty cells count the same number of filled ones. */
  lemma {:induction false} CountFilledSame(a: seq<int>, b: seq<int>)
    requires |a| == |b| && forall i :: 0 <= i < |a| ==> (a[i] != 0 <==> b[i] != 0)
    ensures CountFilled(a) == CountFilled(b)
    decreases |a|
  {
    if |a| > 0 {
      CountFilledSame(a[..|a| - 1], b[..|b| - 1]);
    }
  }

  /** When a prefix already holds every filled cell, the rest is empty. */
  lemma {:induction false} CountFilledPrefix(a: seq<int>, n: nat)
    requires n <= |a| && CountFilled(a[..n]) == CountFilled(a)
    ensures forall j :: n <= j < |a| ==> a[j] == 0
    decreases |a|
  {
    if n < |a| {
      var m := |a| - 1;
      assert a[..m][..n] == a[..n];
      CountFilledMonotone(a[..m], n);
      CountFilledPrefix(a[..m], n);
      forall j | n <= j < |a|
        ensures a[j] == 0
      {
        if j < m {
          assert a[..m][j] == a[j];
        }
      }
    }
  }

  /** A prefix counts no more filled cells than the whole. */
  lemma {:induction false} CountFilledMonotone(a: seq<int>, n: nat)
    requires n <= |a|
    ensures CountFilled(a[..n]) <= CountFilled(a)
    decreases |a|
  {
    if n < |a| {
      var m := |a| - 1;
      assert a[..m][..n] == a[..n];
      CountFilledMonotone(a[..m], n);
    } else {
      assert a[..n] == a;
    }
  }

  /** A plan has one move per filled cell. */
  lemma {:induction false} PlanLength(sh: Shape, fs: seq<int>, n: nat)
    requires sh.Valid() && n <= |fs|
    ensures |Plan(sh, fs, n)| == CountFilled(fs[..n])
  {
    if n > 0 {
      assert fs[..n][..n - 1] == fs[..n - 1];
      PlanLength(sh, fs, n - 1);
    }
  }

  /** Cells from n on that are all empty add no move. */
  lemma {:induction false} PlanRest(sh: Shape, fs: seq<int>, n: nat, k: nat)
    requires sh.Valid() && n <= k <= |fs|
    requires forall j :: n <= j < |fs| ==> fs[j] == 0
    ensures Plan(sh, fs, k) == Plan(sh, fs, n)
    decreases k
  {
    if k > n {
      PlanRest(sh, fs, n, k - 1);
    }
  }

  /** moves with the move at c flagged as a user move. */
  function Flag(moves: seq<Move>, c: nat): (ms: seq<Move>)
    requires c < |moves|
    ensures |ms| == |moves| && ms[c].user
    ensures forall i :: 0 <= i < |moves| && i != c ==> ms[i] == moves[i]
    ensures ms[c] == moves[c].(user := true)
  {
    moves[c := moves[c].(user := true)]
  }

  /** The user flag plays no part in undoing. */
  lemma {:induction false} FlagBack(sh: Shape, vs: seq<int>, moves: seq<Move>, c: nat, k: nat)
    requires c < |moves| && k < |moves|
    ensures BackOk(sh, vs, Flag(moves, k), c) == BackOk(sh, vs, moves, c)
    decreases c
  {
    if c > 0 {
      assert Undo1(sh, vs, Flag(moves, k)[c]) == Undo1(sh, vs, moves[c]);
      FlagBack(sh, Undo1(sh, vs, moves[c]), moves, c - 1, k);
    }
  }

  /** The user flag plays no part in redoing. */
  lemma {:induction false} FlagFwd(sh: Shape, vs: seq<int>, moves: seq<Move>, c: nat, k: nat)
    requires c < |moves| && k < |moves|
    ensures FwdOk(sh, vs, Flag(moves, k), c) == FwdOk(sh, vs, moves, c)
    decreases |moves| - c
  {
    if c + 1 < |moves| {
      assert Redo1(sh, vs, Flag(moves, k)[c + 1]) == Redo1(sh, vs, moves[c + 1]);
      FlagFwd(sh, Redo1(sh, vs, moves[c + 1]), moves, c + 1, k);
    }
  }

  /** Rewinding does not look at user flags. */
  lemma {:induction false} FlagRewind(sh: Shape, vs: seq<int>, moves: seq<Move>, c: nat, j: nat, k: nat)
    requires j <= c < |moves| && k < |moves|
    ensures Rewind(sh, vs, Flag(moves, k), c, j) == Rewind(sh, vs, moves, c, j)
    decreases c - j
  {
    if j < c {
      FlagRewind(sh, vs, moves, c, j + 1, k);
      assert Flag(moves, k)[j + 1].col == moves[j + 1].col && Flag(moves, k)[j + 1].row == moves[j + 1].row;
    }
  }

  /** Flagging the current move as a user move keeps the game coherent. */
  lemma FlagCoherent(g: Game)
    requires Coherent(g)
    ensures Coherent(g.(moves := Flag(g.moves, g.cur)))
  {
    FlagBack(g.shape, Vals(g.board), g.moves, g.cur, g.cur);
    FlagFwd(g.shape, Vals(g.board), g.moves, g.cur, g.cur);
    var ms := Flag(g.moves, g.cur);
    assert MovesOk(g.shape, ms) by {
      forall i | 1 <= i < |ms|
        ensures MoveOk(g.shape, ms[i])
      {
        assert MoveOk(g.shape, g.moves[i]);
      }
    }
  }

  /** n zero values. */
  function Zeros(n: nat): (z: seq<int>)
    ensures |z| == n && forall i :: 0 <= i < n ==> z[i] == 0
  {
    seq(n, _ => 0)
  }

  /** The values the placing loop commits: a mark m stands for m - Offset, no mark for 0. */
  function Target(marks: seq<int>): seq<int> {
    seq(|marks|, i requires 0 <= i < |marks| => if marks[i] != 0 then marks[i] - Offset else 0)
  }

  /** The demi-values once the marks before cell n are cleared. */
  function Unmarked(marks: seq<int>, n: nat): seq<int> {
    seq(|marks|, i requires 0 <= i < |marks| => if i < n then 0 else marks[i])
  }

  /** What the placing loop starts from: an empty board of g's shape and marks that stand for values in 0..N. */
  ghost predicate Marks(g: Game, marks: seq<int>) {
    && g.shape.Valid() && g.cur < |g.moves| && |g.board| == g.shape.Size() && |marks| == |g.board|
    && forall i :: 0 <= i < |marks| ==> g.board[i].val == 0 && (marks[i] == 0 || Offset <= marks[i] <= Offset + g.shape.N())
  }

  /**
    The state of the placing loop before cell n: g1 is coherent, has the
    values t[0..n) committed over g's and demi-values ds, and its moves after
    g's cursor are the plan for t[0..n), ending the list; with no move yet
    the list is g's own.
   */
  ghost predicate Placing(g: Game, t: seq<int>, ds: seq<int>, g1: Game, n: nat)
    requires g.shape.Valid() && g.cur < |g.moves| && |t| == |g.board| && n <= |t|
  {
    && Coherent(g1) && Committed(g, t, ds, g1, n) && Planned(g, t, g1, n)
    && (|Plan(g.shape, t, n)| == 0 ==> g1.moves == g.moves)
    && (|Plan(g.shape, t, n)| > 0 ==> |g1.moves| == g1.cur + 1)
  }

  /** The setCell of the placing loop: cell n, still empty, takes the value its mark stands for, as an automatic move. */
  method SetMark(ghost g: Game, ghost t: seq<int>, ghost ds: seq<int>, g1: Game, n: nat) returns (g2: Game)
    requires g.shape.Valid() && g.cur < |g.moves| && |t| == |g.board| == g.shape.Size() && n < |t|
    requires Vals(g.board)[n] == 0 && 1 <= t[n] <= g.shape.N()
    requires Placing(g, t, ds, g1, n) && g1.board[n].demiVal == t[n] + Offset
    ensures Placing(g, t, ds, g2, n + 1)
  {
    var sh := g1.shape;
    CellCoordinates(sh, n);
    assert g1.board[n].val == Vals(g1.board)[n] == 0;
    g2 := SetCell(g1, Col(sh, n), Row(sh, n), g1.board[n].demiVal - Offset, false);
    RecordStep(g, t, ds, g1, g2, n, false);
    PlanStep(g, t, g1, g2, n);
  }

  /** Clearing a demi-value leaves the placing state as it was, with that demi-value 0. */
  lemma ClearMark(g: Game, t: seq<int>, ds: seq<int>, g1: Game, n: nat, k: nat)
    requires g.shape.Valid() && g.cur < |g.moves| && |t| == |g.board| && n <= |t| && k < |t|
    requires Placing(g, t, ds, g1, n)
    ensures Placing(g, t, ds[k := 0], g1.(board := g1.board[k := g1.board[k].(demiVal := 0)]), n)
  {
    var b := g1.board[k := g1.board[k].(demiVal := 0)];
    DemisKeepCoherent(g1, b);
  }

  /** A skipped cell: nothing to commit, so only the loop index moves on. */
  lemma SkipMark(g: Game, t: seq<int>, ds: seq<int>, g1: Game, n: nat)
    requires g.shape.Valid() && g.cur < |g.moves| && |t| == |g.board| && n < |t| && t[n] == 0
    requires Placing(g, t, ds, g1, n)
    ensures Placing(g, t, ds, g1, n + 1)
  {
    SkipStep(g, t, ds, g1, n);
  }

  /**
    One pass of the placing loop over cell n: a marked cell gets its value
    unless the mark stands for 0, and its mark is cleared; marked tells
    whether the cell counted.
   */
  method PlaceStep(ghost g: Game, ghost marks: seq<int>, g1: Game, n: nat) returns (g2: Game, marked: bool)
    requires Marks(g, marks) && n < |marks|
    requires Placing(g, Target(marks), Unmarked(marks, n), g1, n)
    ensures Placing(g, Target(marks), Unmarked(marks, n + 1), g2, n + 1)
    ensures marked == (marks[n] != 0)
  {
    ghost var t := Target(marks);
    ghost var ds := Unmarked(marks, n);
    DemiIsFill(g, t, ds, g1, n);
    var d := g1.board[n].demiVal;
    marked := d != 0;
    if d == 0 {
      SkipMark(g, t, ds, g1, n);
      assert Unmarked(marks, n + 1) == ds;
      return g1, marked;
    }
    var g3 := g1;
    if d != Offset {
      assert Vals(g.board)[n] == g.board[n].val;
      g3 := SetMark(g, t, ds, g1, n);
    } else {
      SkipMark(g, t, ds, g1, n);
    }
    ClearMark(g, t, ds, g3, n + 1, n);
    assert ds[n := 0] == Unmarked(marks, n + 1);
    g2 := g3.(board := g3.board[n := g3.board[n].(demiVal := 0)]);
  }

  /** Counting one more cell of a prefix. */
  lemma CountFilledStep(a: seq<int>, n: nat)
    requires n < |a|
    ensures CountFilled(a[..n + 1]) == CountFilled(a[..n]) + (if a[n] != 0 then 1 else 0)
  {
    assert a[..n + 1][..n] == a[..n];
  }

  /**
    The placing loop of tryGenerate from cell n, counter being the marks
    seen so far: it stops once all y marks are seen, at a cell m from which
    on no mark is left.
   */
  method PlaceFrom(ghost g: Game, ghost marks: seq<int>, g1: Game, n: nat, counter: nat, y: nat) returns (g2: Game, m: nat)
    requires Marks(g, marks) && n <= |marks|
    requires Placing(g, Target(marks), Unmarked(marks, n), g1, n)
    requires counter == CountFilled(marks[..n]) && y == CountFilled(marks)
    ensures n <= m <= |marks| && Placing(g, Target(marks), Unmarked(marks, m), g2, m)
    ensures forall j :: m <= j < |marks| ==> marks[j] == 0
    decreases |marks| - n
  {
    if counter >= y {
      CountFilledMonotone(marks, n);
      CountFilledPrefix(marks, n);
      return g1, n;
    }
    assert marks[..|marks|] == marks;
    var g3, marked := PlaceStep(g, marks, g1, n);
    CountFilledStep(marks, n);
    g2, m := PlaceFrom(g, marks, g3, n + 1, counter + (if marked then 1 else 0), y);
  }

  /**
    The solved board's second phase: the solution becomes the values
    (copyDemivalsToVals), the demi-values are cleared, y cells are marked,
    the marks are written and the values cleared again. On an empty board
    only the demi-values end up changed, holding the marks.
   */
  method Prepare(b: seq<Cell>, sol: seq<int>, y: nat, rand: seq<nat>) returns (w: seq<Cell>, r: Option<(seq<int>, seq<nat>)>)
    requires 0 < |b| == |sol| && forall i :: 0 <= i < |b| ==> b[i].val == 0 && sol[i] >= 1
    ensures r == Mark(sol, Zeros(|b|), y, rand)
    ensures r.Some? ==> OnlyDemisChange(b, w) && Demis(w) == r.value.0
  {
    var w0 := StoreSolution(b, sol);
    var w1 := CopyDemivalsToVals(w0);
    w := ClearDemiVals(w1, 0);
    assert Vals(w) == sol && Demis(w) == Zeros(|b|) by {
      forall i | 0 <= i < |b|
        ensures w[i].val == sol[i] && w[i].demiVal == 0
      {
        assert w0[i].demiVal == Demis(w0)[i];
      }
    }
    r := Mark(Vals(w), Demis(w), y, rand);
    if r.Some? {
      var w3 := StoreSolution(w, r.value.0);
      w := ClearBoard(w3);
      assert Demis(w) == Demis(w3);
    }
  }

  /** Before the placing loop: the empty game with the marks as demi-values has placed nothing. */
  lemma StartPlace(g: Game, marks: seq<int>, w: seq<Cell>)
    requires WF(g) && Marks(g, marks) && OnlyDemisChange(g.board, w) && Demis(w) == marks
    ensures Placing(g, Target(marks), Unmarked(marks, 0), g.(board := w), 0)
  {
    DemisKeepCoherent(g, w);
    assert forall i :: 0 <= i < |w| ==> w[i].demiVal == Demis(w)[i];
    assert Partial(Vals(g.board), Target(marks), 0) == Vals(g.board);
    assert Unmarked(marks, 0) == marks;
  }

  /** When the placing loop stops, the values are the marked ones, every demi-value is 0, and the plan is complete. */
  lemma PlaceEnd(g: Game, marks: seq<int>, g2: Game, m: nat)
    requires Marks(g, marks) && m <= |marks| && Placing(g, Target(marks), Unmarked(marks, m), g2, m)
    requires forall j :: m <= j < |marks| ==> marks[j] == 0
    ensures Vals(g2.board) == Target(marks)
    ensures forall i :: 0 <= i < |g2.board| ==> g2.board[i].demiVal == 0
    ensures Plan(g.shape, Target(marks), |marks|) == Plan(g.shape, Target(marks), m)
  {
    var t := Target(marks);
    assert Partial(Vals(g.board), t, m) == t;
    assert Unmarked(marks, m) == Zeros(|marks|);
    PlanRest(g.shape, t, m, |marks|);
  }

  /**
    What a successful tryGenerate leaves, sol being the solver's board:
    y cells keep their solution value and the others are empty, no
    demi-value is left; the kept cells were set in index order as automatic
    moves after g's cursor, the last one flagged as the user's, so one undo
    empties the board again. With y = 0 only the current move is flagged.
   */
  ghost predicate GeneratedBoard(g: Game, sol: seq<int>, y: nat, g': Game)
    requires WF(g)
  {
    && WF(g') && g'.shape == g.shape && g'.mode == g.mode && |g'.board| == |g.board| && |sol| == |g.board|
    && (forall i :: 0 <= i < |g.board| ==>
          && g'.board[i].isFixed == g.board[i].isFixed && g'.board[i].demiVal == 0
          && (g'.board[i].val == 0 || g'.board[i].val == sol[i]))
    && g'.numFilled == y
    && var p := Plan(g.shape, Vals(g'.board), |g.board|);
       && |p| == y
       && (y == 0 ==> g'.moves == Flag(g.moves, g.cur) && g'.cur == g.cur)
       && (y > 0 ==>
             && g'.moves == g.moves[..g.cur + 1] + p[..y - 1] + [p[y - 1].(user := true)]
             && g'.cur == |g'.moves| - 1
             && UndoBatch(g').cur == g.cur && Vals(UndoBatch(g').board) == Vals(g.board))
  }

  /** The marks Mark draws on a solution stand for the solution's values. */
  ghost predicate MarksOf(sol: seq<int>, marks: seq<int>) {
    |marks| == |sol| && forall i :: 0 <= i < |marks| ==> marks[i] == 0 || (1 <= sol[i] && marks[i] == sol[i] + Offset)
  }

  /** After the placing loop the board holds y of the solution's values and nothing else. */
  lemma PlacedBoard(g: Game, sol: seq<int>, marks: seq<int>, y: nat, g2: Game, m: nat)
    requires Marks(g, marks) && MarksOf(sol, marks) && CountFilled(marks) == y
    requires m <= |marks| && Placing(g, Target(marks), Unmarked(marks, m), g2, m)
    requires forall j :: m <= j < |marks| ==> marks[j] == 0
    ensures g2.shape == g.shape && g2.mode == g.mode && |g2.board| == |g.board|
    ensures forall i :: 0 <= i < |g.board| ==>
              && g2.board[i].isFixed == g.board[i].isFixed && g2.board[i].demiVal == 0
              && (g2.board[i].val == 0 || g2.board[i].val == sol[i])
    ensures g2.numFilled == y && Coherent(g2)
    ensures |Plan(g.shape, Target(marks), m)| == y
    ensures Plan(g.shape, Vals(g2.board), |g.board|) == Plan(g.shape, Target(marks), m)
  {
    var t := Target(marks);
    PlaceEnd(g, marks, g2, m);
    CountFilledSame(t, marks);
    PlanLength(g.shape, t, |t|);
    assert t[..|t|] == t;
    forall i | 0 <= i < |g.board|
      ensures g2.board[i].val == 0 || g2.board[i].val == sol[i]
    {
      assert g2.board[i].val == t[i];
    }
  }

  /** With nothing kept, only the current move is flagged and the game stays well formed. */
  lemma ClosedEmpty(g: Game, t: seq<int>, ds: seq<int>, g2: Game, m: nat)
    requires WF(g) && |t| == |g.board| && m <= |t| && Placing(g, t, ds, g2, m) && |Plan(g.shape, t, m)| == 0
    ensures WF(g2.(moves := Flag(g2.moves, g2.cur)))
    ensures g2.moves == g.moves && g2.cur == g.cur
  {
    assert g2.moves == g.moves && g2.cur == g.cur;
    FlagCoherent(g2);
    var ms := Flag(g2.moves, g2.cur);
    assert ms[g.cur].user && |ms| == |g.moves|;
    assert |ms| == 1 || ms[|ms| - 1].user;
  }

  /** The plan with its last move flagged: automatic moves after g's cursor, then the user's. */
  lemma FlaggedPlan(g: Game, t: seq<int>, g2: Game, m: nat)
    requires g.shape.Valid() && g.cur < |g.moves| && m <= |t| && Planned(g, t, g2, m)
    requires |Plan(g.shape, t, m)| > 0 && |g2.moves| == g2.cur + 1
    ensures var ms := Flag(g2.moves, g2.cur);
            var p := Plan(g.shape, t, m);
            && ms == g.moves[..g.cur + 1] + p[..|p| - 1] + [p[|p| - 1].(user := true)]
            && ms[..g.cur + 1] == g.moves[..g.cur + 1]
            && forall j :: g.cur < j < g2.cur ==> !ms[j].user
  {
    var ms := Flag(g2.moves, g2.cur);
    var p := Plan(g.shape, t, m);
    assert g2.moves == g2.moves[..g2.cur + 1];
    assert ms == g.moves[..g.cur + 1] + p[..|p| - 1] + [p[|p| - 1].(user := true)];
    PlanAutomatic(g.shape, t, m);
    forall j | g.cur < j < g2.cur
      ensures !ms[j].user
    {
      assert ms[j] == p[j - g.cur - 1];
    }
    assert ms[..g.cur + 1] == g.moves[..g.cur + 1];
  }

  /** With kept cells, the flagged last move closes the batch and one undo restores g's values. */
  lemma ClosedMoves(g: Game, t: seq<int>, ds: seq<int>, g2: Game, m: nat)
    requires WF(g) && |t| == |g.board| && m <= |t| && Placing(g, t, ds, g2, m)
    requires |Plan(g.shape, t, m)| > 0
    ensures var g' := g2.(moves := Flag(g2.moves, g2.cur));
            var p := Plan(g.shape, t, m);
            && WF(g')
            && g'.moves == g.moves[..g.cur + 1] + p[..|p| - 1] + [p[|p| - 1].(user := true)]
            && g'.cur == |g'.moves| - 1
            && UndoBatch(g').cur == g.cur && Vals(UndoBatch(g').board) == Vals(g.board)
  {
    var g' := g2.(moves := Flag(g2.moves, g2.cur));
    FlagCoherent(g2);
    FlaggedPlan(g, t, g2, m);
    FlagRewind(g.shape, Vals(g2.board), g2.moves, g2.cur, g.cur, g2.cur);
    UndoCommitted(g, g');
  }

  /** Flagging the end of the placed moves closes tryGenerate in the promised state. */
  lemma PlaceClosed(g: Game, sol: seq<int>, marks: seq<int>, y: nat, g2: Game, m: nat)
    requires WF(g) && Marks(g, marks) && MarksOf(sol, marks) && CountFilled(marks) == y
    requires m <= |marks| && Placing(g, Target(marks), Unmarked(marks, m), g2, m)
    requires forall j :: m <= j < |marks| ==> marks[j] == 0
    ensures GeneratedBoard(g, sol, y, g2.(moves := Flag(g2.moves, g2.cur)))
  {
    PlacedBoard(g, sol, marks, y, g2, m);
    if y > 0 {
      ClosedMoves(g, Target(marks), Unmarked(marks, m), g2, m);
    } else {
      ClosedEmpty(g, Target(marks), Unmarked(marks, m), g2, m);
    }
  }

  /**
    The part of tryGenerate after a solution was found: y cells of the
    solution are drawn and set on the empty board, and the last move is
    flagged as the user's. It fails only when the random stream runs dry.
   */
  method KeepCells(g: Game, sol: seq<int>, y: nat, rand: seq<nat>) returns (g': Game, ok: bool, rest: seq<nat>)
    requires WF(g) && Usable(g.shape, Some(sol)) && forall i :: 0 <= i < |g.board| ==> g.board[i].val == 0
    ensures ok <==> Mark(sol, Zeros(|g.board|), y, rand).Some?
    ensures !ok ==> g' == g
    ensures ok ==> GeneratedBoard(g, sol, y, g')
    ensures ok ==> Vals(g'.board) == Target(Mark(sol, Zeros(|g.board|), y, rand).value.0)
    ensures Suffix(rest, rand)
    ensures ok ==> rest == Mark(sol, Zeros(|g.board|), y, rand).value.1
    ensures !ok ==> rest == []
  {
    ShapeFacts(g.shape);
    var w, mk := Prepare(g.board, sol, y, rand);
    if mk.None? {
      return g, false, [];
    }
    var marks := mk.value.0;
    rest := mk.value.1;
    CountFilledZero(Zeros(|g.board|));
    assert Marks(g, marks) && MarksOf(sol, marks);
    StartPlace(g, marks, w);
    var g2, m := PlaceFrom(g, marks, g.(board := w), 0, 0, y);
    PlaceClosed(g, sol, marks, y, g2, m);
    PlaceEnd(g, marks, g2, m);
    g' := g2.(moves := Flag(g2.moves, g2.cur));
    ok := true;
  }

  /**
    How one tryGenerate on the stream rand ends, and what it leaves of the
    stream for the next attempt: out of draws, with nothing left, when the
    scatter or the keep loop runs dry; no solution, with what the scatter
    left, when the solver's answer cannot be used; generated, with what the
    keep loop left, otherwise.
   */
  ghost function Outcome(g: Game, x: nat, y: nat, rand: seq<nat>, solve: Solver): (Attempt, seq<nat>) {
    if !g.shape.Valid() || |g.board| != g.shape.Size() then (OutOfDraws, []) else
    ShapeFacts(g.shape);
    var sc := Scatter(g.shape, Vals(g.board), x, rand);
    if sc.None? then (OutOfDraws, [])
    else if !Usable(g.shape, solve(sc.value.0)) then (NoSolution, sc.value.1)
    else
      var mk := Mark(solve(sc.value.0).value, Zeros(|g.board|), y, sc.value.1);
      if mk.None? then (OutOfDraws, []) else (Generated, mk.value.1)
  }

  /**
    One tryGenerate on the stream rand succeeds with g': the scatter finds
    its x cells, the solver answers with a usable board, the keep loop marks
    its y cells, and g' is the board that keeps them: its values are the
    solution's at exactly the cells the keep loop drew, 0 elsewhere.
   */
  ghost predicate Succeeds(g: Game, x: nat, y: nat, rand: seq<nat>, solve: Solver, g': Game) {
    WF(g) &&
    (ShapeFacts(g.shape);
     var sc := Scatter(g.shape, Vals(g.board), x, rand);
     sc.Some? && Usable(g.shape, solve(sc.value.0))
     && Mark(solve(sc.value.0).value, Zeros(|g.board|), y, sc.value.1).Some?
     && GeneratedBoard(g, solve(sc.value.0).value, y, g')
     && Vals(g'.board) == Target(Mark(solve(sc.value.0).value, Zeros(|g.board|), y, sc.value.1).value.0))
  }

  /**
    tryGenerate on an empty board: random values are scattered over x
    empty cells, the solver is asked for a solution of that board, y cells
    of the solution are kept and set as described by GeneratedBoard. A
    failed attempt leaves the game as it was.
   */
  method TryGenerate(g: Game, x: nat, y: nat, rand: seq<nat>, solve: Solver) returns (g': Game, a: Attempt, rest: seq<nat>)
    requires WF(g) && g.numFilled == 0
    ensures a != Generated ==> g' == g
    ensures Suffix(rest, rand)
    ensures Scatter(g.shape, Vals(g.board), x, rand).None? ==> a == OutOfDraws
    ensures var sc := Scatter(g.shape, Vals(g.board), x, rand);
            sc.Some? && !Usable(g.shape, solve(sc.value.0)) ==> a == NoSolution
    ensures var sc := Scatter(g.shape, Vals(g.board), x, rand);
            sc.Some? && Usable(g.shape, solve(sc.value.0)) ==>
              (a == Generated <==> Mark(solve(sc.value.0).value, Zeros(|g.board|), y, sc.value.1).Some?)
    ensures var sc := Scatter(g.shape, Vals(g.board), x, rand);
            a == Generated ==> sc.Some? && Usable(g.shape, solve(sc.value.0)) && GeneratedBoard(g, solve(sc.value.0).value, y, g')
    ensures (a, rest) == Outcome(g, x, y, rand, solve)
    ensures a == Generated ==> Succeeds(g, x, y, rand, solve, g')
  {
    var sh := g.shape;
    ShapeFacts(sh);
    CountFilledZero(Vals(g.board));
    var sc := Scatter(sh, Vals(g.board), x, rand);
    if sc.None? {
      return g, OutOfDraws, [];
    }
    var answer := solve(sc.value.0);
    if !Usable(sh, answer) {
      return g, NoSolution, sc.value.1;
    }
    assert forall i :: 0 <= i < |g.board| ==> g.board[i].val == Vals(g.board)[i];
    var ok;
    g', ok, rest := KeepCells(g, answer.value, y, sc.value.1);
    if ok {
      KeptSucceeds(g, x, y, rand, solve, g');
    }
    a := if ok then Generated else OutOfDraws;
  }

  /** A scatter the solver completes, followed by a successful keep loop, is a successful attempt. */
  lemma KeptSucceeds(g: Game, x: nat, y: nat, rand: seq<nat>, solve: Solver, g': Game)
    requires WF(g)
    requires var sc := Scatter(g.shape, Vals(g.board), x, rand);
             && sc.Some? && Usable(g.shape, solve(sc.value.0))
             && Mark(solve(sc.value.0).value, Zeros(|g.board|), y, sc.value.1).Some?
             && GeneratedBoard(g, solve(sc.value.0).value, y, g')
             && Vals(g'.board) == Target(Mark(solve(sc.value.0).value, Zeros(|g.board|), y, sc.value.1).value.0)
    ensures Succeeds(g, x, y, rand, solve, g')
  {
  }

  /**
    On the stream rand, attempt number k of generate is the first to
    succeed, with g': the k - 1 attempts before it fail, each on what the
    one before left.
   */
  ghost predicate FirstSuccess(g: Game, x: nat, y: nat, rand: seq<nat>, solve: Solver, k: nat, g': Game)
    decreases k
  {
    if k <= 1 then k == 1 && Succeeds(g, x, y, rand, solve, g')
    else Outcome(g, x, y, rand, solve).0 != Generated && FirstSuccess(g, x, y, Outcome(g, x, y, rand, solve).1, solve, k - 1, g')
  }

  /** On the stream rand, k attempts of generate in a row fail. */
  ghost predicate AllFail(g: Game, x: nat, y: nat, rand: seq<nat>, solve: Solver, k: nat)
    decreases k
  {
    k == 0 || (Outcome(g, x, y, rand, solve).0 != Generated && AllFail(g, x, y, Outcome(g, x, y, rand, solve).1, solve, k - 1))
  }

  /** A failed attempt in front of a first success at attempt k moves it to attempt k + 1. */
  lemma FirstSuccessStep(g: Game, x: nat, y: nat, r: seq<nat>, solve: Solver, k: nat, g': Game)
    requires k >= 1 && Outcome(g, x, y, r, solve).0 != Generated && FirstSuccess(g, x, y, Outcome(g, x, y, r, solve).1, solve, k, g')
    ensures FirstSuccess(g, x, y, r, solve, k + 1, g')
  {
  }

  /** A failed attempt in front of k - 1 failures gives k failures. */
  lemma AllFailStep(g: Game, x: nat, y: nat, r: seq<nat>, solve: Solver, k: nat)
    requires k >= 1 && Outcome(g, x, y, r, solve).0 != Generated && AllFail(g, x, y, Outcome(g, x, y, r, solve).1, solve, k - 1)
    ensures AllFail(g, x, y, r, solve, k)
  {
  }

  /**
    The attempts of generate while budget attempts remain, on the stream r
    the earlier ones left: tryGenerate until one succeeds, at attempt
    number tries counted from here, or all budget attempts fail.
   */
  method Attempts(g: Game, x: nat, y: nat, r: seq<nat>, solve: Solver, budget: nat) returns (g': Game, found: bool, tries: nat)
    requires WF(g) && g.numFilled == 0 && budget >= 1
    ensures found ==> tries <= budget && FirstSuccess(g, x, y, r, solve, tries, g')
    ensures !found ==> g' == g && AllFail(g, x, y, r, solve, budget)
    decreases budget
  {
    var a, r';
    g', a, r' := TryGenerate(g, x, y, r, solve);
    if a == Generated {
      return g', true, 1;
    }
    if budget == 1 {
      AllFailStep(g, x, y, r, solve, 1);
      return g, false, 0;
    }
    var t;
    g', found, t := Attempts(g, x, y, r', solve, budget - 1);
    tries := t + 1;
    if found {
      FirstSuccessStep(g, x, y, r, solve, t, g');
    } else {
      AllFailStep(g, x, y, r, solve, budget);
    }
  }

  /** A first success happens on what is left of the stream after some draws. */
  lemma {:induction false} FirstSuccessSuffix(g: Game, x: nat, y: nat, rand: seq<nat>, solve: Solver, k: nat, g': Game)
    requires FirstSuccess(g, x, y, rand, solve, k, g')
    ensures exists j :: 0 <= j <= |rand| && Succeeds(g, x, y, rand[j..], solve, g')
    decreases k
  {
    if k <= 1 {
      assert rand[0..] == rand;
    } else {
      var rest := Outcome(g, x, y, rand, solve).1;
      FirstSuccessSuffix(g, x, y, rest, solve, k - 1, g');
      OutcomeSuffix(g, x, y, rand, solve);
      SucceedsSuffix(g, x, y, rand, rest, solve, g');
    }
  }

  /** A success on what is left of a suffix of rand is a success on what is left of rand. */
  lemma SucceedsSuffix(g: Game, x: nat, y: nat, rand: seq<nat>, rest: seq<nat>, solve: Solver, g': Game)
    requires Suffix(rest, rand)
    requires exists j :: 0 <= j <= |rest| && Succeeds(g, x, y, rest[j..], solve, g')
    ensures exists j :: 0 <= j <= |rand| && Succeeds(g, x, y, rand[j..], solve, g')
  {
    var j :| 0 <= j <= |rest| && Succeeds(g, x, y, rest[j..], solve, g');
    assert rest[j..] == rand[|rand| - |rest| + j..];
  }

  /** One attempt leaves what is left of its stream after some draws. */
  lemma OutcomeSuffix(g: Game, x: nat, y: nat, rand: seq<nat>, solve: Solver)
    ensures Suffix(Outcome(g, x, y, rand, solve).1, rand)
  {
  }

  /**
    generate: x and y must lie in 0..(number of empty cells) and the board
    must be empty; then tryGenerate is attempted up to MaxTries times, each
    attempt on what the previous one left of the random stream. The result
    is the first success; failure means every one of the MaxTries attempts
    failed.
   */
  method Generate(g: Game, x: int, y: int, rand: seq<nat>, solve: Solver) returns (g': Game, st: Status, tries: nat)
    requires WF(g)
    ensures var empty := g.shape.Size() - g.numFilled;
            !(0 <= x <= empty && 0 <= y <= empty) ==> g' == g && st == OutOfRange && tries == 0
    ensures var empty := g.shape.Size() - g.numFilled;
            0 <= x <= empty && 0 <= y <= empty && g.numFilled != 0 ==> g' == g && st == NotEmpty && tries == 0
    ensures var empty := g.shape.Size() - g.numFilled;
            0 <= x <= empty && 0 <= y <= empty && g.numFilled == 0 ==> 1 <= tries <= MaxTries && (st == Done || st == GeneratorFailed)
    ensures st == GeneratorFailed ==> g' == g && tries == MaxTries
    ensures st == Done ==> 0 <= y && exists sol :: Usable(g.shape, Some(sol)) && GeneratedBoard(g, sol, y, g')
    ensures st == Done ==> 0 <= x && 0 <= y && exists k :: 0 <= k <= |rand| && Succeeds(g, x, y, rand[k..], solve, g')
    ensures st == Done ==> 0 <= x && 0 <= y && FirstSuccess(g, x, y, rand, solve, tries, g')
    ensures st == GeneratorFailed ==> 0 <= x && 0 <= y && AllFail(g, x, y, rand, solve, MaxTries)
  {
    var empty := g.shape.Size() - g.numFilled;
    if x > empty || x < 0 || y < 0 || y > empty {
      return g, OutOfRange, 0;
    }
    if g.numFilled != 0 {
      return g, NotEmpty, 0;
    }
    var found;
    g', found, tries := Attempts(g, x, y, rand, solve, MaxTries);
    if !found {
      return g, GeneratorFailed, MaxTries;
    }
    st := Done;
    FirstSuccessSuffix(g, x, y, rand, solve, tries, g');
    ghost var k :| 0 <= k <= |rand| && Succeeds(g, x, y, rand[k..], solve, g');
    ghost var sc := Scatter(g.shape, Vals(g.board), x, rand[k..]);
    assert Usable(g.shape, Some(solve(sc.value.0).value));
  }

  /** A generated puzzle is solvable: the solver's board, when it has no duplicate, completes it. */
  lemma GeneratedSolvable(g: Game, sol: seq<int>, y: nat, g': Game)
    requires WF(g) && Usable(g.shape, Some(sol)) && NoDup(g.shape, sol) && GeneratedBoard(g, sol, y, g')
    ensures sol in Completions(g.shape, Vals(g'.board))
  {
    BoardsMembers(|sol|, g.shape.N(), sol);
    assert Agrees(Vals(g'.board), sol) by {
      forall i | 0 <= i < |sol| && Vals(g'.board)[i] != 0
        ensures sol[i] == Vals(g'.board)[i]
      {
        assert Vals(g'.board)[i] == g'.board[i].val;
      }
    }
  }
}
