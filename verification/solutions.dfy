/**
  What numSolutions counts, stated without the search: the number of ways to
  complete a board, i.e. to give every empty cell a value in 1..N so that no
  row, column or block holds a value twice. SearchCounts shows that
  Search.Count is that number whenever the given values have no duplicate.
 */
module Solutions {
  import opened Geometry
  import opened Board
  import opened Search

  /** All sequences of length n over 1..N. */
  function Boards(n: nat, N: int): set<seq<int>> {
    if n == 0 then {[]} else set s, v | s in Boards(n - 1, N) && 1 <= v <= N :: s + [v]
  }

  /** Boards(n, N) holds exactly the sequences of length n over 1..N. */
  lemma {:induction false} BoardsMembers(n: nat, N: int, s: seq<int>)
    ensures s in Boards(n, N) <==> |s| == n && forall i :: 0 <= i < |s| ==> 1 <= s[i] <= N
  {
    if n > 0 {
      if |s| == n {
        var r := s[..n - 1];
        assert s == r + [s[n - 1]];
        BoardsMembers(n - 1, N, r);
        if s in Boards(n, N) {
          var r', v :| r' in Boards(n - 1, N) && 1 <= v <= N && s == r' + [v];
          assert r' == r;
        }
      } else if s in Boards(n, N) {
        var r', v :| r' in Boards(n - 1, N) && 1 <= v <= N && s == r' + [v];
        BoardsMembers(n - 1, N, r');
      }
    }
  }

  /** s keeps every value that P already holds. */
  ghost predicate Agrees(P: seq<int>, s: seq<int>) {
    |s| == |P| && forall i :: 0 <= i < |P| && P[i] != 0 ==> s[i] == P[i]
  }

  /** The completions of P: full boards over 1..N that keep P's values and hold no duplicate. */
  ghost function Completions(sh: Shape, P: seq<int>): set<seq<int>>
    requires sh.Valid()
  {
    set s | s in Boards(|P|, sh.N()) && Agrees(P, s) && NoDup(sh, s)
  }

  /** A partial board as the search sees it: values in 0..N, and no duplicate among them. */
  ghost predicate Sound(sh: Shape, P: seq<int>)
    requires sh.Valid()
  {
    (forall i :: 0 <= i < |P| ==> 0 <= P[i] <= sh.N()) && NoDup(sh, P)
  }

  /** The completions of P in which cell e holds more than d. */
  ghost function Above(sh: Shape, P: seq<int>, e: nat, d: int): set<seq<int>>
    requires sh.Valid()
  {
    set s | s in Completions(sh, P) && e < |s| && s[e] > d
  }

  /** The completions of P in which cell e holds v. */
  ghost function At(sh: Shape, P: seq<int>, e: nat, v: int): set<seq<int>>
    requires sh.Valid()
  {
    set s | s in Completions(sh, P) && e < |s| && s[e] == v
  }

  /** A full sound board is its only completion. */
  lemma FullBoard(sh: Shape, P: seq<int>)
    requires sh.Valid() && Sound(sh, P) && FirstEmpty(P, 0) >= |P|
    ensures Completions(sh, P) == {P}
  {
    forall i | 0 <= i < |P|
      ensures P[i] != 0
    {
      assert 0 <= i < FirstEmpty(P, 0);
    }
    BoardsMembers(|P|, sh.N(), P);
    forall s | s in Completions(sh, P)
      ensures s == P
    {
    }
  }

  /** Fixing cell e, empty in P, to v: the completions of P with v at e are the completions of P[e := v]. */
  lemma FixCell(sh: Shape, P: seq<int>, e: nat, v: int)
    requires sh.Valid() && e < |P| && P[e] == 0 && v != 0
    ensures At(sh, P, e, v) == Completions(sh, P[e := v])
  {
    forall s | s in Completions(sh, P[e := v])
      ensures s in At(sh, P, e, v)
    {
      assert Agrees(P[e := v], s);
      assert s[e] == v;
    }
  }

  /** A value some peer of e already holds has no completion. */
  lemma NoFit(sh: Shape, P: seq<int>, e: nat, v: int)
    requires sh.Valid() && e < |P| && v != 0 && !Fits(sh, P, e, v)
    ensures Completions(sh, P[e := v]) == {}
  {
    var Q := P[e := v];
    var q :| 0 <= q < |Q| && Peer(sh, e, q) && Q[q] == Q[e];
    forall s | s in Completions(sh, Q)
      ensures false
    {
      assert s[q] == s[e];
      assert HasDup(sh, s, e);
    }
  }

  /** A value in 1..N that fits keeps the board sound. */
  lemma FitSound(sh: Shape, P: seq<int>, e: nat, v: int)
    requires sh.Valid() && Sound(sh, P) && e < |P| && P[e] == 0 && 1 <= v <= sh.N() && Fits(sh, P, e, v)
    ensures Sound(sh, P[e := v])
  {
    var Q := P[e := v];
    forall p | 0 <= p < |Q|
      ensures !HasDup(sh, Q, p)
    {
      if p != e && HasDup(sh, Q, p) {
        var q :| 0 <= q < |Q| && Peer(sh, p, q) && Q[q] == Q[p];
        if q == e {
          assert Peer(sh, e, p);
        } else {
          assert HasDup(sh, P, p);
        }
      }
    }
  }

  /** After filling the first empty cell e, the next empty cell of the whole board is the next one after e. */
  lemma NextAfter(P: seq<int>, e: nat, v: int)
    requires e < |P| && e == FirstEmpty(P, 0) && v != 0
    ensures FirstEmpty(P[e := v], 0) == FirstEmpty(P, e + 1)
  {
    var Q := P[e := v];
    var j := FirstEmpty(P, e + 1);
    FirstEmptyAgree(P, Q, e + 1);
    forall t | 0 <= t < j
      ensures t < |Q| && Q[t] != 0
    {
      if t < e {
        assert 0 <= t < FirstEmpty(P, 0);
      }
    }
    FirstEmptyUnique(Q, 0, j);
  }

  /**
    The search counts completions: below the first empty cell e of a sound
    board, Tree with weight 0 is the number of completions.
   */
  lemma {:induction false} TreeCounts(sh: Shape, P: seq<int>, e: nat)
    requires sh.Valid() && Sound(sh, P) && e == FirstEmpty(P, 0)
    ensures Tree(sh, P, e, 0) == |Completions(sh, P)|
    decreases |P| - e, sh.N() + 1
  {
    if e >= |P| {
      FullBoard(sh, P);
    } else {
      BranchesCounts(sh, P, e, 0);
      forall s | s in Completions(sh, P)
        ensures s in Above(sh, P, e, 0)
      {
        BoardsMembers(|P|, sh.N(), s);
      }
      assert Above(sh, P, e, 0) == Completions(sh, P);
    }
  }

  /** Branches from candidate d on counts the completions whose value at e is above d. */
  lemma {:induction false} BranchesCounts(sh: Shape, P: seq<int>, e: nat, d: int)
    requires sh.Valid() && Sound(sh, P) && e == FirstEmpty(P, 0) && e < |P| && 0 <= d
    ensures Branches(sh, P, e, d, 0) == |Above(sh, P, e, d)|
    decreases |P| - e, sh.N() - d
  {
    if d >= sh.N() {
      forall s | s in Above(sh, P, e, d)
        ensures false
      {
        BoardsMembers(|P|, sh.N(), s);
      }
      assert Above(sh, P, e, d) == {};
    } else {
      BranchesCounts(sh, P, e, d + 1);
      SubCounts(sh, P, e, d + 1);
      assert Above(sh, P, e, d) == At(sh, P, e, d + 1) + Above(sh, P, e, d + 1);
      assert At(sh, P, e, d + 1) * Above(sh, P, e, d + 1) == {};
    }
  }

  /** The subtree of candidate v counts the completions with v at e. */
  lemma {:induction false} SubCounts(sh: Shape, P: seq<int>, e: nat, v: int)
    requires sh.Valid() && Sound(sh, P) && e == FirstEmpty(P, 0) && e < |P| && 1 <= v <= sh.N()
    ensures Sub(sh, P, e, v, 0) == |At(sh, P, e, v)|
    decreases |P| - e, 0
  {
    FixCell(sh, P, e, v);
    if Fits(sh, P, e, v) {
      FitSound(sh, P, e, v);
      NextAfter(P, e, v);
      FirstEmptyAgree(P, P[e := v], e + 1);
      TreeCounts(sh, P[e := v], FirstEmpty(P, e + 1));
    } else {
      NoFit(sh, P, e, v);
    }
  }

  /** The number of solutions numSolutions reports is the number of completions of a board without duplicates. */
  lemma SearchCounts(sh: Shape, vs: seq<int>)
    requires sh.Valid() && Sound(sh, vs)
    ensures Count(sh, vs) == |Completions(sh, vs)|
  {
    TreeCounts(sh, vs, FirstEmpty(vs, 0));
  }

  /**
    numSolutions only searches a board that carries no error flag; on such a
    board the count it returns is the number of completions.
   */
  lemma CleanBoardCount(g: Game)
    requires BoardOk(g) && forall p :: 0 <= p < |g.board| ==> !g.board[p].isError
    ensures Count(g.shape, Vals(g.board)) == |Completions(g.shape, Vals(g.board))|
  {
    var vs := Vals(g.board);
    forall p | 0 <= p < |vs|
      ensures !HasDup(g.shape, vs, p)
    {
      assert !g.board[p].isError;
    }
    SearchCounts(g.shape, vs);
  }
}
