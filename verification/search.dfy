/**
  The solution counter of Game.c (numSolutions) and the helpers it relies
  on: the explicit stack of cell indices (push/pop), the peer scan of
  isDemiValid, and a reference definition of what the backtracking loop
  counts. The main result is NumSolutions: the loop terminates and its
  counter equals Count, the number of leaves of the search tree in which
  every empty cell received a value that no peer already holds.
 */
module Search {
  import opened Wrappers
  import opened Geometry
  import opened Board

  /** push: the new index goes on top (the end of the sequence). */
  function Push(st: seq<nat>, x: nat): (r: seq<nat>)
    ensures |r| == |st| + 1 && r[|st|] == x && r[..|st|] == st
  {
    st + [x]
  }

  /** pop: the stack below the top and the top index; nothing when the stack is empty. */
  function Pop(st: seq<nat>): (r: Option<(seq<nat>, nat)>)
    ensures r.None? <==> |st| == 0
    ensures r.Some? ==> |r.value.0| == |st| - 1 && r.value.0 + [r.value.1] == st
  {
    if |st| == 0 then None else Some((st[..|st| - 1], st[|st| - 1]))
  }

  /** Popping undoes pushing. */
  lemma PopPush(st: seq<nat>, x: nat)
    ensures Pop(Push(st, x)) == Some((st, x))
  {
    assert Push(st, x)[..|st|] == st;
  }

  /** Pop fails only on the empty stack, and pushing back what it returned restores the stack. */
  lemma PushPop(st: seq<nat>)
    ensures Pop(st).None? <==> |st| == 0
    ensures Pop(st).Some? ==> Push(Pop(st).value.0, Pop(st).value.1) == st
  {
  }

  /**
    The scan shared by isDemiValid and getCellSingleValue: the column, the
    row and the block of cell k in the C's order, skipping k itself, stopping
    at the first cell that holds x.
   */
  method PeerHolds(sh: Shape, vs: seq<int>, k: int, x: int) returns (found: bool)
    requires sh.Valid() && |vs| == sh.Size() && 0 <= k < |vs|
    ensures found <==> exists q :: 0 <= q < |vs| && Peer(sh, k, q) && vs[q] == x
  {
    var s := Scan(sh, k);
    ScanMembers(sh, k);
    var t := 0;
    while t < |s|
      invariant 0 <= t <= |s|
      invariant forall u :: 0 <= u < t && s[u] != k ==> vs[s[u]] != x
    {
      if s[t] != k && vs[s[t]] == x {
        assert Peer(sh, k, s[t]);
        return true;
      }
      t := t + 1;
    }
    forall q | 0 <= q < |vs| && Peer(sh, k, q)
      ensures vs[q] != x
    {
      assert q in s;
      var u :| 0 <= u < |s| && s[u] == q;
    }
    return false;
  }

  /** isDemiValid(n): no peer of cell n has n's demi-value as its own demi-value. */
  method IsDemiValid(sh: Shape, b: seq<Cell>, n: int) returns (r: bool)
    requires sh.Valid() && |b| == sh.Size() && 0 <= n < |b|
    ensures r <==> !exists q :: 0 <= q < |b| && Peer(sh, n, q) && b[q].demiVal == b[n].demiVal
    ensures b[n].demiVal != 0 ==> (r <==> !HasDup(sh, Demis(b), n))
  {
    var found := PeerHolds(sh, Demis(b), n, b[n].demiVal);
    r := !found;
  }

  /** Putting v into cell e of the partial board P leaves e without a duplicate. */
  predicate Fits(sh: Shape, P: seq<int>, e: nat, v: int)
    requires sh.Valid() && e < |P|
  {
    !HasDup(sh, P[e := v], e)
  }

  /**
    The search below cell e of the partial board P, in the order numSolutions
    explores it: every complete board reached counts 1, and every candidate
    tried and every cell entered costs w. With w = 0 this is the number of
    boards found; with w = 1 it measures the work left, which is how the loop
    is shown to terminate.
   */
  function Tree(sh: Shape, P: seq<int>, e: nat, w: nat): nat
    requires sh.Valid()
    decreases |P| - e, sh.N() + 1
  {
    if e >= |P| then 1 else w + Branches(sh, P, e, 0, w)
  }

  /** The part of Tree(P, e) that tries the candidates d+1 .. N for cell e. */
  function Branches(sh: Shape, P: seq<int>, e: nat, d: int, w: nat): nat
    requires sh.Valid() && e < |P|
    decreases |P| - e, sh.N() - d
  {
    if d >= sh.N() then 0
    else
      w + Sub(sh, P, e, d + 1, w) + Branches(sh, P, e, d + 1, w)
  }

  /** The subtree below candidate v of cell e: the search goes on at the next empty cell when v fits, and stops otherwise. */
  function Sub(sh: Shape, P: seq<int>, e: nat, v: int, w: nat): nat
    requires sh.Valid() && e < |P|
    decreases |P| - e, 0
  {
    if Fits(sh, P, e, v) then Tree(sh, P[e := v], FirstEmpty(P, e + 1), w) else 0
  }

  /** The number of boards the search finds from vs: its leaves with weight 0. */
  function Count(sh: Shape, vs: seq<int>): nat
    requires sh.Valid()
  {
    Tree(sh, vs, FirstEmpty(vs, 0), 0)
  }

  /**
    The partial board entry e of the stack sees: the values vs, with the
    demi-values of the empty cells before e (the entries below it).
   */
  function Below(vs: seq<int>, b: seq<Cell>, e: nat): (P: seq<int>)
    requires |b| == |vs|
    ensures |P| == |vs|
    ensures forall p :: 0 <= p < |vs| ==> P[p] == if p < e && vs[p] == 0 then b[p].demiVal else vs[p]
  {
    seq(|vs|, p requires 0 <= p < |vs| => if p < e && vs[p] == 0 then b[p].demiVal else vs[p])
  }

  /** The demi-value of cell e, 0 when e is past the board. */
  function DemiAt(b: seq<Cell>, e: nat): int {
    if e < |b| then b[e].demiVal else 0
  }

  /** What one stack entry still has to do: 1 for a leaf, the candidates above d for a cell. */
  function Level(sh: Shape, P: seq<int>, e: nat, d: int, w: nat): nat
    requires sh.Valid()
  {
    if e >= |P| then 1 else w + Branches(sh, P, e, d, w)
  }

  /** What the whole stack still has to do, entry by entry. */
  function Open(sh: Shape, vs: seq<int>, b: seq<Cell>, st: seq<nat>, w: nat): nat
    requires sh.Valid() && |b| == |vs|
    decreases |st|
  {
    if |st| == 0 then 0
    else
      var e := st[|st| - 1];
      Open(sh, vs, b, st[..|st| - 1], w) + Level(sh, Below(vs, b, e), e, DemiAt(b, e), w)
  }

  /** The stack holds the first empty cell, then each next empty cell; only the top may be past the board. */
  ghost predicate StackOk(vs: seq<int>, st: seq<nat>)
    decreases |st|
  {
    if |st| <= 1 then |st| == 1 ==> st[0] == FirstEmpty(vs, 0)
    else
      var m := |st| - 1;
      StackOk(vs, st[..m]) && st[m - 1] < |vs| && st[m] == FirstEmpty(vs, st[m - 1] + 1)
  }

  /** The loop state of numSolutions over the starting board b0. */
  ghost predicate SearchOk(sh: Shape, b0: seq<Cell>, b: seq<Cell>, st: seq<nat>) {
    sh.Valid() && |b0| == sh.Size() && OnlyDemisChange(b0, b)
    && StackOk(Vals(b0), st)
    && forall k :: 0 <= k < |st| ==> 0 <= DemiAt(b, st[k]) <= sh.N()
  }

  /** What the stack discipline guarantees: the top is an empty cell or the end, and the entries below it are empty cells before it. */
  ghost predicate Ordered(vs: seq<int>, st: seq<nat>) {
    |st| > 0
    && st[|st| - 1] <= |vs| && (st[|st| - 1] < |vs| ==> vs[st[|st| - 1]] == 0)
    && forall k :: 0 <= k < |st| - 1 ==> st[k] < st[|st| - 1] && vs[st[k]] == 0
  }

  lemma {:induction false} StackFacts(vs: seq<int>, st: seq<nat>)
    requires StackOk(vs, st) && |st| > 0
    ensures Ordered(vs, st)
    decreases |st|
  {
    var m := |st| - 1;
    if m > 0 {
      var lower := st[..m];
      StackFacts(vs, lower);
      assert st[m - 1] == lower[m - 1];
      forall k | 0 <= k < m
        ensures st[k] < st[m] && vs[st[k]] == 0
      {
        assert st[k] == lower[k];
      }
    }
  }

  /** Open reads b only at the empty cells up to x, when no entry is past x. */
  lemma {:induction false} OpenFrame(sh: Shape, vs: seq<int>, b: seq<Cell>, b': seq<Cell>, st: seq<nat>, x: nat, w: nat)
    requires sh.Valid() && |b| == |vs| && |b'| == |vs|
    requires forall p :: 0 <= p < x && p < |vs| && vs[p] == 0 ==> b[p].demiVal == b'[p].demiVal
    requires forall k :: 0 <= k < |st| ==> st[k] <= x && DemiAt(b, st[k]) == DemiAt(b', st[k])
    ensures Open(sh, vs, b, st, w) == Open(sh, vs, b', st, w)
    decreases |st|
  {
    if |st| > 0 {
      var e := st[|st| - 1];
      OpenFrame(sh, vs, b, b', st[..|st| - 1], x, w);
      assert Below(vs, b, e) == Below(vs, b', e);
    }
  }

  /** The stack split at its top entry. */
  lemma OpenTop(sh: Shape, vs: seq<int>, b: seq<Cell>, lower: seq<nat>, e: nat, w: nat)
    requires sh.Valid() && |b| == |vs|
    ensures Open(sh, vs, b, lower + [e], w) == Open(sh, vs, b, lower, w) + Level(sh, Below(vs, b, e), e, DemiAt(b, e), w)
  {
    assert (lower + [e])[..|lower|] == lower;
  }

  /** One candidate of Level: below N, candidate d + 1 (its subtree when it fits) and the rest; at N, only w. */
  lemma LevelStep(sh: Shape, P: seq<int>, e: nat, d: int, w: nat)
    requires sh.Valid() && e < |P| && d <= sh.N()
    ensures d < sh.N() ==> Level(sh, P, e, d, w) == w + Sub(sh, P, e, d + 1, w) + Level(sh, P, e, d + 1, w)
    ensures d == sh.N() ==> Level(sh, P, e, d, w) == w
  {
  }

  /** The state right after clearDemiVals(e+1) and copyValsToDemivals with e on top: the demi-values are the partial board up to e. */
  ghost predicate Fresh(sh: Shape, b0: seq<Cell>, b2: seq<Cell>, st: seq<nat>) {
    SearchOk(sh, b0, b2, st) && |st| > 0 && st[|st| - 1] < |b2|
    && Demis(b2) == Below(Vals(b0), b2, st[|st| - 1] + 1)
  }

  /** The increment of the demi-value of cell e. */
  function Bump(b: seq<Cell>, e: nat): (b': seq<Cell>)
    requires e < |b|
    ensures |b'| == |b| && b'[e].demiVal == b[e].demiVal + 1
    ensures forall p :: 0 <= p < |b| && p != e ==> b'[p] == b[p]
  {
    b[e := b[e].(demiVal := b[e].demiVal + 1)]
  }

  /**
    clearDemiVals(e+1) and copyValsToDemivals with e on top of a sound
    stack give a fresh state without changing what the stack still has to do.
   */
  lemma Refreshed(sh: Shape, b0: seq<Cell>, b: seq<Cell>, b2: seq<Cell>, st: seq<nat>)
    requires SearchOk(sh, b0, b, st) && |st| > 0 && st[|st| - 1] < |b|
    requires |b2| == |b|
    requires forall j :: 0 <= j < |b| ==> b2[j].val == b[j].val && b2[j].isFixed == b[j].isFixed && b2[j].isError == b[j].isError
    requires forall j :: 0 <= j < |b| ==> b2[j].demiVal == if b[j].val != 0 then b[j].val else if j > st[|st| - 1] then 0 else b[j].demiVal
    ensures Fresh(sh, b0, b2, st)
    ensures Open(sh, Vals(b0), b2, st, 0) == Open(sh, Vals(b0), b, st, 0)
    ensures Open(sh, Vals(b0), b2, st, 1) == Open(sh, Vals(b0), b, st, 1)
  {
    var vs := Vals(b0);
    var e := st[|st| - 1];
    StackFacts(vs, st);
    assert Demis(b2) == Below(vs, b2, e + 1);
    OpenFrame(sh, vs, b, b2, st, e, 0);
    OpenFrame(sh, vs, b, b2, st, e, 1);
  }

  /** After the increment the demi-values are the partial board of the top entry with the new candidate in the top cell. */
  lemma BumpedDemis(sh: Shape, b0: seq<Cell>, b2: seq<Cell>, st: seq<nat>)
    requires Fresh(sh, b0, b2, st)
    ensures var e := st[|st| - 1];
      Demis(Bump(b2, e)) == Below(Vals(b0), b2, e)[e := b2[e].demiVal + 1]
  {
    StackFacts(Vals(b0), st);
  }

  /** Adding one to the demi-value of the top cell e changes neither the partial board of e nor the work of the entries below. */
  lemma BumpFrame(sh: Shape, vs: seq<int>, b2: seq<Cell>, st: seq<nat>, w: nat)
    requires sh.Valid() && |b2| == |vs| && Ordered(vs, st) && st[|st| - 1] < |vs|
    ensures var e := st[|st| - 1];
      && Below(vs, Bump(b2, e), e) == Below(vs, b2, e)
      && Open(sh, vs, Bump(b2, e), st[..|st| - 1], w) == Open(sh, vs, b2, st[..|st| - 1], w)
  {
    var e, lower := st[|st| - 1], st[..|st| - 1];
    var b3 := Bump(b2, e);
    forall k | 0 <= k < |lower|
      ensures lower[k] <= e && DemiAt(b2, lower[k]) == DemiAt(b3, lower[k])
    {
      assert lower[k] == st[k];
    }
    OpenFrame(sh, vs, b2, b3, lower, e, w);
    assert Below(vs, b3, e) == Below(vs, b2, e);
  }

  /**
    Level accounting for the increment of the top cell e from d to d + 1,
    given that the entries below are unaffected: below N the stack loses w
    and the subtree of candidate d + 1; at N the top entry is spent.
   */
  lemma Shift(sh: Shape, vs: seq<int>, b2: seq<Cell>, st: seq<nat>, w: nat, e: nat, lower: seq<nat>, b3: seq<Cell>, P: seq<int>, d: int)
    requires sh.Valid() && |b2| == |vs| && |st| > 0 && e == st[|st| - 1] && lower == st[..|st| - 1] && e < |vs|
    requires b3 == Bump(b2, e) && P == Below(vs, b2, e) && d == b2[e].demiVal && 0 <= d <= sh.N()
    requires Below(vs, b3, e) == P && Open(sh, vs, b3, lower, w) == Open(sh, vs, b2, lower, w)
    ensures d < sh.N() ==> Open(sh, vs, b2, st, w) == Open(sh, vs, b3, st, w) + w + Sub(sh, P, e, d + 1, w)
    ensures d == sh.N() ==> Open(sh, vs, b2, st, w) == Open(sh, vs, b3, lower, w) + w
  {
    LevelStep(sh, P, e, d, w);
  }

  /** The demi-value of the top cell passes N: popping it spends w. */
  lemma PopCount(sh: Shape, vs: seq<int>, b2: seq<Cell>, st: seq<nat>, w: nat)
    requires sh.Valid() && |b2| == |vs| && Ordered(vs, st) && st[|st| - 1] < |vs| && b2[st[|st| - 1]].demiVal == sh.N()
    ensures Open(sh, vs, Bump(b2, st[|st| - 1]), Pop(st).value.0, w) + w == Open(sh, vs, b2, st, w)
  {
    var e := st[|st| - 1];
    BumpFrame(sh, vs, b2, st, w);
    Shift(sh, vs, b2, st, w, e, st[..|st| - 1], Bump(b2, e), Below(vs, b2, e), b2[e].demiVal);
  }

  /** A candidate that does not fit: the entry stays and w is spent. */
  lemma SkipCount(sh: Shape, vs: seq<int>, b2: seq<Cell>, st: seq<nat>, w: nat)
    requires sh.Valid() && |b2| == |vs| && Ordered(vs, st) && st[|st| - 1] < |vs|
    requires var e := st[|st| - 1]; 0 <= b2[e].demiVal < sh.N() && !Fits(sh, Below(vs, b2, e), e, b2[e].demiVal + 1)
    ensures Open(sh, vs, Bump(b2, st[|st| - 1]), st, w) + w == Open(sh, vs, b2, st, w)
  {
    var e := st[|st| - 1];
    BumpFrame(sh, vs, b2, st, w);
    Shift(sh, vs, b2, st, w, e, st[..|st| - 1], Bump(b2, e), Below(vs, b2, e), b2[e].demiVal);
  }

  /** A candidate that fits: pushing the next empty cell moves its subtree onto the stack, and w is spent. */
  lemma PushCount(sh: Shape, vs: seq<int>, b2: seq<Cell>, st: seq<nat>, nx: nat, w: nat)
    requires sh.Valid() && |b2| == |vs| && Ordered(vs, st) && st[|st| - 1] < |vs|
    requires var e := st[|st| - 1]; 0 <= b2[e].demiVal < sh.N() && Fits(sh, Below(vs, b2, e), e, b2[e].demiVal + 1)
    requires nx == FirstEmpty(vs, st[|st| - 1] + 1) && (nx < |vs| ==> b2[nx].demiVal == 0)
    ensures Open(sh, vs, Bump(b2, st[|st| - 1]), Push(st, nx), w) + w == Open(sh, vs, b2, st, w)
  {
    var e := st[|st| - 1];
    BumpFrame(sh, vs, b2, st, w);
    Shift(sh, vs, b2, st, w, e, st[..|st| - 1], Bump(b2, e), Below(vs, b2, e), b2[e].demiVal);
    PushStep(sh, vs, Bump(b2, e), st, nx, w);
  }

  /** Pushing the next empty cell after the top: the new entry's Level is the subtree of the top's candidate. */
  lemma PushStep(sh: Shape, vs: seq<int>, b3: seq<Cell>, st: seq<nat>, nx: nat, w: nat)
    requires sh.Valid() && |b3| == |vs| && Ordered(vs, st)
    requires var e := st[|st| - 1]; e < |vs| && nx == FirstEmpty(vs, e + 1) && Fits(sh, Below(vs, b3, e), e, b3[e].demiVal)
    requires nx < |vs| ==> b3[nx].demiVal == 0
    ensures var e := st[|st| - 1];
      Open(sh, vs, b3, Push(st, nx), w) == Open(sh, vs, b3, st, w) + Sub(sh, Below(vs, b3, e), e, b3[e].demiVal, w)
  {
    var e := st[|st| - 1];
    var P := Below(vs, b3, e);
    assert Below(vs, b3, nx) == P[e := b3[e].demiVal];
    FirstEmptyAgree(vs, P, e + 1);
    OpenTop(sh, vs, b3, st, nx, w);
  }

  /** Popping a spent entry keeps the stack sound. */
  lemma PopState(sh: Shape, b0: seq<Cell>, b2: seq<Cell>, st: seq<nat>)
    requires Fresh(sh, b0, b2, st)
    ensures SearchOk(sh, b0, Bump(b2, st[|st| - 1]), Pop(st).value.0)
  {
    var vs, e, lower := Vals(b0), st[|st| - 1], st[..|st| - 1];
    StackFacts(vs, st);
    forall k | 0 <= k < |lower|
      ensures DemiAt(Bump(b2, e), lower[k]) == DemiAt(b2, lower[k])
    {
      assert lower[k] == st[k];
    }
  }

  /** A candidate at most N that does not fit leaves a sound stack. */
  lemma SkipState(sh: Shape, b0: seq<Cell>, b2: seq<Cell>, st: seq<nat>)
    requires Fresh(sh, b0, b2, st) && b2[st[|st| - 1]].demiVal < sh.N()
    ensures SearchOk(sh, b0, Bump(b2, st[|st| - 1]), st)
  {
    StackFacts(Vals(b0), st);
  }

  /** Pushing the next empty cell after a cell on top keeps the stack discipline. */
  lemma StackPush(vs: seq<int>, st: seq<nat>, nx: nat)
    requires StackOk(vs, st) && |st| > 0 && st[|st| - 1] < |vs| && nx == FirstEmpty(vs, st[|st| - 1] + 1)
    ensures StackOk(vs, Push(st, nx))
  {
    assert Push(st, nx)[..|st|] == st;
  }

  /** A fitting candidate: pushing the next empty cell keeps the stack sound, and that cell's demi-value is 0. */
  lemma PushState(sh: Shape, b0: seq<Cell>, b2: seq<Cell>, st: seq<nat>, nx: nat)
    requires Fresh(sh, b0, b2, st) && b2[st[|st| - 1]].demiVal < sh.N()
    requires nx == FirstEmpty(Vals(b0), st[|st| - 1] + 1)
    ensures SearchOk(sh, b0, Bump(b2, st[|st| - 1]), Push(st, nx))
    ensures nx < |b2| ==> b2[nx].demiVal == 0
  {
    var vs, e := Vals(b0), st[|st| - 1];
    StackPush(vs, st, nx);
    if nx < |b2| {
      assert Demis(b2)[nx] == 0;
    }
    var st3 := Push(st, nx);
    forall k | 0 <= k < |st3|
      ensures 0 <= DemiAt(Bump(b2, e), st3[k]) <= sh.N()
    {
      if k < |st| {
        assert st3[k] == st[k];
      }
    }
  }

  /**
    One pass of the inner while(1) loop of numSolutions for the top cell e:
    clearDemiVals(e+1), copyValsToDemivals, then e's demi-value goes up by
    one; past N the entry is popped, a fitting value pushes the next empty
    cell, and either way the loop is left (done). The count still to be
    found never changes and the work left always shrinks.
   */
  method Attempt(sh: Shape, ghost b0: seq<Cell>, b: seq<Cell>, st: seq<nat>) returns (b': seq<Cell>, st': seq<nat>, done: bool)
    requires SearchOk(sh, b0, b, st) && |st| > 0 && st[|st| - 1] < |b|
    ensures SearchOk(sh, b0, b', st')
    ensures Open(sh, Vals(b0), b', st', 0) == Open(sh, Vals(b0), b, st, 0)
    ensures Open(sh, Vals(b0), b', st', 1) < Open(sh, Vals(b0), b, st, 1)
    ensures !done ==> st' == st && b'[st[|st| - 1]].demiVal == b[st[|st| - 1]].demiVal + 1
  {
    var e := st[|st| - 1];
    var b2 := Refresh(sh, b0, b, st);
    b' := Bump(b2, e);
    if b'[e].demiVal > sh.N() {
      PopOutcome(sh, b0, b2, st);
      return b', Pop(st).value.0, true;
    }
    BumpedDemis(sh, b0, b2, st);
    var ok := IsDemiValid(sh, b', e);
    if ok {
      OnlyDemisSameVals(b0, b2);
      var nx := NextEmptyCell(sh, b', e + 1);
      PushOutcome(sh, b0, b2, st, nx);
      return b', Push(st, nx), true;
    }
    SkipOutcome(sh, b0, b2, st);
    st', done := st, false;
  }

  /** clearDemiVals(e+1) then copyValsToDemivals, with e on top of the stack. */
  method Refresh(sh: Shape, ghost b0: seq<Cell>, b: seq<Cell>, st: seq<nat>) returns (b2: seq<Cell>)
    requires SearchOk(sh, b0, b, st) && |st| > 0 && st[|st| - 1] < |b|
    ensures Fresh(sh, b0, b2, st) && b2[st[|st| - 1]].demiVal == b[st[|st| - 1]].demiVal
    ensures Open(sh, Vals(b0), b2, st, 0) == Open(sh, Vals(b0), b, st, 0)
    ensures Open(sh, Vals(b0), b2, st, 1) == Open(sh, Vals(b0), b, st, 1)
  {
    b2 := ClearDemiVals(b, st[|st| - 1] + 1);
    b2 := CopyValsToDemivals(b2);
    Refreshed(sh, b0, b, b2, st);
  }

  /** Past N: the popped state is sound, holds the same count and less work. */
  lemma PopOutcome(sh: Shape, b0: seq<Cell>, b2: seq<Cell>, st: seq<nat>)
    requires Fresh(sh, b0, b2, st) && b2[st[|st| - 1]].demiVal + 1 > sh.N()
    ensures var b3, st3 := Bump(b2, st[|st| - 1]), Pop(st).value.0;
      && SearchOk(sh, b0, b3, st3)
      && Open(sh, Vals(b0), b3, st3, 0) == Open(sh, Vals(b0), b2, st, 0)
      && Open(sh, Vals(b0), b3, st3, 1) < Open(sh, Vals(b0), b2, st, 1)
  {
    StackFacts(Vals(b0), st);
    PopState(sh, b0, b2, st);
    PopCount(sh, Vals(b0), b2, st, 0);
    PopCount(sh, Vals(b0), b2, st, 1);
  }

  /** A candidate that does not fit: the state is sound, holds the same count and less work. */
  lemma SkipOutcome(sh: Shape, b0: seq<Cell>, b2: seq<Cell>, st: seq<nat>)
    requires Fresh(sh, b0, b2, st)
    requires var e := st[|st| - 1]; b2[e].demiVal + 1 <= sh.N() && HasDup(sh, Demis(Bump(b2, e)), e)
    ensures var b3 := Bump(b2, st[|st| - 1]);
      && SearchOk(sh, b0, b3, st)
      && Open(sh, Vals(b0), b3, st, 0) == Open(sh, Vals(b0), b2, st, 0)
      && Open(sh, Vals(b0), b3, st, 1) < Open(sh, Vals(b0), b2, st, 1)
  {
    StackFacts(Vals(b0), st);
    BumpedDemis(sh, b0, b2, st);
    SkipState(sh, b0, b2, st);
    SkipCount(sh, Vals(b0), b2, st, 0);
    SkipCount(sh, Vals(b0), b2, st, 1);
  }

  /** A fitting candidate: the pushed state is sound, holds the same count and less work. */
  lemma PushOutcome(sh: Shape, b0: seq<Cell>, b2: seq<Cell>, st: seq<nat>, nx: nat)
    requires Fresh(sh, b0, b2, st)
    requires var e := st[|st| - 1]; b2[e].demiVal + 1 <= sh.N() && !HasDup(sh, Demis(Bump(b2, e)), e)
    requires nx == FirstEmpty(Vals(b0), st[|st| - 1] + 1)
    ensures var b3, st3 := Bump(b2, st[|st| - 1]), Push(st, nx);
      && SearchOk(sh, b0, b3, st3)
      && Open(sh, Vals(b0), b3, st3, 0) == Open(sh, Vals(b0), b2, st, 0)
      && Open(sh, Vals(b0), b3, st3, 1) < Open(sh, Vals(b0), b2, st, 1)
  {
    StackFacts(Vals(b0), st);
    BumpedDemis(sh, b0, b2, st);
    PushState(sh, b0, b2, st, nx);
    PushCount(sh, Vals(b0), b2, st, nx, 0);
    PushCount(sh, Vals(b0), b2, st, nx, 1);
  }

  /** The inner while(1) loop of numSolutions: Attempt until it pushes or pops. */
  method NextCandidate(sh: Shape, ghost b0: seq<Cell>, b: seq<Cell>, st: seq<nat>) returns (b': seq<Cell>, st': seq<nat>)
    requires SearchOk(sh, b0, b, st) && |st| > 0 && st[|st| - 1] < |b|
    ensures SearchOk(sh, b0, b', st')
    ensures Open(sh, Vals(b0), b', st', 0) == Open(sh, Vals(b0), b, st, 0)
    ensures Open(sh, Vals(b0), b', st', 1) < Open(sh, Vals(b0), b, st, 1)
  {
    var e := st[|st| - 1];
    var done;
    b', st', done := Attempt(sh, b0, b, st);
    while !done
      invariant SearchOk(sh, b0, b', st')
      invariant Open(sh, Vals(b0), b', st', 0) == Open(sh, Vals(b0), b, st, 0)
      invariant Open(sh, Vals(b0), b', st', 1) < Open(sh, Vals(b0), b, st, 1)
      invariant !done ==> st' == st
      decreases if done then 0 else sh.N() + 1 - b'[e].demiVal
    {
      b', st', done := Attempt(sh, b0, b', st');
    }
  }

  /** The loop's entry state: the first empty cell alone on the stack over a cleared board has all of Count to do. */
  lemma Started(sh: Shape, b0: seq<Cell>, b: seq<Cell>, x: nat, w: nat)
    requires sh.Valid() && |b0| == sh.Size() && OnlyDemisChange(b0, b)
    requires forall p :: 0 <= p < |b| ==> b[p].demiVal == 0
    requires x == FirstEmpty(Vals(b0), 0)
    ensures SearchOk(sh, b0, b, Push([], x))
    ensures Open(sh, Vals(b0), b, Push([], x), w) == Tree(sh, Vals(b0), x, w)
  {
    var vs := Vals(b0);
    assert Below(vs, b, x) == vs;
    OpenTop(sh, vs, b, [], x, w);
  }

  /** A leaf on top (the board is full): popping it spends exactly 1, in both weights. */
  lemma Leaf(sh: Shape, b0: seq<Cell>, b: seq<Cell>, st: seq<nat>, w: nat)
    requires SearchOk(sh, b0, b, st) && |st| > 0 && st[|st| - 1] >= |b|
    ensures SearchOk(sh, b0, b, Pop(st).value.0)
    ensures Open(sh, Vals(b0), b, st, w) == Open(sh, Vals(b0), b, Pop(st).value.0, w) + 1
  {
    var lower := st[..|st| - 1];
    assert st == lower + [st[|st| - 1]];
    OpenTop(sh, Vals(b0), b, lower, st[|st| - 1], w);
  }

  /**
    The backtracking loop of numSolutions on board b0 (after the erroneous
    check): the counter ends at Count(values of b0), only demi-values change,
    and the loop terminates because Open(.., 1) drops every iteration.
   */
  method CountSolutions(sh: Shape, b0: seq<Cell>) returns (b: seq<Cell>, counter: nat)
    requires sh.Valid() && |b0| == sh.Size()
    ensures OnlyDemisChange(b0, b)
    ensures counter == Count(sh, Vals(b0))
  {
    ghost var vs := Vals(b0);
    var index := NextEmptyCell(sh, b0, 0);
    b := ClearDemiVals(b0, 0);
    var st := Push([], index);
    counter := 0;
    Started(sh, b0, b, index, 0);
    Started(sh, b0, b, index, 1);
    while |st| > 0
      invariant SearchOk(sh, b0, b, st)
      invariant counter + Open(sh, vs, b, st, 0) == Count(sh, vs)
      decreases Open(sh, vs, b, st, 1)
    {
      index := st[|st| - 1];
      if index >= sh.Size() {
        Leaf(sh, b0, b, st, 0);
        Leaf(sh, b0, b, st, 1);
        counter := counter + 1;
        st := Pop(st).value.0;
        continue;
      }
      StackFacts(vs, st);
      if b[index].val != 0 {
        assert false;
      }
      b, st := NextCandidate(sh, b0, b, st);
    }
  }

  /**
    numSolutions: refused on an erroneous board; otherwise the number of
    boards the search finds, with only demi-values of the board changed.
   */
  method NumSolutions(g: Game) returns (g': Game, st: Status, count: nat)
    requires BoardOk(g)
    ensures st == Erroneous || st == Done
    ensures st == Erroneous <==> exists p :: 0 <= p < |g.board| && g.board[p].isError
    ensures st == Erroneous ==> g' == g && count == 0
    ensures st == Done ==> g' == g.(board := g'.board) && OnlyDemisChange(g.board, g'.board)
    ensures st == Done ==> count == Count(g.shape, Vals(g.board))
  {
    var bad := IsErroneous(g.shape, g.board);
    if bad {
      return g, Erroneous, 0;
    }
    var b;
    b, count := CountSolutions(g.shape, g.board);
    g', st := g.(board := b), Done;
  }
}
