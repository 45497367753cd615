/**
  The incremental maintenance of the error flags (checkIfError and
  isErrorUpdate, AuxMethods.c section 2). Both walk the column, the row and
  the block of a cell in the C's order (Geometry.Scan), skipping the cell
  itself. The main result is CheckIfError's last postcondition: when the
  flags were consistent before one cell changed from prev to val, they are
  consistent again afterwards, i.e. the board equals the one recomputed from
  scratch (Board.Relabel).
 */
module Constraints {
  import opened Geometry
  import opened Board

  /** Changing cell k to x leaves the duplicate status of p alone unless p is a peer of k holding k's old or new value. */
  lemma HasDupUnaffected(sh: Shape, vs: seq<int>, k: int, x: int, p: int)
    requires sh.Valid() && 0 <= k < |vs| && 0 <= p < |vs| && p != k
    requires !Peer(sh, k, p) || (vs[p] != vs[k] && vs[p] != x)
    ensures HasDup(sh, vs[k := x], p) == HasDup(sh, vs, p)
  {
    var ws := vs[k := x];
    if HasDup(sh, vs, p) {
      var q :| 0 <= q < |vs| && Peer(sh, p, q) && vs[q] == vs[p];
      assert q != k;
      assert ws[q] == ws[p];
    }
    if HasDup(sh, ws, p) {
      var q :| 0 <= q < |ws| && Peer(sh, p, q) && ws[q] == ws[p];
      assert q != k;
      assert vs[q] == vs[p];
    }
  }

  /** A cell has a duplicate exactly when the scan of its unit cells finds another cell with its value. */
  lemma ScanFindsDup(sh: Shape, vs: seq<int>, k: int)
    requires sh.Valid() && |vs| == sh.Size() && 0 <= k < |vs| && vs[k] != 0
    ensures HasDup(sh, vs, k) <==> exists u :: 0 <= u < |Scan(sh, k)| && Scan(sh, k)[u] != k && 0 <= Scan(sh, k)[u] < |vs| && vs[Scan(sh, k)[u]] == vs[k]
  {
    var s := Scan(sh, k);
    ScanMembers(sh, k);
    if HasDup(sh, vs, k) {
      var q :| 0 <= q < |vs| && Peer(sh, k, q) && vs[q] == vs[k];
      assert q in s;
      var u :| 0 <= u < |s| && s[u] == q;
      assert s[u] != k && vs[s[u]] == vs[k];
    }
    if exists u :: 0 <= u < |s| && s[u] != k && vs[s[u]] == vs[k] {
      var u :| 0 <= u < |s| && s[u] != k && vs[s[u]] == vs[k];
      var q := s[u];
      assert 0 <= q < |vs| && Peer(sh, k, q) && vs[q] == vs[k];
    }
  }

  /**
    The last steps of checkIfError, proved once for all its branches: b1 is
    b after peers holding val were marked, b2 is b1 after the optional
    isErrorUpdate, and the final flag of k is its duplicate status. If the
    flags were consistent before cell k took val in place of prev, the result
    is the recomputed board.
   */
  lemma {:induction false} ChangeSettles(sh: Shape, b: seq<Cell>, b1: seq<Cell>, b2: seq<Cell>, k: int, val: int, prev: int)
    requires sh.Valid() && |b| == sh.Size() && 0 <= k < |b| && b[k].val == val
    requires Consistent(sh, b[k := b[k].(val := prev)])
    requires OnlyFlagsChange(b, b1) && OnlyFlagsChange(b1, b2)
    requires forall p :: 0 <= p < |b| && p != k ==> b1[p].isError == (b[p].isError || (val != 0 && Peer(sh, k, p) && b[p].val == val))
    requires forall p :: 0 <= p < |b| && b2[p].isError != b1[p].isError ==> b2[p].isError == HasDup(sh, Vals(b), p)
    requires b[k].isError && val != prev ==> forall p :: 0 <= p < |b| && Peer(sh, k, p) && b[p].val == prev ==> b2[p].isError == HasDup(sh, Vals(b), p)
    ensures b2[k := b2[k].(isError := HasDup(sh, Vals(b), k))] == Relabel(sh, b, Vals(b))
  {
    var vs := Vals(b);
    var b0 := b[k := b[k].(val := prev)];
    assert Vals(b0) == vs[k := prev];
    var b3 := b2[k := b2[k].(isError := HasDup(sh, vs, k))];
    forall p | 0 <= p < |b| && p != k
      ensures b3[p].isError == HasDup(sh, vs, p)
    {
      assert b[p].isError == HasDup(sh, vs[k := prev], p) by {
        assert b0[p] == b[p];
      }
      if !Peer(sh, k, p) || (vs[p] != val && vs[p] != prev) {
        HasDupUnaffected(sh, vs, k, prev, p);
      } else if vs[p] == val {
        if val != 0 {
          assert Peer(sh, p, k);
        }
      } else if prev != 0 {
        assert b[k].isError by {
          assert b0[k].isError == HasDup(sh, vs[k := prev], k);
          assert Peer(sh, k, p) && vs[k := prev][p] == vs[k := prev][k];
        }
      }
    }
  }

  /**
    The three marking loops of checkIfError for a nonzero val: every other
    cell of k's column, row and block holding val is flagged erroneous, and
    f records whether there was one.
   */
  method MarkPeers(sh: Shape, b: seq<Cell>, k: int, val: int) returns (b1: seq<Cell>, f: bool)
    requires sh.Valid() && |b| == sh.Size() && 0 <= k < |b| && b[k].val == val && val != 0
    ensures OnlyFlagsChange(b, b1)
    ensures f == HasDup(sh, Vals(b), k)
    ensures forall p :: 0 <= p < |b| ==> b1[p].isError == (b[p].isError || (Peer(sh, k, p) && b[p].val == val))
  {
    var s := Scan(sh, k);
    ScanInRange(sh, k);
    f := false;
    b1 := b;
    var t := 0;
    while t < |s|
      invariant 0 <= t <= |s|
      invariant OnlyFlagsChange(b, b1)
      invariant f <==> exists u :: 0 <= u < t && s[u] != k && b[s[u]].val == val
      invariant forall p :: 0 <= p < |b| ==> b1[p].isError == (b[p].isError || (p != k && p in s[..t] && b[p].val == val))
    {
      var q := s[t];
      assert s[..t + 1] == s[..t] + [q];
      if q != k && b1[q].val == val {
        f := true;
        b1 := b1[q := b1[q].(isError := true)];
      }
      t := t + 1;
    }
    assert s[..t] == s;
    ScanFindsDup(sh, Vals(b), k);
    ScanPeers(sh, k);
  }

  /**
    checkIfError(col, row, val, prev) on cell k = (col, row), which already
    holds val: marks every peer holding val as erroneous, re-examines the
    peers of k that held prev when k was flagged and val differs from prev,
    and sets k's own flag to whether a peer holds val.
   */
  method CheckIfError(sh: Shape, b: seq<Cell>, k: int, val: int, prev: int) returns (b': seq<Cell>)
    requires sh.Valid() && |b| == sh.Size() && 0 <= k < |b| && b[k].val == val
    ensures OnlyFlagsChange(b, b')
    ensures b'[k].isError == HasDup(sh, Vals(b), k)
    ensures val == prev ==> forall p :: 0 <= p < |b| && p != k ==>
              b'[p].isError == (b[p].isError || (val != 0 && Peer(sh, k, p) && b[p].val == val))
    ensures Consistent(sh, b[k := b[k].(val := prev)]) ==> b' == Relabel(sh, b, Vals(b))
    decreases if val == prev then 0 else 2
  {
    var b1, f := b, false;
    if val != 0 {
      b1, f := MarkPeers(sh, b, k, val);
    }
    var b2 := b1;
    if b1[k].isError && val != prev {
      b2 := IsErrorUpdate(sh, b1, k, prev);
      OnlyFlagsSameVals(b, b1);
    }
    b' := b2[k := b2[k].(isError := f)];
    if Consistent(sh, b[k := b[k].(val := prev)]) {
      ChangeSettles(sh, b, b1, b2, k, val, prev);
    }
  }

  /**
    isErrorUpdate(col, row, prev): re-runs checkIfError(p, prev, prev) on every
    peer p of k = (col, row) that holds prev. Every flag it changes is set to
    the cell's duplicate status, and every such peer ends with its correct flag.
   */
  method IsErrorUpdate(sh: Shape, b: seq<Cell>, k: int, prev: int) returns (b': seq<Cell>)
    requires sh.Valid() && |b| == sh.Size() && 0 <= k < |b|
    ensures OnlyFlagsChange(b, b')
    ensures forall p :: 0 <= p < |b| && b'[p].isError != b[p].isError ==> b'[p].isError == HasDup(sh, Vals(b), p)
    ensures forall p :: 0 <= p < |b| && Peer(sh, k, p) && b[p].val == prev ==> b'[p].isError == HasDup(sh, Vals(b), p)
    decreases 1
  {
    var s := Scan(sh, k);
    ScanMembers(sh, k);
    b' := b;
    var t := 0;
    while t < |s|
      invariant 0 <= t <= |s|
      invariant OnlyFlagsChange(b, b')
      invariant forall p :: 0 <= p < |b| && b'[p].isError != b[p].isError ==> b'[p].isError == HasDup(sh, Vals(b), p)
      invariant forall u :: 0 <= u < t && s[u] != k && b[s[u]].val == prev ==> b'[s[u]].isError == HasDup(sh, Vals(b), s[u])
    {
      var q := s[t];
      if q != k && b'[q].val == prev {
        OnlyFlagsSameVals(b, b');
        var b2 := CheckIfError(sh, b', q, prev, prev);
        forall p | 0 <= p < |b| && p != q && b2[p].isError != b'[p].isError
          ensures b2[p].isError == HasDup(sh, Vals(b), p)
        {
          assert Peer(sh, p, q);
        }
        b' := b2;
      }
      t := t + 1;
    }
    forall p | 0 <= p < |b| && Peer(sh, k, p) && b[p].val == prev
      ensures b'[p].isError == HasDup(sh, Vals(b), p)
    {
      assert p in s;
      var u :| 0 <= u < |s| && s[u] == p;
    }
  }

  /** The board right after createGame, before any cell is read: the given fixed marks, nothing else. */
  function LoadBase(sh: Shape, fixed: seq<bool>): (b: seq<Cell>)
    requires |fixed| == sh.Size()
    ensures |b| == sh.Size()
    ensures forall i :: 0 <= i < |b| ==> b[i].val == 0 && b[i].demiVal == 0 && !b[i].isError && b[i].isFixed == fixed[i]
  {
    seq(sh.Size(), i requires 0 <= i < sh.Size() => Cell(fixed[i], false, 0, 0))
  }

  /**
    The cell-reading loop of load/edit: cells are read in row-major order and
    each one is checked with checkIfError(col, row, val, 0) while the cells
    after it are still empty. The result carries exactly the recomputed flags.
   */
  method LoadCells(sh: Shape, vals: seq<int>, fixed: seq<bool>) returns (b: seq<Cell>)
    requires sh.Valid() && |vals| == sh.Size() && |fixed| == sh.Size()
    ensures b == Relabel(sh, LoadBase(sh, fixed), vals)
    ensures Consistent(sh, b)
  {
    var base := LoadBase(sh, fixed);
    var zeros := seq(sh.Size(), i => 0);
    b := base;
    assert Vals(b) == vals[..0] + zeros[0..];
    RelabelConsistent(sh, base, b);
    var n := 0;
    while n < sh.Size()
      invariant 0 <= n <= sh.Size()
      invariant b == Relabel(sh, base, vals[..n] + zeros[n..])
    {
      var vs := vals[..n] + zeros[n..];
      RelabelFacts(sh, base, vs);
      var b1 := b[n := b[n].(val := vals[n])];
      assert b1[n := b1[n].(val := 0)] == b;
      assert Vals(b1) == vals[..n + 1] + zeros[n + 1..];
      b := CheckIfError(sh, b1, n, vals[n], 0);
      RelabelSameBase(sh, b1, base, Vals(b1));
      n := n + 1;
    }
    assert vals[..n] + zeros[n..] == vals;
    RelabelFacts(sh, base, vals);
  }
}
