/**
 What the two compaction loops leave: exactly the nodes that meet the test, in their old order, each with its own row.
 */
module StableFilter {
  import opened Coordinator

  /** The first `n` positions that carry a flag. */
  function Positions(flags: seq<bool>, n: nat): (r: seq<nat>)
    requires n <= |flags|
  {
    if n == 0 then [] else Positions(flags, n - 1) + if flags[n - 1] then [n - 1] else []
  }

  lemma {:induction false} PositionsIncrease(flags: seq<bool>, n: nat)
    requires n <= |flags|
    ensures var p := Positions(flags, n);
      && |p| <= n && (forall k :: 0 <= k < |p| ==> p[k] < n)
      && (forall j, k :: 0 <= j < k < |p| ==> p[j] < p[k])
  {
    if n == 0 {
    } else {
      PositionsIncrease(flags, n - 1);
    }
  }

  lemma {:induction false} PositionsFlagged(flags: seq<bool>, n: nat, i: nat)
    requires i < n <= |flags|
    ensures i in Positions(flags, n) <==> flags[i]
  {
    PositionsIncrease(flags, n - 1);
    if i < n - 1 {
      PositionsFlagged(flags, n - 1, i);
    }
  }

  /** The positions are exactly the flagged ones, in increasing order. */
  lemma PositionsExact(flags: seq<bool>, n: nat)
    requires n <= |flags|
    ensures var p := Positions(flags, n);
      && |p| <= n && (forall k :: 0 <= k < |p| ==> p[k] < n)
      && (forall j, k :: 0 <= j < k < |p| ==> p[j] < p[k])
      && (forall i: nat :: i < n ==> (flags[i] <==> i in p))
  {
    hide Positions;
    PositionsIncrease(flags, n);
    forall i: nat | i < n
      ensures flags[i] <==> i in Positions(flags, n)
    {
      PositionsFlagged(flags, n, i);
    }
  }

  lemma {:induction false} KeepIsPositions<T>(xs: seq<T>, flags: seq<bool>)
    requires |xs| <= |flags|
    ensures var p := Positions(flags, |xs|);
      && |Keep(xs, flags)| == |p|
      && forall k :: 0 <= k < |p| ==> p[k] < |xs| && Keep(xs, flags)[k] == xs[p[k]]
  {
    PositionsIncrease(flags, |xs|);
    if xs == [] {
    } else {
      var n := |xs| - 1;
      KeepIsPositions(xs[..n], flags);
    }
  }

  /** The nodes and rows after a compaction by `flags`. */
  predicate Compacted(c: Coord, flags: seq<bool>, d: Coord)
    requires WellFormed(c) && |flags| == MAX_NODES
  {
    var p := Positions(flags, |c.nodes|);
    && |d.nodes| == |p| <= |c.nodes| && |d.bitmaps| == MAX_NODES
    && forall k :: 0 <= k < |p| ==>
      p[k] < |c.nodes| && d.nodes[k] == c.nodes[p[k]] && d.bitmaps[k] == c.bitmaps[p[k]]
  }

  lemma KeepCompacts(c: Coord, flags: seq<bool>, d: Coord)
    requires WellFormed(c) && |flags| == MAX_NODES
    requires d.nodes == Keep(c.nodes, flags) && d.bitmaps == KeepRows(c.bitmaps, |c.nodes|, flags)
    ensures Compacted(c, flags, d)
  {
    hide Keep;
    PositionsExact(flags, |c.nodes|);
    KeepIsPositions(c.nodes, flags);
    KeepIsPositions(c.bitmaps[..|c.nodes|], flags);
  }

  /** Closing the admission window keeps exactly the nodes that replied with ACCEPTED. */
  lemma AdmissionCompacts(c: Coord)
    requires WellFormed(c)
    ensures Compacted(c, Accepting(c), FinishAdmission(c).c)
    ensures forall i :: 0 <= i < |c.nodes| ==>
      (i in Positions(Accepting(c), |c.nodes|) <==> c.replied[i] && c.accepted[i])
  {
    hide Keep, KeepRows, Compacted;
    var keep := Accepting(c);
    KeepCompacts(c, keep, FinishAdmission(c).c);
    PositionsExact(keep, |c.nodes|);
  }

  /** The drop after the third timeout keeps exactly the nodes that have replied in this round. */
  lemma DropCompacts(c: Coord)
    requires WellFormed(c)
    ensures Compacted(c, c.replied, Drop(c))
    ensures forall i :: 0 <= i < |c.nodes| ==> (i in Positions(c.replied, |c.nodes|) <==> c.replied[i])
  {
    hide Keep, KeepRows, Compacted;
    KeepCompacts(c, c.replied, Drop(c));
    PositionsExact(c.replied, |c.nodes|);
  }
}
