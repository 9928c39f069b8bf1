/** The reset before a kernel is launched again for its next basic blocks (reset_nextTimingBB). */
module Relaunch {
  import opened StreamingMP
  import opened WarpScheduler
  import opened TimingPhase
  import opened GpuManager

  predicate Restarts(st: ThreadStatus) {
    st != ExecutionDone && st != Invalid
  }

  /** Column of statuses with its cell in row w set back to running, unless it is done or padding. */
  function StatusReset(col: seq<ThreadStatus>, w: nat): (r: seq<ThreadStatus>)
    ensures |r| == |col|
  {
    if w < |col| && Restarts(col[w]) then col[w := Running] else col
  }

  function OffsetReset(col: seq<int>, st: seq<ThreadStatus>, w: nat): (r: seq<int>)
    ensures |r| == |col|
  {
    if w < |col| && w < |st| && Restarts(st[w]) then col[w := 0] else col
  }

  ghost predicate SameShape(t: Tables) {
    |t.threads| == |t.inst| == |t.trace| == |t.status| &&
    forall p :: 0 <= p < |t.threads| ==> |t.threads[p]| == |t.inst[p]| == |t.trace[p]| == |t.status[p]|
  }

  /** The tables after the first n PEs have reset their cell in row w. */
  ghost function ResetRow(t: Tables, w: nat, n: nat): (r: Tables)
    requires SameShape(t)
    ensures SameShape(r) && r.threads == t.threads
    ensures forall p :: 0 <= p < |t.status| ==> r.status[p] == if p < n then StatusReset(t.status[p], w) else t.status[p]
  {
    Tables(t.threads,
           seq(|t.inst|, p requires 0 <= p < |t.inst| =>
             if p < n then OffsetReset(t.inst[p], t.status[p], w) else t.inst[p]),
           seq(|t.trace|, p requires 0 <= p < |t.trace| =>
             if p < n then OffsetReset(t.trace[p], t.status[p], w) else t.trace[p]),
           seq(|t.status|, p requires 0 <= p < |t.status| =>
             if p < n then StatusReset(t.status[p], w) else t.status[p]))
  }

  ghost predicate CellInAll(t: Tables, p: nat, w: nat)
    requires SameShape(t)
  {
    p < |t.threads| && w < |t.threads[p]|
  }

  /** Cell by cell: in row w whoever is neither done nor padding runs again from the start of its
      instructions and its trace, and every other cell of the three tables keeps its values. */
  lemma ResetMeaning(t: Tables, w: nat, p: nat, w': nat)
    requires SameShape(t) && CellInAll(t, p, w')
    ensures var r := ResetRow(t, w, |t.threads|);
            CellInAll(r, p, w') &&
            if w' == w && t.status[p][w] !in {ExecutionDone, Invalid}
            then r.status[p][w] == Running && r.inst[p][w] == 0 && r.trace[p][w] == 0
            else r.status[p][w'] == t.status[p][w'] && r.inst[p][w'] == t.inst[p][w'] && r.trace[p][w'] == t.trace[p][w']
  {
  }

  lemma RunnableCellAfter(t: Tables, n: nat, w: nat, w': nat, p: nat)
    requires SameShape(t) && TablesOk(t, n) && p < |t.threads|
    ensures RunnableCell(ResetRow(t, w, |t.threads|), p, w') <==>
            if w' == w then ValidCell(t.threads, p, w) else RunnableCell(t, p, w')
  {
    if ValidCell(t.threads, p, w) {
      assert CellOk(t, p, w, n);
    }
  }

  lemma {:induction false} SameCellsSameThreads(t: Tables, r: Tables, w: nat, k: nat)
    requires r.threads == t.threads && forall p :: 0 <= p < k ==> RunnableCell(r, p, w) == RunnableCell(t, p, w)
    ensures Runnable(r, w, k) == Runnable(t, w, k)
  {
    if k > 0 {
      SameCellsSameThreads(t, r, w, k - 1);
    }
  }

  lemma {:induction false} AllCellsAllThreads(r: Tables, w: nat, k: nat)
    requires forall p :: 0 <= p < k ==> RunnableCell(r, p, w) == ValidCell(r.threads, p, w)
    ensures Runnable(r, w, k) == Members(r.threads, w, k)
  {
    if k > 0 {
      AllCellsAllThreads(r, w, k - 1);
    }
  }

  /** After the reset every thread of row w is runnable, and the other rows are as before. */
  lemma RunnableAfter(t: Tables, n: nat, w: nat, w': nat)
    requires SameShape(t) && TablesOk(t, n)
    ensures Runnable(ResetRow(t, w, |t.threads|), w', |t.threads|) ==
            if w' == w then Members(t.threads, w, |t.threads|) else Runnable(t, w', |t.threads|)
  {
    var r := ResetRow(t, w, |t.threads|);
    forall p: nat | p < |t.threads|
      ensures RunnableCell(r, p, w') == if w' == w then ValidCell(t.threads, p, w) else RunnableCell(t, p, w')
    {
      RunnableCellAfter(t, n, w, w', p);
    }
    if w' == w {
      AllCellsAllThreads(r, w, |t.threads|);
    } else {
      SameCellsSameThreads(t, r, w', |t.threads|);
    }
  }

  /** The tables change as the relaunch step of the timing phase says. */
  lemma ResetIsRelaunch(t: Tables, n: nat, ws: seq<WarpStatus>, c: Cursor, timing: nat)
    requires SameShape(t) && TablesOk(t, n) && Current(c) < |ws|
    ensures var w, m := Current(c), View(t, ws, c, timing);
            View(ResetRow(t, w, |t.threads|), ws[w := TraceReady], c, timing) ==
            m.(runnable := m.runnable[w := m.warps[w]], status := m.status[w := TraceReady])
  {
    var w, m := Current(c), View(t, ws, c, timing);
    var r := ResetRow(t, w, |t.threads|);
    var m' := View(r, ws[w := TraceReady], c, timing);
    forall w': nat | w' < |ws| ensures m'.runnable[w'] == m.runnable[w := m.warps[w]][w'] {
      RunnableAfter(t, n, w, w');
    }
    assert m'.runnable == m.runnable[w := m.warps[w]];
    assert m'.warps == m.warps;
  }

  lemma ResetNothing(t: Tables, w: nat)
    requires SameShape(t)
    ensures ResetRow(t, w, 0) == t
  {
  }

  /** One PE's cell of row w, in three of its vectors. */
  function ResetAt(t: Tables, pe: nat, w: nat): Tables
    requires pe < |t.status| && pe < |t.inst| && pe < |t.trace|
  {
    t.(status := t.status[pe := StatusReset(t.status[pe], w)],
       inst := t.inst[pe := OffsetReset(t.inst[pe], t.status[pe], w)],
       trace := t.trace[pe := OffsetReset(t.trace[pe], t.status[pe], w)])
  }

  lemma ResetNext(t: Tables, w: nat, pe: nat)
    requires SameShape(t) && pe < |t.threads|
    ensures ResetAt(ResetRow(t, w, pe), pe, w) == ResetRow(t, w, pe + 1)
  {
    var a, b := ResetAt(ResetRow(t, w, pe), pe, w), ResetRow(t, w, pe + 1);
    assert a.status == b.status && a.inst == b.inst && a.trace == b.trace;
  }

  method ResetCell(sm: SM, pe: nat, w: nat)
    requires SameShape(sm.tables) && pe < |sm.tables.threads|
    modifies sm`tables
    ensures sm.tables == ResetAt(old(sm.tables), pe, w)
  {
    var t := sm.tables;
    if w < |t.threads[pe]| {
      if t.status[pe][w] != ExecutionDone && t.status[pe][w] != Invalid {
        sm.tables := t.(status := t.status[pe := t.status[pe][w := Running]],
                        inst := t.inst[pe := t.inst[pe][w := 0]],
                        trace := t.trace[pe := t.trace[pe][w := 0]]);
      }
    }
  }

  /** One SM's part of reset_nextTimingBB; `off` says that its timing threads are complete. The
      trace is not written. */
  method ResetNextTimingBB(sm: SM, off: bool)
    requires SameShape(sm.tables) && |sm.tables.threads| == sm.numSP
    requires sm.totalThreads > 0 ==> Current(sm.cursor) < |sm.warpStatus|
    modifies sm`tables, sm`warpStatus
    ensures off || sm.totalThreads == 0 ==> sm.tables == old(sm.tables) && sm.warpStatus == old(sm.warpStatus)
    ensures !off && sm.totalThreads > 0 ==>
              var w := Current(sm.cursor);
              sm.tables == ResetRow(old(sm.tables), w, sm.numSP) &&
              sm.warpStatus == old(sm.warpStatus)[w := TraceReady]
  {
    if !off {
      if sm.totalThreads > 0 {
        ghost var t := sm.tables;
        var warpid := Current(sm.cursor);
        ResetNothing(t, warpid);
        for pe := 0 to sm.numSP
          invariant sm.tables == ResetRow(t, warpid, pe) && sm.warpStatus == old(sm.warpStatus)
        {
          ResetNext(t, warpid, pe);
          ResetCell(sm, pe, warpid);
        }
        sm.warpStatus := sm.warpStatus[warpid := TraceReady];
      }
    }
  }
}
