/** One streaming multiprocessor (esescSM): its four parallel per-PE tables and its warp cursor. */
module StreamingMP {
  import opened ThreadLayout
  import opened WarpScheduler

  datatype ThreadStatus = Running | PausedOnAMemAccess | PausedOnABarrier | BlockDone | ExecutionDone | Invalid

  /** One vector per PE in each table; row w of all of them is warp w. */
  datatype Tables = Tables(threads: seq<seq<int>>, inst: seq<seq<int>>, trace: seq<seq<int>>,
                           status: seq<seq<ThreadStatus>>)

  ghost predicate HasColumns(t: Tables, n: nat) {
    |t.threads| == |t.inst| == |t.trace| == |t.status| == n
  }

  function PushTo<T>(cols: seq<seq<T>>, p: nat, x: T): seq<seq<T>>
    requires p < |cols|
  {
    cols[p := cols[p] + [x]]
  }

  /** push_back on all four vectors of PE p. */
  function Push(t: Tables, p: nat, id: int, st: ThreadStatus): Tables
    requires p < |t.threads| && p < |t.inst| && p < |t.trace| && p < |t.status|
  {
    Tables(PushTo(t.threads, p, id), PushTo(t.inst, p, 0), PushTo(t.trace, p, 0), PushTo(t.status, p, st))
  }

  function StatusOf(id: int): ThreadStatus {
    if id == PAD then Invalid else Running
  }

  // ----- what a column gains -----

  function Same(id: int): int { id }

  function Zero(id: int): int { 0 }

  /** Column p of the rows us, each cell seen through f. */
  function Column<T>(us: seq<Run>, p: nat, f: int -> T): (c: seq<T>)
    ensures |c| == |us| && forall i :: 0 <= i < |us| ==> c[i] == f(CellAt(us[i], p))
  {
    seq(|us|, i requires 0 <= i < |us| => f(CellAt(us[i], p)))
  }

  /** Column p after the rows us and, if p is below pe, the open row. */
  ghost predicate ColumnGrew<T>(was: seq<T>, now: seq<T>, us: seq<Run>, open: Run, pe: nat, p: nat, f: int -> T) {
    now == was + Column(us, p, f) + if p < pe then [f(CellAt(open, p))] else []
  }

  ghost predicate TableGrew<T>(was: seq<seq<T>>, now: seq<seq<T>>, us: seq<Run>, open: Run, pe: nat, f: int -> T) {
    |now| == |was| && forall p {:trigger now[p]} :: 0 <= p < |was| ==> ColumnGrew(was[p], now[p], us, open, pe, p, f)
  }

  ghost predicate Grew(was: Tables, now: Tables, us: seq<Run>, open: Run, pe: nat) {
    && TableGrew(was.threads, now.threads, us, open, pe, Same)
    && TableGrew(was.inst, now.inst, us, open, pe, Zero)
    && TableGrew(was.trace, now.trace, us, open, pe, Zero)
    && TableGrew(was.status, now.status, us, open, pe, StatusOf)
  }

  lemma PushTable<T>(was: seq<seq<T>>, now: seq<seq<T>>, us: seq<Run>, open: Run, open': Run, pe: nat, x: T, f: int -> T)
    requires TableGrew(was, now, us, open, pe, f) && pe < |was|
    requires (forall p :: 0 <= p < pe ==> CellAt(open', p) == CellAt(open, p)) && x == f(CellAt(open', pe))
    ensures TableGrew(was, PushTo(now, pe, x), us, open', pe + 1, f)
  {
    var now' := PushTo(now, pe, x);
    forall p | 0 <= p < |was| ensures ColumnGrew(was[p], now'[p], us, open', pe + 1, p, f) {
      assert ColumnGrew(was[p], now[p], us, open, pe, p, f);
    }
  }

  lemma PushGrows(was: Tables, now: Tables, n: nat, us: seq<Run>, open: Run, open': Run, pe: nat, id: int)
    requires HasColumns(was, n) && Grew(was, now, us, open, pe) && pe < n && id == CellAt(open', pe)
    requires forall p :: 0 <= p < pe ==> CellAt(open', p) == CellAt(open, p)
    ensures Grew(was, Push(now, pe, id, StatusOf(id)), us, open', pe + 1)
  {
    PushTable(was.threads, now.threads, us, open, open', pe, id, Same);
    PushTable(was.inst, now.inst, us, open, open', pe, 0, Zero);
    PushTable(was.trace, now.trace, us, open, open', pe, 0, Zero);
    PushTable(was.status, now.status, us, open, open', pe, StatusOf(id), StatusOf);
  }

  lemma CloseTable<T>(was: seq<seq<T>>, now: seq<seq<T>>, us: seq<Run>, open: Run, f: int -> T, next: Run)
    requires TableGrew(was, now, us, open, |was|, f)
    ensures TableGrew(was, now, us + [open], next, 0, f)
  {
    forall p | 0 <= p < |was| ensures ColumnGrew(was[p], now[p], us + [open], next, 0, p, f) {
      assert ColumnGrew(was[p], now[p], us, open, |was|, p, f);
      assert Column(us + [open], p, f) == Column(us, p, f) + [f(CellAt(open, p))];
    }
  }

  /** A row filled to the last PE becomes one of the rows. */
  lemma CloseRow(was: Tables, now: Tables, n: nat, us: seq<Run>, open: Run, next: Run)
    requires HasColumns(was, n) && Grew(was, now, us, open, n)
    ensures Grew(was, now, us + [open], next, 0)
  {
    CloseTable(was.threads, now.threads, us, open, Same, next);
    CloseTable(was.inst, now.inst, us, open, Zero, next);
    CloseTable(was.trace, now.trace, us, open, Zero, next);
    CloseTable(was.status, now.status, us, open, StatusOf, next);
  }

  lemma StartTable<T>(was: seq<seq<T>>, open: Run, f: int -> T)
    ensures TableGrew(was, was, [], open, 0, f)
  {
    forall p | 0 <= p < |was| ensures ColumnGrew(was[p], was[p], [], open, 0, p, f) {
      assert was[p] + Column([], p, f) + [] == was[p];
    }
  }

  lemma NothingGrew(t: Tables, open: Run)
    ensures Grew(t, t, [], open, 0)
  {
    StartTable(t.threads, open, Same);
    StartTable(t.inst, open, Zero);
    StartTable(t.trace, open, Zero);
    StartTable(t.status, open, StatusOf);
  }

  lemma GrewTableTwice<T>(a: seq<seq<T>>, b: seq<seq<T>>, c: seq<seq<T>>, us: seq<Run>, vs: seq<Run>, o: Run, f: int -> T)
    requires TableGrew(a, b, us, o, 0, f) && TableGrew(b, c, vs, o, 0, f)
    ensures TableGrew(a, c, us + vs, o, 0, f)
  {
    forall p | 0 <= p < |a| ensures ColumnGrew(a[p], c[p], us + vs, o, 0, p, f) {
      assert ColumnGrew(a[p], b[p], us, o, 0, p, f) && ColumnGrew(b[p], c[p], vs, o, 0, p, f);
      assert Column(us + vs, p, f) == Column(us, p, f) + Column(vs, p, f);
    }
  }

  lemma GrewTwice(a: Tables, b: Tables, c: Tables, us: seq<Run>, vs: seq<Run>, o: Run)
    requires Grew(a, b, us, o, 0) && Grew(b, c, vs, o, 0)
    ensures Grew(a, c, us + vs, o, 0)
  {
    GrewTableTwice(a.threads, b.threads, c.threads, us, vs, o, Same);
    GrewTableTwice(a.inst, b.inst, c.inst, us, vs, o, Zero);
    GrewTableTwice(a.trace, b.trace, c.trace, us, vs, o, Zero);
    GrewTableTwice(a.status, b.status, c.status, us, vs, o, StatusOf);
  }

  // ----- tables that show rows -----

  function Blank<T>(n: nat): (c: seq<seq<T>>)
    ensures |c| == n && forall p :: 0 <= p < n ==> c[p] == []
  {
    seq(n, _ => [])
  }

  function Empty(n: nat): Tables {
    Tables(Blank(n), Blank(n), Blank(n), Blank(n))
  }

  const NO_ROW := Run(0, 0)

  /** All four tables show exactly the rows us. */
  ghost predicate Shows(t: Tables, n: nat, us: seq<Run>) {
    Grew(Empty(n), t, us, NO_ROW, 0)
  }

  /** Rectangular, and cell by cell: the thread, zero offsets, and Invalid exactly at padding. */
  lemma ShownCell(t: Tables, n: nat, us: seq<Run>, w: nat, p: nat)
    requires Shows(t, n, us) && p < n
    ensures HasColumns(t, n)
    ensures |t.threads[p]| == |t.inst[p]| == |t.trace[p]| == |t.status[p]| == |us|
    ensures w < |us| ==> t.threads[p][w] == CellAt(us[w], p) && t.inst[p][w] == 0 && t.trace[p][w] == 0
    ensures w < |us| ==> (t.status[p][w] == Invalid <==> t.threads[p][w] == PAD) && t.status[p][w] in {Running, Invalid}
  {
    var e := Empty(n);
    assert ColumnGrew(e.threads[p], t.threads[p], us, NO_ROW, 0, p, Same);
    assert ColumnGrew(e.inst[p], t.inst[p], us, NO_ROW, 0, p, Zero);
    assert ColumnGrew(e.trace[p], t.trace[p], us, NO_ROW, 0, p, Zero);
    assert ColumnGrew(e.status[p], t.status[p], us, NO_ROW, 0, p, StatusOf);
  }

  function Least(a: nat, b: nat): (r: nat)
    ensures r <= a && r <= b && (r == a || r == b)
  {
    if a < b then a else b
  }

  function AllReady(n: nat): (ws: seq<WarpStatus>)
    ensures |ws| == n && forall w :: 0 <= w < n ==> ws[w] == TraceReady
  {
    seq(n, _ => TraceReady)
  }

  class SM {
    const numSP: nat
    var tables: Tables
    var totalThreads: nat
    var warpStatus: seq<WarpStatus>
    var cursor: Cursor
    var timingWarps: nat

    constructor (n: nat)
      ensures numSP == n && totalThreads == 0 && Shows(tables, n, [])
      ensures warpStatus == [] && cursor == Cursor(0, 0, 0, 0) && timingWarps == 0
    {
      numSP := n;
      tables := Empty(n);
      totalThreads := 0;
      warpStatus := [];
      cursor := Cursor(0, 0, 0, 0);
      timingWarps := 0;
      new;
      NothingGrew(Empty(n), NO_ROW);
    }

    /** The two padding loops: columns pe .. numSP - 1 get an invalid cell. */
    method PadRow(pe: nat, ghost was: Tables, ghost us: seq<Run>, ghost open: Run)
      requires HasColumns(was, numSP) && Grew(was, tables, us, open, pe) && open.len <= pe <= numSP
      modifies this`tables
      ensures Grew(was, tables, us, open, numSP)
    {
      var p := pe;
      while p < numSP
        invariant pe <= p <= numSP && Grew(was, tables, us, open, p)
      {
        PushGrows(was, tables, numSP, us, open, open, p, PAD);
        tables := Push(tables, p, PAD, Invalid);
        p := p + 1;
      }
    }

    /** One thread goes to PE pe; the row closes at the end of a block or at the last PE. */
    method AddThread(pe: nat, id: nat, blockEnd: nat, bs: nat, ghost was: Tables, ghost us: seq<Run>)
      returns (pe': nat, blockEnd': nat, ghost us': seq<Run>)
      requires HasColumns(was, numSP) && pe < numSP && pe <= id && 0 < blockEnd <= bs
      requires Grew(was, tables, us, Run(id - pe, pe), pe)
      modifies this`tables, this`totalThreads
      ensures totalThreads == old(totalThreads) + 1
      ensures blockEnd' == if blockEnd == 1 then bs else blockEnd - 1
      ensures pe' == if blockEnd == 1 || pe + 1 == numSP then 0 else pe + 1
      ensures us' == us + if blockEnd == 1 || pe + 1 == numSP then [Run(id - pe, pe + 1)] else []
      ensures Grew(was, tables, us', Run(id + 1 - pe', pe'), pe')
    {
      ghost var open := Run(id - pe, pe + 1);
      PushGrows(was, tables, numSP, us, Run(id - pe, pe), open, pe, id);
      tables := Push(tables, pe, id, Running);
      totalThreads := totalThreads + 1;
      pe' := pe + 1;
      if blockEnd == 1 {
        PadRow(pe', was, us, open);
        pe' := numSP;
        blockEnd' := bs;
      } else {
        blockEnd' := blockEnd - 1;
      }
      us' := us;
      if pe' >= numSP {
        CloseRow(was, tables, numSP, us, open, Run(id + 1, 0));
        us' := us + [open];
        pe' := 0;
      }
    }

    /** After the last thread: an open row is padded and closed. */
    method CloseLast(pe: nat, next: nat, ghost was: Tables, ghost us: seq<Run>)
      requires HasColumns(was, numSP) && pe < numSP && pe <= next
      requires Grew(was, tables, us, Run(next - pe, pe), pe)
      modifies this`tables
      ensures Grew(was, tables, us + (if pe == 0 then [] else [Run(next - pe, pe)]), NO_ROW, 0)
    {
      if pe != 0 {
        PadRow(pe, was, us, Run(next - pe, pe));
        CloseRow(was, tables, numSP, us, Run(next - pe, pe), NO_ROW);
      } else {
        Reopen(was, tables, us, Run(next, 0), NO_ROW);
        assert us + [] == us;
      }
    }

    /** addThreads appends exactly the rows of the layout, to all four tables. */
    method AddThreads(startfid: nat, count: nat, bs: nat)
      requires numSP > 0 && bs > 0 && HasColumns(tables, numSP)
      modifies this`tables, this`totalThreads
      ensures Grew(old(tables), tables, Layout(startfid, count, bs, numSP), NO_ROW, 0)
      ensures totalThreads == old(totalThreads) + count
    {
      ghost var was := tables;
      var blockEnd, pe, next, left := bs, 0, startfid, count;
      ghost var us: seq<Run> := [];
      NothingGrew(tables, Run(startfid, 0));
      while left > 0
        invariant 0 <= left <= count && next == startfid + (count - left)
        invariant pe < numSP && pe <= next && 0 < blockEnd <= bs
        invariant Grew(was, tables, us, Run(next - pe, pe), pe)
        invariant us + Rest(pe, next, left, blockEnd, bs, numSP) == Rest(0, startfid, count, bs, bs, numSP)
        invariant totalThreads == old(totalThreads) + (count - left)
      {
        RestStep(us, pe, next, left, blockEnd, bs, numSP);
        pe, blockEnd, us := AddThread(pe, next, blockEnd, bs, was, us);
        next := next + 1;
        left := left - 1;
      }
      RestIsLayout(startfid, count, bs, numSP);
      CloseLast(pe, next, was, us);
    }

    // ----- the rest of reOrganize -----

    /** One state per row, and the cursor at the first warp. */
    method ReadyWarps()
      requires numSP > 0 && |tables.threads| == numSP && warpStatus == []
      requires totalThreads > 0 <==> tables.threads[0] != []
      modifies this`warpStatus, this`cursor
      ensures warpStatus == AllReady(|tables.threads[0]|)
      ensures cursor == old(cursor).(id := 0, warpSet := 0)
    {
      if totalThreads > 0 {
        var numWarps := |tables.threads[0]|;
        warpStatus := warpStatus + [TraceReady];
        numWarps := numWarps - 1;
        while numWarps > 0
          invariant 0 <= numWarps && warpStatus == AllReady(|tables.threads[0]| - numWarps)
          invariant cursor == old(cursor)
        {
          warpStatus := warpStatus + [TraceReady];
          numWarps := numWarps - 1;
        }
      }
      cursor := cursor.(id := 0, warpSet := 0);
    }

    method UpdateCurrentWarps(concWarps: nat, maxWarps: nat)
      modifies this`cursor
      ensures cursor == old(cursor).(conc := Least(Least(concWarps, maxWarps), |warpStatus|))
    {
      if concWarps > maxWarps {
        cursor := cursor.(conc := maxWarps);
      } else {
        cursor := cursor.(conc := concWarps);
      }
      if cursor.conc > |warpStatus| {
        cursor := cursor.(conc := |warpStatus|);
      }
    }

    /** What reOrganize does to an SM that has its threads. The number of its timing warps is
        given. Within the limit for an SM the cursor is the launched one. */
    method Organize(concWarps: nat, maxWarps: nat, timing: nat)
      requires concWarps > 0 && numSP > 0 && |tables.threads| == numSP && warpStatus == []
      requires totalThreads > 0 <==> tables.threads[0] != []
      modifies this`warpStatus, this`cursor, this`timingWarps
      ensures warpStatus == AllReady(|tables.threads[0]|) && timingWarps == timing
      ensures cursor == Launched(concWarps, |warpStatus|, timing).(conc := Least(Least(concWarps, maxWarps), |warpStatus|))
      ensures concWarps <= maxWarps ==> cursor == Launched(concWarps, |warpStatus|, timing)
    {
      ReadyWarps();
      UpdateCurrentWarps(concWarps, maxWarps);
      timingWarps := timing;
      var warpsets := timingWarps / concWarps;
      if timingWarps % concWarps != 0 {
        warpsets := warpsets + 1;
      }
      cursor := cursor.(sets := warpsets);
    }

    // ----- the warp cursor -----

    method Move2NextWarp()
      modifies this`cursor
      ensures cursor == old(cursor).(id := NextId(old(cursor)))
    {
      cursor := cursor.(id := cursor.id + 1);
      if cursor.id >= cursor.conc {
        cursor := cursor.(id := 0);
      }
    }

    method Move2NextWarpSet() returns (moved: bool)
      modifies this`cursor
      ensures moved == (old(cursor).warpSet + 1 < old(cursor).sets)
      ensures cursor == if moved then old(cursor).(id := 0, warpSet := old(cursor).warpSet + 1) else old(cursor)
    {
      cursor := cursor.(warpSet := cursor.warpSet + 1);
      if cursor.warpSet >= cursor.sets {
        cursor := cursor.(warpSet := cursor.warpSet - 1);
        return false;
      }
      cursor := cursor.(id := 0);
      return true;
    }

    /** A search loop of switch2nextwarp: at most one round, stopping at a warp not skipped. A
        read past the warp states is reported. */
    method Search(barrier: bool) returns (r: Scan)
      requires Placed(cursor)
      modifies this`cursor
      ensures r == ScanFrom(warpStatus, old(cursor), barrier, 0)
      ensures r.Stopped? ==> cursor == MovedBy(old(cursor), r.moves)
    {
      ghost var c := cursor;
      var localWarpCount := 1;
      while true
        invariant 1 <= localWarpCount <= c.conc + 1
        invariant cursor == MovedBy(c, localWarpCount - 1)
        invariant ScanFrom(warpStatus, c, barrier, localWarpCount - 1) == ScanFrom(warpStatus, c, barrier, 0)
        decreases c.conc + 1 - localWarpCount
      {
        if localWarpCount > cursor.conc {
          break;
        }
        OneMove(c, localWarpCount - 1);
        Move2NextWarp();
        localWarpCount := localWarpCount + 1;
        var newWarp := Current(cursor);
        if newWarp >= |warpStatus| {
          return NoSuchWarp(newWarp);
        }
        if !Skips(warpStatus[newWarp], barrier) {
          break;
        }
      }
      return Stopped(localWarpCount - 1);
    }

    /** The choice made by switch2nextwarp; its outer loop never repeats. */
    method ChooseWarp() returns (r: Outcome)
      requires Placed(cursor)
      modifies this`cursor
      ensures r == TrySwitch(warpStatus, old(cursor))
      ensures r.Chosen? ==> cursor == r.cursor
    {
      var warp := Current(cursor);
      var scan := Search(true);
      if scan.NoSuchWarp? {
        return Overrun(scan.index);
      }
      var newWarp, localWarpCount := Current(cursor), scan.moves + 1;
      if newWarp == warp && newWarp >= |warpStatus| {
        return Overrun(newWarp);
      }
      if newWarp == warp && warpStatus[newWarp] != WarpComplete {
        return Chosen(cursor, true);
      }
      if localWarpCount <= cursor.conc {
        return Chosen(cursor, true);
      }
      r := SecondSearch(warp);
    }

    /** No warp but those at a barrier: take one of them, or go to the next set. */
    method SecondSearch(warp: nat) returns (r: Outcome)
      requires Placed(cursor) && warp == Current(cursor) < |warpStatus| && warpStatus[warp] == WarpComplete
      modifies this`cursor
      ensures r == AfterFirst(warpStatus, old(cursor))
      ensures r.Chosen? ==> cursor == r.cursor
    {
      var scan := Search(false);
      if scan.NoSuchWarp? {
        return Overrun(scan.index);
      }
      var newWarp, localWarpCount := Current(cursor), scan.moves + 1;
      if newWarp == warp && warpStatus[newWarp] != WarpComplete {
        return Chosen(cursor, true);
      }
      if localWarpCount <= cursor.conc {
        return Chosen(cursor, true);
      }
      var moved := Move2NextWarpSet();
      if !moved {
        return Chosen(cursor, false);
      }
      newWarp := Current(cursor);
      if newWarp >= |warpStatus| {
        return Overrun(newWarp);
      }
      return Chosen(cursor, warpStatus[newWarp] != WarpComplete);
    }
  }

  lemma OneMove(c: Cursor, k: nat)
    requires Placed(c) && k < c.conc
    ensures c.(id := NextId(MovedBy(c, k))) == MovedBy(c, k + 1)
  {
  }

  lemma ReopenTable<T>(was: seq<seq<T>>, now: seq<seq<T>>, us: seq<Run>, o: Run, o': Run, f: int -> T)
    requires TableGrew(was, now, us, o, 0, f)
    ensures TableGrew(was, now, us, o', 0, f)
  {
    forall p | 0 <= p < |was| ensures ColumnGrew(was[p], now[p], us, o', 0, p, f) {
      assert ColumnGrew(was[p], now[p], us, o, 0, p, f);
    }
  }

  lemma Reopen(was: Tables, now: Tables, us: seq<Run>, o: Run, o': Run)
    requires Grew(was, now, us, o, 0)
    ensures Grew(was, now, us, o', 0)
  {
    ReopenTable(was.threads, now.threads, us, o, o', Same);
    ReopenTable(was.inst, now.inst, us, o, o', Zero);
    ReopenTable(was.trace, now.trace, us, o, o', Zero);
    ReopenTable(was.status, now.status, us, o, o', StatusOf);
  }
}
