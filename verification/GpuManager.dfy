/** The methods of GPUThreadManager that write the pause flags, on the tables of the SMs and the
    flat trace array. */
module GpuManager {
  import opened ThreadLayout
  import opened StreamingMP
  import opened WarpScheduler
  import opened TraceBuffer
  import opened TimingPhase

  // ----- rows of the tables as sets of threads -----

  predicate ValidCell(cols: seq<seq<int>>, p: nat, w: nat) {
    p < |cols| && w < |cols[p]| && cols[p][w] >= 0
  }

  /** The threads of warp w on the first n PEs. */
  function Members(cols: seq<seq<int>>, w: nat, n: nat): set<int> {
    if n == 0 then {}
    else Members(cols, w, n - 1) + if ValidCell(cols, n - 1, w) then {cols[n - 1][w]} else {}
  }

  predicate RunnableCell(t: Tables, p: nat, w: nat) {
    ValidCell(t.threads, p, w) && p < |t.status| && w < |t.status[p]| && t.status[p][w] != PausedOnABarrier
  }

  function Runnable(t: Tables, w: nat, n: nat): (r: set<int>)
    ensures r <= Members(t.threads, w, n)
  {
    if n == 0 then {}
    else Runnable(t, w, n - 1) + if RunnableCell(t, n - 1, w) then {t.threads[n - 1][w]} else {}
  }

  lemma {:induction false} MemberIff(cols: seq<seq<int>>, w: nat, n: nat, x: int)
    ensures x in Members(cols, w, n) <==> exists p :: 0 <= p < n && ValidCell(cols, p, w) && cols[p][w] == x
  {
    if n > 0 {
      MemberIff(cols, w, n - 1, x);
    }
  }

  /** Row w holds thread x. */
  ghost predicate InWarp(t: Tables, w: nat, x: int) {
    exists p :: 0 <= p < |t.threads| && ValidCell(t.threads, p, w) && t.threads[p][w] == x
  }

  /** Row w holds thread x in a cell that is not paused on a barrier. */
  ghost predicate InWarpOffBarrier(t: Tables, w: nat, x: int) {
    exists p :: 0 <= p < |t.threads| && ValidCell(t.threads, p, w) && t.threads[p][w] == x &&
                p < |t.status| && w < |t.status[p]| && t.status[p][w] != PausedOnABarrier
  }

  lemma {:induction false} RunnableIff(t: Tables, w: nat, n: nat, x: int)
    ensures x in Runnable(t, w, n) <==>
            exists p :: 0 <= p < n && ValidCell(t.threads, p, w) && t.threads[p][w] == x &&
                        p < |t.status| && w < |t.status[p]| && t.status[p][w] != PausedOnABarrier
  {
    if n > 0 {
      RunnableIff(t, w, n - 1, x);
    }
  }

  /** Every thread number is a thread of the buffer; statuses and threads have one shape, and a
      cell is invalid exactly when it holds no thread. */
  ghost predicate TablesOk(t: Tables, n: nat) {
    && |t.threads| == |t.status|
    && (forall p :: 0 <= p < |t.threads| ==> |t.threads[p]| == |t.status[p]|)
    && (forall p, w {:trigger CellOk(t, p, w, n)} ::
          0 <= p < |t.threads| && 0 <= w < |t.threads[p]| ==> CellOk(t, p, w, n))
  }

  ghost predicate CellOk(t: Tables, p: nat, w: nat, n: nat)
    requires p < |t.threads| && p < |t.status| && w < |t.threads[p]| && w < |t.status[p]|
  {
    t.threads[p][w] < n && (t.status[p][w] == Invalid <==> t.threads[p][w] < 0)
  }

  /** One SM as the timing phase sees it. */
  ghost function View(t: Tables, status: seq<WarpStatus>, c: Cursor, timing: nat): Sm {
    Sm(seq(|status|, w requires w >= 0 => Members(t.threads, w, |t.threads|)),
       seq(|status|, w requires w >= 0 => Runnable(t, w, |t.threads|)), status, c, timing)
  }

  ghost function ViewOf(sm: SM): Sm
    reads sm
  {
    View(sm.tables, sm.warpStatus, sm.cursor, sm.timingWarps)
  }

  // ----- pausing and resuming one warp -----

  method PauseWarp(tr: Trace, t: Tables, w: nat)
    requires tr.Valid() && TablesOk(t, tr.n)
    modifies tr`view, tr.words
    ensures tr.Valid()
    ensures tr.view == Pausing(old(tr.view), Members(t.threads, w, |t.threads|), 1)
  {
    ghost var x := tr.view;
    Nobody(x, false, 1);
    for pe := 0 to |t.threads|
      invariant tr.Valid()
      invariant tr.view == Pausing(x, Members(t.threads, w, pe), 1)
    {
      if w < |t.threads[pe]| {
        var activeThread := t.threads[pe][w];
        if activeThread >= 0 {
          assert CellOk(t, pe, w, tr.n);
          PausingTwice(x, Members(t.threads, w, pe), {activeThread}, 1);
          tr.SetPause(activeThread, 1);
        }
      }
    }
  }

  method ResumeWarp(tr: Trace, t: Tables, w: nat)
    requires tr.Valid() && TablesOk(t, tr.n)
    modifies tr`view, tr.words
    ensures tr.Valid()
    ensures tr.view == Pausing(old(tr.view), Runnable(t, w, |t.threads|), 0)
  {
    ghost var x := tr.view;
    Nobody(x, false, 0);
    for pe := 0 to |t.threads|
      invariant tr.Valid()
      invariant tr.view == Pausing(x, Runnable(t, w, pe), 0)
    {
      if w < |t.threads[pe]| {
        var activeThread := t.threads[pe][w];
        if activeThread >= 0 {
          if t.status[pe][w] != PausedOnABarrier {
            assert CellOk(t, pe, w, tr.n);
            PausingTwice(x, Runnable(t, w, pe), {activeThread}, 0);
            tr.SetPause(activeThread, 0);
          }
        }
      }
    }
  }

  // ----- switch2nextwarp -----

  lemma ViewOk(t: Tables, status: seq<WarpStatus>, c: Cursor, timing: nat)
    requires InRange(c, |status|)
    ensures SmOk(View(t, status, c, timing))
  {
  }

  /** The trace after a switch: the old warp paused and, if one was found, the new one resumed. */
  function SwitchedTrace(x: Words, t: Tables, c: Cursor, r: Outcome): Words {
    var paused := Pausing(x, Members(t.threads, Current(c), |t.threads|), 1);
    if r.Chosen? && r.found then Pausing(paused, Runnable(t, Current(r.cursor), |t.threads|), 0) else paused
  }

  /** Flag by flag: the threads of a found warp that are not at a barrier run, the others of the
      old warp are paused, and nothing else in the trace changes. */
  lemma SwitchedMeaning(x: Words, t: Tables, c: Cursor, r: Outcome, i: nat)
    requires i < |x.pause|
    ensures SwitchedTrace(x, t, c, r) == x.(pause := SwitchedTrace(x, t, c, r).pause)
    ensures |SwitchedTrace(x, t, c, r).pause| == |x.pause|
    ensures SwitchedTrace(x, t, c, r).pause[i] ==
            if r.Chosen? && r.found && InWarpOffBarrier(t, Current(r.cursor), i) then 0
            else if InWarp(t, Current(c), i) then 1
            else x.pause[i]
  {
    MemberIff(t.threads, Current(c), |t.threads|, i);
    if r.Chosen? {
      RunnableIff(t, Current(r.cursor), |t.threads|, i);
    }
  }

  /** Where the sets fit, that is the switch step of the timing phase. */
  lemma SwitchedIsStep(x: Words, t: Tables, status: seq<WarpStatus>, c: Cursor, timing: nat)
    requires InRange(c, |status|) && timing > 0
    ensures SmOk(View(t, status, c, timing)) && TrySwitch(status, c) == Chosen(Switch(status, c).0, Switch(status, c).1)
    ensures SwitchedTrace(x, t, c, TrySwitch(status, c)) == x.(pause := SwitchFlags(x.pause, View(t, status, c, timing)))
  {
    var m := View(t, status, c, timing);
    ViewOk(t, status, c, timing);
    CurrentExists(m);
    CurrentExists(m.(cursor := Switch(status, c).0));
    InRangeNeverOverruns(status, c);
  }

  /** switch2nextwarp on any launch: the scheduler's outcome and the flags it leaves. */
  method Switch2NextWarp(sm: SM, tr: Trace) returns (r: Outcome)
    requires tr.Valid() && TablesOk(sm.tables, tr.n) && Placed(sm.cursor)
    modifies sm`cursor, tr`view, tr.words
    ensures tr.Valid()
    ensures r == TrySwitch(sm.warpStatus, old(sm.cursor)) && (r.Chosen? ==> sm.cursor == r.cursor)
    ensures tr.view == SwitchedTrace(old(tr.view), sm.tables, old(sm.cursor), r)
  {
    var warpid := Current(sm.cursor);
    PauseWarp(tr, sm.tables, warpid);
    r := sm.ChooseWarp();
    if r.Overrun? || !r.found {
      return;
    }
    var newwarpid := Current(sm.cursor);
    ResumeWarp(tr, sm.tables, newwarpid);
  }

  // ----- reset_nextRabbitBB -----

  /** The threads a PE has in rows lo .. hi - 1. */
  function InColumn(col: seq<int>, lo: nat, hi: nat): set<int>
    decreases hi
  {
    if hi <= lo then {}
    else InColumn(col, lo, hi - 1) + if hi - 1 < |col| && col[hi - 1] >= 0 then {col[hi - 1]} else {}
  }

  /** Threads in rows lo .. hi - 1 of the first n PEs. */
  function InRows(cols: seq<seq<int>>, lo: nat, hi: nat, n: nat): set<int> {
    if n == 0 || n > |cols| then {}
    else InRows(cols, lo, hi, n - 1) + InColumn(cols[n - 1], lo, hi)
  }

  lemma {:induction false} InColumnIff(col: seq<int>, lo: nat, hi: nat, x: int)
    ensures x in InColumn(col, lo, hi) <==> exists w :: lo <= w < hi && w < |col| && col[w] == x && x >= 0
    decreases hi
  {
    if hi > lo {
      InColumnIff(col, lo, hi - 1, x);
    }
  }

  lemma {:induction false} InRowsIff(cols: seq<seq<int>>, lo: nat, hi: nat, n: nat, x: int)
    requires n <= |cols|
    ensures x in InRows(cols, lo, hi, n) <==>
            exists p, w :: 0 <= p < n && lo <= w < hi && ValidCell(cols, p, w) && cols[p][w] == x
  {
    if n > 0 {
      InRowsIff(cols, lo, hi, n - 1, x);
      InColumnIff(cols[n - 1], lo, hi, x);
      if x in InColumn(cols[n - 1], lo, hi) {
        var w :| lo <= w < hi && w < |cols[n - 1]| && cols[n - 1][w] == x && x >= 0;
        assert ValidCell(cols, n - 1, w);
      }
    }
  }

  /** m's rows are those of the columns, one cell per row and column. */
  ghost predicate Shown(m: Sm, cols: seq<seq<int>>, rows: nat) {
    && |m.warps| == rows && RowsApart(m) && (forall p :: 0 <= p < |cols| ==> |cols[p]| == rows)
    && (forall w :: 0 <= w < rows ==> m.warps[w] == Members(cols, w, |cols|))
  }

  /** Column by column or row by row, the same threads. */
  lemma RowsOfView(m: Sm, cols: seq<seq<int>>, lo: nat, hi: nat)
    requires hi <= |m.warps| && forall w :: 0 <= w < |m.warps| ==> m.warps[w] == Members(cols, w, |cols|)
    ensures InRows(cols, lo, hi, |cols|) == Rows(m, lo, hi)
  {
    forall x ensures x in InRows(cols, lo, hi, |cols|) <==> x in Rows(m, lo, hi) {
      InRowsIff(cols, lo, hi, |cols|, x);
      if x in InRows(cols, lo, hi, |cols|) {
        var p, w :| 0 <= p < |cols| && lo <= w < hi && ValidCell(cols, p, w) && cols[p][w] == x;
        MemberIff(cols, w, |cols|, x);
        assert x in m.warps[w];
      }
      if x in Rows(m, lo, hi) {
        var w :| lo <= w < hi && x in m.warps[w];
        MemberIff(cols, w, |cols|, x);
      }
    }
  }

  lemma ColumnsClip(cols: seq<seq<int>>, rows: nat, timing: nat, n: nat)
    requires n <= |cols| && forall p :: 0 <= p < |cols| ==> |cols[p]| == rows
    ensures InRows(cols, 0, timing, n) == InRows(cols, 0, Least(timing, rows), n)
    ensures InRows(cols, timing, rows, n) == InRows(cols, Least(timing, rows), rows, n)
  {
    forall x ensures x in InRows(cols, 0, timing, n) <==> x in InRows(cols, 0, Least(timing, rows), n) {
      InRowsIff(cols, 0, timing, n, x);
      InRowsIff(cols, 0, Least(timing, rows), n, x);
    }
    forall x ensures x in InRows(cols, timing, rows, n) <==> x in InRows(cols, Least(timing, rows), rows, n) {
      InRowsIff(cols, timing, rows, n, x);
      InRowsIff(cols, Least(timing, rows), rows, n, x);
    }
  }

  lemma PartsAreRows(m: Sm, cols: seq<seq<int>>, rows: nat)
    requires Shown(m, cols, rows)
    ensures InRows(cols, 0, m.timing, |cols|) == Rows(m, 0, Timed(m))
    ensures InRows(cols, m.timing, rows, |cols|) == Rows(m, Timed(m), rows)
  {
    ColumnsClip(cols, rows, m.timing, |cols|);
    RowsOfView(m, cols, 0, Timed(m));
    RowsOfView(m, cols, Timed(m), rows);
  }

  lemma InRowMember(m: Sm, cols: seq<seq<int>>, p: nat, w: nat)
    requires w < |m.warps| && m.warps[w] == Members(cols, w, |cols|) && ValidCell(cols, p, w)
    ensures cols[p][w] in m.warps[w]
  {
    MemberIff(cols, w, |cols|, cols[p][w]);
  }

  /** The timing part of a column and the rabbit part of the columns before it share no thread. */
  lemma PartsDisjoint(m: Sm, cols: seq<seq<int>>, timing: nat, pe: nat)
    requires pe < |cols| && Shown(m, cols, |m.warps|)
    ensures InColumn(cols[pe], 0, timing) !! InRows(cols, timing, |m.warps|, pe)
  {
    forall x | x in InColumn(cols[pe], 0, timing) ensures x !in InRows(cols, timing, |m.warps|, pe) {
      InColumnIff(cols[pe], 0, timing, x);
      InRowsIff(cols, timing, |m.warps|, pe, x);
      var w :| 0 <= w < timing && w < |cols[pe]| && cols[pe][w] == x && x >= 0;
      InRowMember(m, cols, pe, w);
      forall p, w' | 0 <= p < pe && timing <= w' < |m.warps| && ValidCell(cols, p, w') ensures cols[p][w'] != x {
        InRowMember(m, cols, p, w');
      }
    }
  }

  method PauseColumn(tr: Trace, t: Tables, pe: nat, timing: nat)
    requires tr.Valid() && TablesOk(t, tr.n) && pe < |t.threads|
    modifies tr`view, tr.words
    ensures tr.Valid()
    ensures tr.view == Pausing(old(tr.view), InColumn(t.threads[pe], 0, timing), 1)
  {
    ghost var x := tr.view;
    Nobody(x, false, 1);
    for w := 0 to timing
      invariant tr.Valid()
      invariant tr.view == Pausing(x, InColumn(t.threads[pe], 0, w), 1)
    {
      if w < |t.threads[pe]| {
        assert CellOk(t, pe, w, tr.n);
        if t.status[pe][w] != Invalid {
          PausingTwice(x, InColumn(t.threads[pe], 0, w), {t.threads[pe][w]}, 1);
          tr.SetPause(t.threads[pe][w], 1);
        }
      }
    }
  }

  method ReleaseCell(tr: Trace, t: Tables, pe: nat, w: nat)
    requires tr.Valid() && TablesOk(t, tr.n) && pe < |t.threads|
    modifies tr`view, tr.words
    ensures tr.Valid() && tr.view == Releasing(old(tr.view), InColumn(t.threads[pe], w, w + 1))
  {
    Nobody(tr.view, false, 0);
    if w < |t.threads[pe]| {
      assert CellOk(t, pe, w, tr.n);
      if t.status[pe][w] != Invalid {
        tr.Release(t.threads[pe][w]);
      }
    }
  }

  lemma OneMoreRow(col: seq<int>, lo: nat, w: nat)
    requires lo <= w
    ensures InColumn(col, lo, w + 1) == InColumn(col, lo, w) + InColumn(col, w, w + 1)
  {
  }

  /** Rows lo .. w - 1 of one PE released one after the other. */
  function ReleasedRows(x: Words, col: seq<int>, lo: nat, w: nat): Words
    decreases w
  {
    if w <= lo then x else Releasing(ReleasedRows(x, col, lo, w - 1), InColumn(col, w - 1, w))
  }

  lemma {:induction false} ReleasedRowsIs(x: Words, col: seq<int>, lo: nat, w: nat)
    ensures ReleasedRows(x, col, lo, w) == Releasing(x, InColumn(col, lo, w))
    decreases w
  {
    if w <= lo {
      Nobody(x, false, 0);
    } else {
      ReleasedRowsIs(x, col, lo, w - 1);
      OneMoreRow(col, lo, w - 1);
      ReleasingTwice(x, InColumn(col, lo, w - 1), InColumn(col, w - 1, w));
    }
  }

  lemma ReleasedNext(x: Words, col: seq<int>, lo: nat, w: nat)
    requires lo <= w
    ensures Releasing(ReleasedRows(x, col, lo, w), InColumn(col, w, w + 1)) == ReleasedRows(x, col, lo, w + 1)
  {
  }

  lemma ReleasedAll(x: Words, col: seq<int>, lo: nat, w: nat, rows: nat)
    requires w == rows || (w == lo && rows <= lo)
    ensures ReleasedRows(x, col, lo, w) == Releasing(x, InColumn(col, lo, rows))
  {
    ReleasedRowsIs(x, col, lo, rows);
  }

  method ReleaseColumn(tr: Trace, t: Tables, pe: nat, timing: nat, rows: nat)
    requires tr.Valid() && TablesOk(t, tr.n) && pe < |t.threads|
    modifies tr`view, tr.words
    ensures tr.Valid() && tr.view == Releasing(old(tr.view), InColumn(t.threads[pe], timing, rows))
  {
    ghost var x := tr.view;
    var w := timing;
    while w < rows
      invariant timing <= w && (w <= rows || w == timing)
      invariant tr.Valid() && tr.view == ReleasedRows(x, t.threads[pe], timing, w)
    {
      ReleasedNext(x, t.threads[pe], timing, w);
      ReleaseCell(tr, t, pe, w);
      w := w + 1;
    }
    ReleasedAll(x, t.threads[pe], timing, w, rows);
  }

  lemma NextPart(x: Words, A: set<int>, B: set<int>, A': set<int>, B': set<int>)
    requires A' !! B
    ensures Releasing(Pausing(Releasing(Pausing(x, A, 1), B), A', 1), B') == Releasing(Pausing(x, A + A', 1), B + B')
  {
    PausingPast(Pausing(x, A, 1), B, A');
    PausingTwice(x, A, A', 1);
    ReleasingTwice(Pausing(x, A + A', 1), B, B');
  }

  /** The trace after PE pe has paused its timing threads and released its rabbits. */
  function AfterPE(x: Words, col: seq<int>, timing: nat, rows: nat): Words {
    Releasing(Pausing(x, InColumn(col, 0, timing), 1), InColumn(col, timing, rows))
  }

  function AfterPEs(x: Words, cols: seq<seq<int>>, timing: nat, rows: nat, pe: nat): Words
    requires pe <= |cols|
  {
    if pe == 0 then x else AfterPE(AfterPEs(x, cols, timing, rows, pe - 1), cols[pe - 1], timing, rows)
  }

  method ResetPE(tr: Trace, t: Tables, pe: nat, timing: nat, rows: nat)
    requires tr.Valid() && TablesOk(t, tr.n) && pe < |t.threads|
    modifies tr`view, tr.words
    ensures tr.Valid() && tr.view == AfterPE(old(tr.view), t.threads[pe], timing, rows)
  {
    PauseColumn(tr, t, pe, timing);
    ReleaseColumn(tr, t, pe, timing, rows);
  }

  /** Per PE, the timing threads are paused, then the rabbit threads released. */
  method ResetTables(tr: Trace, t: Tables, timing: nat, rows: nat)
    requires tr.Valid() && TablesOk(t, tr.n)
    modifies tr`view, tr.words
    ensures tr.Valid() && tr.view == AfterPEs(old(tr.view), t.threads, timing, rows, |t.threads|)
  {
    ghost var x := tr.view;
    for pe := 0 to |t.threads|
      invariant tr.Valid() && tr.view == AfterPEs(x, t.threads, timing, rows, pe)
    {
      ResetPE(tr, t, pe, timing, rows);
    }
  }

  /** PE by PE is the same as all timing threads first and all rabbits afterwards. */
  lemma {:induction false} AfterPEsIs(x: Words, m: Sm, cols: seq<seq<int>>, timing: nat, rows: nat, pe: nat)
    requires pe <= |cols| && Shown(m, cols, rows)
    ensures AfterPEs(x, cols, timing, rows, pe) ==
            Releasing(Pausing(x, InRows(cols, 0, timing, pe), 1), InRows(cols, timing, rows, pe))
  {
    if pe == 0 {
      Nobody(x, false, 1);
    } else {
      AfterPEsIs(x, m, cols, timing, rows, pe - 1);
      PartsDisjoint(m, cols, timing, pe - 1);
      NextPart(x, InRows(cols, 0, timing, pe - 1), InRows(cols, timing, rows, pe - 1),
               InColumn(cols[pe - 1], 0, timing), InColumn(cols[pe - 1], timing, rows));
    }
  }

  lemma AfterAllPEs(x: Words, m: Sm, cols: seq<seq<int>>, rows: nat)
    requires Shown(m, cols, rows)
    ensures AfterPEs(x, cols, m.timing, rows, |cols|) == RabbitSm(x, m)
  {
    AfterPEsIs(x, m, cols, m.timing, rows, |cols|);
    PartsAreRows(m, cols, rows);
  }

  /** What every SM of a launch satisfies. */
  ghost predicate SmReady(sm: SM, n: nat)
    reads sm
  {
    && TablesOk(sm.tables, n) && Shown(ViewOf(sm), sm.tables.threads, |sm.warpStatus|)
    && |sm.tables.threads| == sm.numSP && (sm.totalThreads == 0 ==> sm.warpStatus == [])
    && (forall p, w :: 0 <= p < sm.numSP && ValidCell(sm.tables.threads, p, w) ==> p < sm.totalThreads)
  }

  ghost function Views(sms: seq<SM>): (v: seq<Sm>)
    reads sms
    ensures |v| == |sms| && forall s :: 0 <= s < |sms| ==> v[s] == ViewOf(sms[s])
  {
    seq(|sms|, s requires 0 <= s < |sms| reads sms => ViewOf(sms[s]))
  }

  lemma NoRowsNoChange(x: Words, m: Sm)
    requires m.warps == []
    ensures RabbitSm(x, m) == x && Rows(m, m.timing, |m.warps|) == {}
  {
    assert Rows(m, 0, 0) == {};
    Nobody(x, false, 1);
  }

  /** reset_nextRabbitBB: every SM with threads does its part. */
  method ResetNextRabbitBB(sms: seq<SM>, tr: Trace)
    requires tr.Valid() && forall s {:trigger SmReady(sms[s], tr.n)} :: 0 <= s < |sms| ==> SmReady(sms[s], tr.n)
    modifies tr`view, tr.words
    ensures tr.Valid()
    ensures tr.view == RabbitAll(old(tr.view), Views(sms), |sms|)
  {
    ghost var x, views := tr.view, Views(sms);
    for s := 0 to |sms|
      invariant tr.Valid()
      invariant tr.view == RabbitAll(x, views, s)
    {
      assert SmReady(sms[s], tr.n);
      if sms[s].totalThreads > 0 {
        AfterAllPEs(tr.view, views[s], sms[s].tables.threads, |sms[s].warpStatus|);
        ResetTables(tr, sms[s].tables, sms[s].timingWarps, |sms[s].warpStatus|);
      } else {
        NoRowsNoChange(tr.view, views[s]);
      }
    }
  }

  // ----- init_trace -----

  /** The thread of warp w on one PE. */
  function CellSet(cols: seq<seq<int>>, pe: nat, w: nat): set<int> {
    if ValidCell(cols, pe, w) then {cols[pe][w]} else {}
  }

  method MarkCell(tr: Trace, t: Tables, pe: nat, w: nat, rabbit: bool, pause: nat)
    requires tr.Valid() && TablesOk(t, tr.n) && pe < |t.threads| && w < |t.threads[pe]|
    modifies tr`view, tr.words
    ensures tr.Valid() && tr.view == Marking(old(tr.view), CellSet(t.threads, pe, w), rabbit, pause)
  {
    Nobody(tr.view, rabbit, pause);
    var activeThread := t.threads[pe][w];
    if activeThread >= 0 {
      assert CellOk(t, pe, w, tr.n);
      tr.Mark(activeThread, rabbit, pause);
    }
  }

  function MarkedPEs(x: Words, cols: seq<seq<int>>, w: nat, rabbit: bool, pause: nat, n: nat): Words {
    if n == 0 then x else Marking(MarkedPEs(x, cols, w, rabbit, pause, n - 1), CellSet(cols, n - 1, w), rabbit, pause)
  }

  lemma {:induction false} MarkedPEsIs(x: Words, cols: seq<seq<int>>, w: nat, rabbit: bool, pause: nat, n: nat)
    ensures MarkedPEs(x, cols, w, rabbit, pause, n) == Marking(x, Members(cols, w, n), rabbit, pause)
  {
    if n == 0 {
      Nobody(x, rabbit, pause);
    } else {
      MarkedPEsIs(x, cols, w, rabbit, pause, n - 1);
      MarkingTwice(x, Members(cols, w, n - 1), CellSet(cols, n - 1, w), rabbit, pause);
    }
  }

  /** pauseSelectivethreads and resumeSelectivethreads at launch: the threads of one warp on the
      first maxcount PEs. */
  method MarkWarp(tr: Trace, t: Tables, w: nat, maxcount: nat, rabbit: bool, pause: nat)
    requires tr.Valid() && TablesOk(t, tr.n) && maxcount <= |t.threads|
    requires forall p :: 0 <= p < maxcount ==> w < |t.threads[p]|
    modifies tr`view, tr.words
    ensures tr.Valid() && tr.view == Marking(old(tr.view), Members(t.threads, w, maxcount), rabbit, pause)
  {
    ghost var x := tr.view;
    for pe := 0 to maxcount
      invariant tr.Valid() && tr.view == MarkedPEs(x, t.threads, w, rabbit, pause, pe)
    {
      MarkCell(tr, t, pe, w, rabbit, pause);
    }
    MarkedPEsIs(x, t.threads, w, rabbit, pause, maxcount);
  }

  /** No PE beyond the number of threads holds one, so the shorter loop sees the whole warp. */
  lemma {:induction false} ShortLoopSuffices(cols: seq<seq<int>>, w: nat, total: nat, n: nat)
    requires forall p :: 0 <= p < n && ValidCell(cols, p, w) ==> p < total
    ensures Members(cols, w, Least(n, total)) == Members(cols, w, n)
  {
    if n > total {
      ShortLoopSuffices(cols, w, total, n - 1);
    }
  }

  lemma RowsNext(m: Sm, lo: nat, w: nat)
    requires lo <= w < |m.warps|
    ensures Rows(m, lo, w + 1) == Rows(m, lo, w) + m.warps[w]
  {
    forall t ensures t in Rows(m, lo, w + 1) <==> t in Rows(m, lo, w) || t in m.warps[w] {
    }
  }

  /** The rows beyond the timing warps are paused as rabbits. */
  method MarkRabbits(tr: Trace, t: Tables, timing: nat, rows: nat, total: nat, ghost m: Sm)
    requires tr.Valid() && TablesOk(t, tr.n) && Shown(m, t.threads, rows)
    requires forall p, w :: 0 <= p < |t.threads| && ValidCell(t.threads, p, w) ==> p < total
    modifies tr`view, tr.words
    ensures tr.Valid()
    ensures tr.view == Marking(old(tr.view), Rows(m, timing, rows), true, 1)
  {
    ghost var x := tr.view;
    Nobody(x, true, 1);
    assert timing > rows ==> Rows(m, timing, rows) == {};
    var w := timing;
    assert timing <= rows ==> Rows(m, timing, w) == {};
    while w < rows
      invariant timing <= w && (w <= rows || w == timing)
      invariant tr.Valid()
      invariant timing <= rows ==> tr.view == Marking(x, Rows(m, timing, w), true, 1)
      invariant timing > rows ==> tr.view == x
    {
      ShortLoopSuffices(t.threads, w, total, |t.threads|);
      RowsNext(m, timing, w);
      MarkingTwice(x, Rows(m, timing, w), m.warps[w], true, 1);
      MarkWarp(tr, t, w, Least(|t.threads|, total), true, 1);
      w := w + 1;
    }
  }

  /** One SM's part of init_trace. The reset of the warp set finds it at zero already. */
  method InitOneSM(sm: SM, tr: Trace)
    requires tr.Valid() && SmReady(sm, tr.n) && Started(ViewOf(sm)) && sm.cursor.warpSet == 0
    modifies tr`view, tr.words
    ensures tr.Valid() && tr.view == InitSm(old(tr.view), ViewOf(sm), StartThreads(ViewOf(sm)))
  {
    ghost var m := ViewOf(sm);
    var t, rows := sm.tables, |sm.warpStatus|;
    Nobody(tr.view, false, 0);
    if sm.timingWarps > 0 {
      var warpid := Current(sm.cursor.(warpSet := 0));
      ShortLoopSuffices(t.threads, warpid, sm.totalThreads, |t.threads|);
      MarkWarp(tr, t, warpid, Least(|t.threads|, sm.totalThreads), false, 0);
    }
    MarkRabbits(tr, t, sm.timingWarps, rows, sm.totalThreads, m);
  }

  lemma NoRowsNoInit(x: Words, m: Sm)
    requires m.warps == []
    ensures InitSm(x, m, StartThreads(m)) == x
  {
    assert Rows(m, m.timing, 0) == {};
    Nobody(x, false, 0);
    Nobody(x, true, 1);
  }

  /** The SMs of a launch before its first step. */
  ghost predicate Launching(sm: SM, n: nat)
    reads sm
  {
    SmReady(sm, n) && Started(ViewOf(sm)) && sm.cursor.warpSet == 0
  }

  method InitSMs(sms: seq<SM>, tr: Trace)
    requires tr.Valid() && forall s {:trigger Launching(sms[s], tr.n)} :: 0 <= s < |sms| ==> Launching(sms[s], tr.n)
    modifies tr`view, tr.words
    ensures tr.Valid() && tr.view == InitAll(old(tr.view), Views(sms), Starts(Views(sms)), |sms|)
  {
    ghost var x, views := tr.view, Views(sms);
    for s := 0 to |sms|
      invariant tr.Valid() && tr.view == InitAll(x, views, Starts(views), s)
    {
      assert Launching(sms[s], tr.n);
      if sms[s].totalThreads > 0 {
        InitOneSM(sms[s], tr);
      } else {
        NoRowsNoInit(tr.view, views[s]);
      }
    }
  }

  /** init_trace: with a sample, everyone is paused and each SM with threads does its part;
      without one, everyone runs in rabbit mode. */
  method InitTrace(sms: seq<SM>, tr: Trace, maxSamplingThreads: int)
    requires tr.Sized() && forall s {:trigger Launching(sms[s], tr.n)} :: 0 <= s < |sms| ==> Launching(sms[s], tr.n)
    modifies tr`view, tr.words
    ensures tr.Valid()
    ensures maxSamplingThreads == 0 ==> tr.view == Marking(Zeroed(tr.size, tr.n), FirstThreads(tr.n), true, 0)
    ensures maxSamplingThreads == 0 ==> forall t :: 0 <= t < tr.n ==>
              tr.view.first[t] == 1 && tr.view.skip[t] == 32760 && tr.view.pause[t] == 0
    ensures maxSamplingThreads != 0 ==>
              tr.view == InitAll(AllPaused(tr.size, tr.n), Views(sms), Starts(Views(sms)), |sms|)
  {
    tr.Clear();
    if maxSamplingThreads != 0 {
      tr.MarkAll(false, 1);
      InitSMs(sms, tr);
    } else {
      tr.MarkAll(true, 0);
    }
  }

  function AllPaused(size: nat, n: nat): (x: Words)
    ensures |x.pause| == |x.first| == |x.skip| == n
    ensures forall t :: 0 <= t < n ==> x.pause[t] == 1 && x.first[t] == 1 && x.skip[t] == 0
  {
    Marking(Zeroed(size, n), FirstThreads(n), false, 1)
  }
}
