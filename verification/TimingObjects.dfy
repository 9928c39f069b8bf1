/** The timing phase on the SM objects and the trace array themselves.

    Each method is one place where Timing_Original and its caller write: they establish or keep
    the invariant of TimingPhase, so every script of them does. */
module TimingObjects {
  import opened StreamingMP
  import opened WarpScheduler
  import opened TraceBuffer
  import opened TimingPhase
  import opened GpuManager
  import opened Relaunch
  import Distribution
  import LaunchedTables

  ghost predicate SmFit(sm: SM, n: nat)
    reads sm
  {
    TablesOk(sm.tables, n) && SameShape(sm.tables) && |sm.tables.threads| == sm.numSP
  }

  ghost function Now(sms: seq<SM>, tr: Trace): State
    reads sms, tr
  {
    State(tr.view.pause, Views(sms))
  }

  /** Sound tables and trace, and whoever is not paused is in its SM's current warp. */
  ghost predicate PhaseHolds(sms: seq<SM>, tr: Trace)
    reads sms, tr, tr.words
  {
    && tr.Valid() && Distribution.Distinct(sms)
    && (forall s {:trigger SmFit(sms[s], tr.n)} :: 0 <= s < |sms| ==> SmFit(sms[s], tr.n))
    && Ok(Now(sms, tr)) && OnlyCurrentRuns(Now(sms, tr))
  }

  /** An SM about to start, on a launch that fits. */
  ghost predicate Ready(sm: SM, n: nat)
    reads sm
  {
    Launching(sm, n) && SmFit(sm, n) && SmOk(ViewOf(sm))
  }

  /** init_trace with a sample, on a launch that fits. */
  method StartPhase(sms: seq<SM>, tr: Trace, maxSamplingThreads: int)
    requires tr.Sized() && Distribution.Distinct(sms) && Disjoint(Views(sms)) && maxSamplingThreads != 0
    requires forall s {:trigger Ready(sms[s], tr.n)} :: 0 <= s < |sms| ==> Ready(sms[s], tr.n)
    modifies tr`view, tr.words
    ensures PhaseHolds(sms, tr)
    ensures EveryoneStarts(sms, tr)
  {
    forall s | 0 <= s < |sms| ensures Launching(sms[s], tr.n) && SmFit(sms[s], tr.n) && SmOk(ViewOf(sms[s])) {
      assert Ready(sms[s], tr.n);
    }
    InitTrace(sms, tr, maxSamplingThreads);
    StartHolds(sms, tr, AllPaused(tr.size, tr.n));
  }

  lemma StartHolds(sms: seq<SM>, tr: Trace, x: Words)
    requires tr.Valid() && Distribution.Distinct(sms) && Disjoint(Views(sms)) && Unmarked(x, tr.n)
    requires forall s {:trigger Ready(sms[s], tr.n)} :: 0 <= s < |sms| ==> Ready(sms[s], tr.n)
    requires tr.view == InitAll(x, Views(sms), Starts(Views(sms)), |sms|)
    ensures PhaseHolds(sms, tr) && EveryoneStarts(sms, tr)
  {
    forall s | 0 <= s < |sms| ensures SmFit(sms[s], tr.n) && Started(Views(sms)[s]) && SmOk(Views(sms)[s]) {
      assert Ready(sms[s], tr.n);
    }
    InitHolds(x, Views(sms));
    InitStartsEveryone(sms, tr, x);
  }

  /** Everyone paused at the first basic block, and no rabbit yet. */
  ghost predicate Unmarked(x: Words, n: nat) {
    && |x.pause| == |x.first| == |x.skip| == n
    && forall t :: 0 <= t < n ==> x.pause[t] == 1 && x.first[t] == 1 && x.skip[t] == 0
  }

  /** Every thread of every row has the words of the start. */
  ghost predicate EveryoneStarts(sms: seq<SM>, tr: Trace)
    reads sms, tr
  {
    forall s, w, i {:trigger InWarp(sms[s].tables, w, i)} ::
      0 <= s < |sms| && 0 <= w < |sms[s].warpStatus| && 0 <= i < tr.n && InWarp(sms[s].tables, w, i) ==>
      StartWords(tr.view, ViewOf(sms[s]), w, i)
  }

  lemma InitStartsEveryone(sms: seq<SM>, tr: Trace, x: Words)
    requires Disjoint(Views(sms)) && Unmarked(x, tr.n)
    requires tr.view == InitAll(x, Views(sms), Starts(Views(sms)), |sms|)
    requires forall j {:trigger Started(Views(sms)[j])} :: 0 <= j < |sms| ==> Started(Views(sms)[j])
    ensures EveryoneStarts(sms, tr)
  {
    forall s: nat, w: nat, i: nat | s < |sms| && w < |sms[s].warpStatus| && i < tr.n && InWarp(sms[s].tables, w, i)
      ensures StartWords(tr.view, ViewOf(sms[s]), w, i)
    {
      StartCell(x, Views(sms), tr.view, sms[s].tables, tr.n, s, w, i);
    }
  }

  lemma StartCell(x: Words, views: seq<Sm>, y: Words, t: Tables, n: nat, s: nat, w: nat, i: nat)
    requires Disjoint(views) && Unmarked(x, n) && i < n && y == InitAll(x, views, Starts(views), |views|)
    requires forall j {:trigger Started(views[j])} :: 0 <= j < |views| ==> Started(views[j])
    requires s < |views| && w < |views[s].warps| && views[s].warps[w] == Members(t.threads, w, |t.threads|) && InWarp(t, w, i)
    ensures StartWords(y, views[s], w, i)
  {
    MemberIff(t.threads, w, |t.threads|, i);
    InitWords(x, views, s, w, i);
  }

  /** A thread of row w at the start: its first basic block; the skip count of a rabbit beyond the
      timing warps; running exactly in the current warp of an SM with timing warps. */
  ghost predicate StartWords(x: Words, m: Sm, w: nat, i: nat) {
    && i < |x.first| && i < |x.skip| && i < |x.pause|
    && x.first[i] == 1 && x.skip[i] == (if w < m.timing then 0 else 32760)
    && x.pause[i] == (if m.timing > 0 && w == Current(m.cursor) then 0 else 1)
  }

  lemma InitWords(x: Words, sms: seq<Sm>, s: nat, w: nat, i: nat)
    requires Disjoint(sms) && s < |sms| && w < |sms[s].warps| && i in sms[s].warps[w]
    requires i < |x.pause| == |x.first| == |x.skip| && x.pause[i] == 1 && x.first[i] == 1 && x.skip[i] == 0
    requires forall j {:trigger Started(sms[j])} :: 0 <= j < |sms| ==> Started(sms[j])
    ensures StartWords(InitAll(x, sms, Starts(sms), |sms|), sms[s], w, i)
  {
    InitThread(x, sms, s, w, i);
    InitMarks(x, sms, Starts(sms), s, w, i);
  }

  lemma InitHolds(x: Words, sms: seq<Sm>)
    requires Disjoint(sms) && forall t :: 0 <= t < |x.pause| ==> x.pause[t] == 1
    requires forall i {:trigger sms[i]} :: 0 <= i < |sms| ==> Started(sms[i]) && SmOk(sms[i])
    ensures var st := State(InitAll(x, sms, Starts(sms), |sms|).pause, sms); Ok(st) && OnlyCurrentRuns(st)
  {
    forall s: nat | s < |sms| ensures RunsOnlyCurrent(InitAll(x, sms, Starts(sms), |sms|).pause, sms[s]) {
      InitStarts(x, sms, s);
    }
  }

  /** The flag of a thread of row w after a switch. */
  lemma SwitchCell(flags: seq<nat>, t: Tables, ws: seq<WarpStatus>, c: Cursor, timing: nat, w: nat, i: nat)
    requires InRange(c, |ws|) && timing > 0 && RunsOnlyCurrent(flags, View(t, ws, c, timing))
    requires w < |ws| && i < |flags| && InWarp(t, w, i)
    ensures SmOk(View(t, ws, c, timing))
    ensures var (c', found) := Switch(ws, c);
            var now := SwitchFlags(flags, View(t, ws, c, timing))[i];
            var resumed := found && InWarpOffBarrier(t, Current(c'), i);
            (now == 0 <==> resumed) && (w == Current(c) && !resumed ==> now == 1)
  {
    var m := View(t, ws, c, timing);
    ViewOk(t, ws, c, timing);
    MemberIff(t.threads, w, |t.threads|, i);
    SwitchRunsExactly(flags, m, w, i);
    SwitchMeaning(flags, m, i);
    RunnableIff(t, Current(Switch(ws, c).0), |t.threads|, i);
  }

  /** The call of switch2nextwarp. No warp that is not there is read. Afterwards exactly the
      threads of the found warp that are not at a barrier run on this SM. */
  method SwitchWarpOf(sms: seq<SM>, s: nat, tr: Trace) returns (found: bool)
    requires PhaseHolds(sms, tr) && s < |sms| && sms[s].timingWarps > 0
    modifies {sms[s]}`cursor, tr`view, tr.words
    ensures PhaseHolds(sms, tr) && Next(old(Now(sms, tr)), SwitchWarp(s), Now(sms, tr))
    ensures InRange(old(sms[s].cursor), |sms[s].warpStatus|)
    ensures (sms[s].cursor, found) == Switch(sms[s].warpStatus, old(sms[s].cursor))
    ensures forall w, i {:trigger InWarp(sms[s].tables, w, i)} ::
              0 <= w < |sms[s].warpStatus| && 0 <= i < tr.n && InWarp(sms[s].tables, w, i) ==>
              (tr.view.pause[i] == 0 <==> found && InWarpOffBarrier(sms[s].tables, Current(sms[s].cursor), i)) &&
              (w == Current(old(sms[s].cursor)) && tr.view.pause[i] != 0 ==> tr.view.pause[i] == 1)
  {
    ghost var a, x, c := Now(sms, tr), tr.view, sms[s].cursor;
    assert SmFit(sms[s], tr.n) && SmOk(a.sms[s]) && RunsOnlyCurrent(a.flags, a.sms[s]);
    SwitchedIsStep(x, sms[s].tables, sms[s].warpStatus, c, sms[s].timingWarps);
    var r := Switch2NextWarp(sms[s], tr);
    found := r.found;
    assert Views(sms) == a.sms[s := ViewOf(sms[s])];
    StepKeeps(a, SwitchWarp(s), Now(sms, tr));
    forall w: nat, i: nat | w < |sms[s].warpStatus| && i < tr.n && InWarp(sms[s].tables, w, i)
      ensures (tr.view.pause[i] == 0 <==> found && InWarpOffBarrier(sms[s].tables, Current(sms[s].cursor), i)) &&
              (w == Current(c) && tr.view.pause[i] != 0 ==> tr.view.pause[i] == 1)
    {
      SwitchCell(x.pause, sms[s].tables, sms[s].warpStatus, c, sms[s].timingWarps, w, i);
    }
  }

  /** The two writes that pause a thread of the current warp: at a barrier and at its end. */
  method PauseThreadOf(sms: seq<SM>, s: nat, pe: nat, tr: Trace)
    requires PhaseHolds(sms, tr) && s < |sms| && sms[s].timingWarps > 0
    requires ValidCell(sms[s].tables.threads, pe, Current(sms[s].cursor))
    modifies tr`view, tr.words
    ensures var t := sms[s].tables.threads[pe][Current(sms[s].cursor)];
            && PhaseHolds(sms, tr) && 0 <= t < tr.n && Next(old(Now(sms, tr)), Halt(s, t), Now(sms, tr))
            && tr.view == old(tr.view).(pause := old(tr.view).pause[t := 1])
  {
    ghost var a := Now(sms, tr);
    assert SmFit(sms[s], tr.n) && SmOk(a.sms[s]);
    var w := Current(sms[s].cursor);
    var t := sms[s].tables.threads[pe][w];
    assert CellOk(sms[s].tables, pe, w, tr.n);
    CurrentExists(a.sms[s]);
    MemberIff(sms[s].tables.threads, w, |sms[s].tables.threads|, t);
    tr.SetPause(t, 1);
    assert tr.view.pause == a.flags[t := 1];
    StepKeeps(a, Halt(s, t), Now(sms, tr));
  }

  /** The relaunch reset of an SM; one without timing warps is always off. */
  method RelaunchOf(sms: seq<SM>, s: nat, off: bool, tr: Trace)
    requires PhaseHolds(sms, tr) && s < |sms| && (sms[s].timingWarps == 0 ==> off)
    modifies {sms[s]}`tables, {sms[s]}`warpStatus
    ensures PhaseHolds(sms, tr)
    ensures off || sms[s].totalThreads == 0 ==>
              sms[s].tables == old(sms[s].tables) && sms[s].warpStatus == old(sms[s].warpStatus)
    ensures !off && sms[s].totalThreads > 0 ==>
              && Next(old(Now(sms, tr)), TimingPhase.Relaunch(s), Now(sms, tr))
              && var w := Current(sms[s].cursor);
                 && SameShape(old(sms[s].tables)) && sms[s].tables == ResetRow(old(sms[s].tables), w, sms[s].numSP)
                 && w < |old(sms[s].warpStatus)| && sms[s].warpStatus == old(sms[s].warpStatus)[w := TraceReady]
  {
    ghost var a := Now(sms, tr);
    var sm := sms[s];
    assert SmFit(sm, tr.n) && SmOk(a.sms[s]);
    if off || sm.totalThreads == 0 {
      return;
    }
    ghost var t, ws := sm.tables, sm.warpStatus;
    CurrentExists(a.sms[s]);
    ResetNextTimingBB(sm, off);
    ResetIsRelaunch(t, tr.n, ws, sm.cursor, sm.timingWarps);
    ResetKeepsTables(t, tr.n, Current(sm.cursor));
    assert Views(sms) == a.sms[s := ViewOf(sm)];
    StepKeeps(a, TimingPhase.Relaunch(s), Now(sms, tr));
  }

  lemma ResetKeepsTables(t: Tables, n: nat, w: nat)
    requires SameShape(t) && TablesOk(t, n)
    ensures TablesOk(ResetRow(t, w, |t.threads|), n)
  {
    var r := ResetRow(t, w, |t.threads|);
    forall p: nat, w': nat | p < |r.threads| && w' < |r.threads[p]| ensures CellOk(r, p, w', n) {
      assert CellOk(t, p, w', n);
    }
  }

  /** Any write to a thread's status that leaves padding padding. */
  method WriteThreadStatus(sms: seq<SM>, s: nat, pe: nat, w: nat, st: ThreadStatus, tr: Trace)
    requires PhaseHolds(sms, tr) && s < |sms| && sms[s].timingWarps > 0 && st != Invalid
    requires ValidCell(sms[s].tables.threads, pe, w)
    modifies {sms[s]}`tables
    ensures PhaseHolds(sms, tr)
    ensures Next(old(Now(sms, tr)), Statuses(s, ViewOf(sms[s]).runnable, ViewOf(sms[s]).status), Now(sms, tr))
    ensures var t := old(sms[s].tables);
            && pe < |t.status| && w < |t.status[pe]|
            && sms[s].tables == t.(status := t.status[pe := t.status[pe][w := st]])
  {
    ghost var a := Now(sms, tr);
    var sm := sms[s];
    assert SmFit(sm, tr.n) && SmOk(a.sms[s]);
    var t := sm.tables;
    assert CellOk(t, pe, w, tr.n);
    sm.tables := t.(status := t.status[pe := t.status[pe][w := st]]);
    StatusKeepsTables(t, tr.n, pe, w, st);
    StatusStep(a, s, tr.view.pause, Views(sms), ViewOf(sm));
  }

  lemma StatusKeepsTables(t: Tables, n: nat, pe: nat, w: nat, st: ThreadStatus)
    requires SameShape(t) && TablesOk(t, n) && ValidCell(t.threads, pe, w) && st != Invalid
    ensures var r := t.(status := t.status[pe := t.status[pe][w := st]]); TablesOk(r, n) && SameShape(r)
  {
    var r := t.(status := t.status[pe := t.status[pe][w := st]]);
    forall p: nat, w': nat | p < |r.threads| && w' < |r.threads[p]| ensures CellOk(r, p, w', n) {
      assert CellOk(t, p, w', n);
    }
  }

  /** Any write to a warp's state. */
  method WriteWarpStatus(sms: seq<SM>, s: nat, w: nat, st: WarpStatus, tr: Trace)
    requires PhaseHolds(sms, tr) && s < |sms| && sms[s].timingWarps > 0 && w < |sms[s].warpStatus|
    modifies {sms[s]}`warpStatus
    ensures PhaseHolds(sms, tr) && sms[s].warpStatus == old(sms[s].warpStatus)[w := st]
    ensures Next(old(Now(sms, tr)), Statuses(s, ViewOf(sms[s]).runnable, ViewOf(sms[s]).status), Now(sms, tr))
  {
    ghost var a := Now(sms, tr);
    var sm := sms[s];
    assert SmFit(sm, tr.n) && SmOk(a.sms[s]);
    sm.warpStatus := sm.warpStatus[w := st];
    StatusStep(a, s, tr.view.pause, Views(sms), ViewOf(sm));
  }

  lemma StatusStep(a: State, s: nat, flags: seq<nat>, views: seq<Sm>, m: Sm)
    requires Ok(a) && OnlyCurrentRuns(a) && s < |a.sms| && a.sms[s].timing > 0 && flags == a.flags
    requires m.warps == a.sms[s].warps && m.cursor == a.sms[s].cursor && m.timing == a.sms[s].timing && SmOk(m)
    requires |views| == |a.sms| && views[s] == m && forall i :: 0 <= i < |views| && i != s ==> views[i] == a.sms[i]
    ensures Ok(State(flags, views)) && OnlyCurrentRuns(State(flags, views))
    ensures Next(a, Statuses(s, m.runnable, m.status), State(flags, views))
  {
    assert SmOk(a.sms[s]);
    assert views == a.sms[s := m];
    StepKeeps(a, Statuses(s, m.runnable, m.status), State(flags, views));
  }

  // ----- scripts -----

  datatype Act =
    | DoSwitch(s: nat)
    | DoPause(s: nat, pe: nat)
    | DoRelaunch(s: nat, off: bool)
    | DoThreadStatus(s: nat, pe: nat, w: nat, st: ThreadStatus)
    | DoWarpStatus(s: nat, w: nat, ws: WarpStatus)

  /** An act is its step of the timing phase; one that has nothing to work on does nothing. */
  ghost predicate Follows(act: Act, a: State, b: State)
    requires Ok(a)
  {
    match act
    case DoSwitch(s) =>
      if s < |a.sms| && a.sms[s].timing > 0 then Next(a, SwitchWarp(s), b) else b == a
    case DoPause(s, _) => b == a || exists t :: Next(a, Halt(s, t), b)
    case DoRelaunch(s, off) => b == a || (!off && Next(a, TimingPhase.Relaunch(s), b))
    case DoThreadStatus(s, _, _, _) => b == a || StatusesOf(s, a, b)
    case DoWarpStatus(s, _, _) => b == a || StatusesOf(s, a, b)
  }

  ghost predicate StatusesOf(s: nat, a: State, b: State)
    requires Ok(a)
  {
    s < |b.sms| && Next(a, Statuses(s, b.sms[s].runnable, b.sms[s].status), b)
  }

  method Perform(sms: seq<SM>, tr: Trace, act: Act)
    requires PhaseHolds(sms, tr)
    modifies sms`cursor, sms`tables, sms`warpStatus, tr`view, tr.words
    ensures PhaseHolds(sms, tr) && Follows(act, old(Now(sms, tr)), Now(sms, tr))
  {
    if act.s >= |sms| || sms[act.s].timingWarps == 0 {
      return;
    }
    match act {
      case DoSwitch(s) =>
        var _ := SwitchWarpOf(sms, s, tr);
      case DoPause(s, pe) =>
        if ValidCell(sms[s].tables.threads, pe, Current(sms[s].cursor)) {
          PauseThreadOf(sms, s, pe, tr);
        }
      case DoRelaunch(s, off) =>
        RelaunchOf(sms, s, off, tr);
      case DoThreadStatus(s, pe, w, st) =>
        if st != Invalid && ValidCell(sms[s].tables.threads, pe, w) {
          WriteThreadStatus(sms, s, pe, w, st, tr);
        }
      case DoWarpStatus(s, w, ws) =>
        if w < |sms[s].warpStatus| {
          WriteWarpStatus(sms, s, w, ws, tr);
        }
    }
  }

  /** The states a script passes through. In each of them only current warps run, and each act has
      been carried out. */
  ghost predicate IsHistory(script: seq<Act>, ss: seq<State>) {
    && |ss| == |script| + 1
    && (forall i :: 0 <= i <= |script| ==> Ok(ss[i]) && OnlyCurrentRuns(ss[i]))
    && forall i :: 0 <= i < |script| ==> Follows(script[i], ss[i], ss[i + 1])
  }

  /** In it, a switch starts exactly the runnable threads of the warp it finds. */
  lemma HistorySwitches(script: seq<Act>, ss: seq<State>, i: nat, w: nat, t: nat)
    requires IsHistory(script, ss) && i < |script| && script[i].DoSwitch? && script[i].s < |ss[i].sms|
    requires var m := ss[i].sms[script[i].s]; m.timing > 0 && w < |m.warps| && t in m.warps[w] && t < |ss[i].flags|
    ensures var m := ss[i].sms[script[i].s];
            && SmOk(m)
            && var (c', found) := Switch(m.status, m.cursor);
               && t < |ss[i + 1].flags| && Current(c') < |m.warps|
               && (ss[i + 1].flags[t] == 0 <==> found && t in m.runnable[Current(c')])
  {
    var m := ss[i].sms[script[i].s];
    assert Follows(script[i], ss[i], ss[i + 1]) && SmOk(m) && RunsOnlyCurrent(ss[i].flags, m);
    SwitchRunsExactly(ss[i].flags, m, w, t);
  }

  /** A whole phase: init_trace, then any script. */
  method RunPhase(sms: seq<SM>, tr: Trace, maxSamplingThreads: int, script: seq<Act>) returns (ghost ss: seq<State>)
    requires tr.Sized() && Distribution.Distinct(sms) && Disjoint(Views(sms)) && maxSamplingThreads != 0
    requires forall s {:trigger Ready(sms[s], tr.n)} :: 0 <= s < |sms| ==> Ready(sms[s], tr.n)
    modifies sms`cursor, sms`tables, sms`warpStatus, tr`view, tr.words
    ensures PhaseHolds(sms, tr) && IsHistory(script, ss) && ss[|script|] == Now(sms, tr)
  {
    StartPhase(sms, tr, maxSamplingThreads);
    ss := [Now(sms, tr)];
    for i := 0 to |script|
      invariant PhaseHolds(sms, tr) && IsHistory(script[..i], ss) && ss[i] == Now(sms, tr)
    {
      Perform(sms, tr, script[i]);
      LongerHistory(script[..i], ss, script[i], Now(sms, tr));
      ss := ss + [Now(sms, tr)];
      assert script[..i] + [script[i]] == script[..i + 1];
    }
    assert script[..|script|] == script;
  }

  lemma LongerHistory(script: seq<Act>, ss: seq<State>, act: Act, b: State)
    requires IsHistory(script, ss) && Follows(act, ss[|script|], b) && Ok(b) && OnlyCurrentRuns(b)
    ensures IsHistory(script + [act], ss + [b])
  {
  }

  /** A launch fits: no warp of an SM is timed, or the condition under which no switch reads a
      warp that is not there. */
  ghost predicate LaunchFits(d: Distribution.Deal, j: nat, concWarps: nat, timings: seq<nat>)
    requires d.Ok() && d.Reached(j) && concWarps > 0 && |timings| == d.numSM
  {
    forall s :: 0 <= s < d.numSM ==> timings[s] == 0 || Fits(concWarps, |Distribution.Dealt(d, j, s)|, timings[s])
  }

  lemma OrganizedIsReady(d: Distribution.Deal, j: nat, sms: seq<SM>, concWarps: nat, timings: seq<nat>, s: nat)
    requires d.Ok() && d.Reached(j) && concWarps > 0 && |sms| == |timings| == d.numSM && s < |sms|
    requires LaunchFits(d, j, concWarps, timings)
    requires LaunchedTables.Organized(d, j, s, sms[s], concWarps, timings[s])
    ensures Ready(sms[s], d.n)
  {
    LaunchedTables.OrganizedIsLaunching(d, j, s, sms[s], concWarps, timings[s]);
  }

  /** From cleared SMs to any point of a timing phase: reOrganize, a new trace, init_trace, and
      any script of writes, switches and relaunches. */
  method LaunchAndRun(d: Distribution.Deal, sms: seq<SM>, concWarps: nat, maxWarps: nat, timings: seq<nat>, size: nat,
                      maxSamplingThreads: int, script: seq<Act>) returns (tr: Trace, ghost ss: seq<State>)
    requires d.Ok() && |sms| == d.numSM == |timings| && Distribution.Distinct(sms) && 0 < concWarps <= maxWarps
    requires forall s :: 0 <= s < |sms| ==> sms[s].numSP == d.numSP && Shows(sms[s].tables, d.numSP, [])
    requires forall s :: 0 <= s < |sms| ==> sms[s].totalThreads == 0 && sms[s].warpStatus == []
    requires forall j: nat :: Distribution.Done(d, j) ==> LaunchFits(d, j, concWarps, timings)
    requires size > RUN_AHEAD && maxSamplingThreads != 0
    modifies sms
    ensures tr.n == d.n && PhaseHolds(sms, tr) && IsHistory(script, ss) && ss[|script|] == Now(sms, tr)
  {
    ghost var j := LaunchedTables.ReOrganize(d, sms, concWarps, maxWarps, timings);
    forall s | 0 <= s < |sms| ensures Ready(sms[s], d.n) {
      OrganizedIsReady(d, j, sms, concWarps, timings, s);
    }
    LaunchedTables.LaunchedDisjoint(d, j, sms);
    tr := new Trace(size, d.n);
    ss := RunPhase(sms, tr, maxSamplingThreads, script);
  }
}
