/** Pause flags over a whole timing phase.

    The state is the pause flag of every thread and, per SM, the threads of each warp. A run
    starts after init_trace; its steps are the writes of Timing_Original (a thread of the current
    warp is paused; statuses change in any way), the relaunch reset and the warp switch. */
module TimingPhase {
  import opened WarpScheduler
  import opened TraceBuffer

  /** warps[w] are the threads in row w, runnable[w] those not paused on a barrier. */
  datatype Sm = Sm(warps: seq<set<int>>, runnable: seq<set<int>>, status: seq<WarpStatus>, cursor: Cursor, timing: nat)

  datatype State = State(flags: seq<nat>, sms: seq<Sm>)

  datatype Op =
    | Halt(s: nat, t: nat)
    | Statuses(s: nat, runnable: seq<set<int>>, status: seq<WarpStatus>)
    | Relaunch(s: nat)
    | SwitchWarp(s: nat)

  ghost predicate SmOk(m: Sm) {
    && |m.warps| == |m.runnable| == |m.status|
    && (forall w :: 0 <= w < |m.warps| ==> m.runnable[w] <= m.warps[w])
    && (m.timing > 0 ==> InRange(m.cursor, |m.status|))
  }

  /** No thread is in two rows of an SM. */
  ghost predicate RowsApart(m: Sm) {
    forall w, w', t :: 0 <= w < |m.warps| && 0 <= w' < |m.warps| && t in m.warps[w] && t in m.warps[w'] ==> w == w'
  }

  /** No thread is in two SMs. */
  ghost predicate SmsApart(m: Sm, m': Sm) {
    forall w, w', t :: 0 <= w < |m.warps| && 0 <= w' < |m'.warps| && t in m.warps[w] ==> t !in m'.warps[w']
  }

  ghost predicate Disjoint(sms: seq<Sm>) {
    && (forall s {:trigger RowsApart(sms[s])} :: 0 <= s < |sms| ==> RowsApart(sms[s]))
    && (forall s, s' {:trigger SmsApart(sms[s], sms[s'])} ::
          0 <= s < |sms| && 0 <= s' < |sms| && s != s' ==> SmsApart(sms[s], sms[s']))
  }

  ghost predicate Ok(st: State) {
    Disjoint(st.sms) && forall s {:trigger SmOk(st.sms[s])} :: 0 <= s < |st.sms| ==> SmOk(st.sms[s])
  }

  // ----- the switch -----

  lemma CurrentExists(m: Sm)
    requires SmOk(m) && m.timing > 0
    ensures Current(m.cursor) < |m.warps|
  {
    SetFits(m.cursor, |m.status|, m.cursor.id);
  }

  /** Flags after a switch: the old warp paused, the new one resumed but for barrier threads. */
  function SwitchFlags(flags: seq<nat>, m: Sm): (r: seq<nat>)
    requires SmOk(m) && m.timing > 0
    ensures |r| == |flags|
  {
    CurrentExists(m);
    var (c', found) := Switch(m.status, m.cursor);
    CurrentExists(m.(cursor := c'));
    var paused := Put(flags, m.warps[Current(m.cursor)], 1);
    if found then Put(paused, m.runnable[Current(c')], 0) else paused
  }

  /** A thread's flag changes only if it is in the old or the new warp. */
  lemma SwitchTouches(flags: seq<nat>, m: Sm, t: nat)
    requires SmOk(m) && m.timing > 0 && t < |flags|
    ensures var c' := Switch(m.status, m.cursor).0;
            Current(m.cursor) < |m.warps| && Current(c') < |m.warps| &&
            (SwitchFlags(flags, m)[t] != flags[t] ==> t in m.warps[Current(m.cursor)] + m.warps[Current(c')])
  {
    CurrentExists(m);
    CurrentExists(m.(cursor := Switch(m.status, m.cursor).0));
  }

  /** Every flag after a switch: the runnable threads of a warp that was found run, the rest of
      the old warp is paused, and nothing else changes. */
  lemma SwitchMeaning(flags: seq<nat>, m: Sm, t: nat)
    requires SmOk(m) && m.timing > 0 && t < |flags|
    ensures var (c', found) := Switch(m.status, m.cursor);
            Current(m.cursor) < |m.warps| && Current(c') < |m.warps| &&
            SwitchFlags(flags, m)[t] ==
              if found && t in m.runnable[Current(c')] then 0
              else if t in m.warps[Current(m.cursor)] then 1
              else flags[t]
  {
    CurrentExists(m);
    CurrentExists(m.(cursor := Switch(m.status, m.cursor).0));
  }

  // ----- steps -----

  ghost predicate Next(a: State, op: Op, b: State)
    requires Ok(a)
  {
    && op.s < |a.sms| && a.sms[op.s].timing > 0
    && var m := a.sms[op.s];
       CurrentExists(m);
       var w := Current(m.cursor);
       match op
       case Halt(s, t) => t in m.warps[w] && t < |a.flags| && b == State(a.flags[t := 1], a.sms)
       case Statuses(s, run, st) =>
         SmOk(m.(runnable := run, status := st)) && b == State(a.flags, a.sms[s := m.(runnable := run, status := st)])
       case Relaunch(s) =>
         b == State(a.flags, a.sms[s := m.(runnable := m.runnable[w := m.warps[w]], status := m.status[w := TraceReady])])
       case SwitchWarp(s) =>
         b == State(SwitchFlags(a.flags, m), a.sms[s := m.(cursor := Switch(m.status, m.cursor).0)])
  }

  /** The invariant: whoever is not paused is in the current warp of an SM with timing warps. */
  ghost predicate RunsOnlyCurrent(flags: seq<nat>, m: Sm) {
    forall w, t {:trigger Runs(flags, m, w, t)} :: Runs(flags, m, w, t) ==> StartsWith(m, w)
  }

  /** Thread t of row w is not paused. */
  ghost predicate Runs(flags: seq<nat>, m: Sm, w: int, t: int) {
    0 <= w < |m.warps| && t in m.warps[w] && 0 <= t < |flags| && flags[t] == 0
  }

  /** Row w is the current warp of an SM with timing warps. */
  ghost predicate StartsWith(m: Sm, w: int) {
    m.timing > 0 && w == Current(m.cursor)
  }

  ghost predicate OnlyCurrentRuns(st: State) {
    forall s :: 0 <= s < |st.sms| ==> RunsOnlyCurrent(st.flags, st.sms[s])
  }

  lemma SwitchedSm(flags: seq<nat>, m: Sm)
    requires SmOk(m) && m.timing > 0 && RunsOnlyCurrent(flags, m) && RowsApart(m)
    ensures RunsOnlyCurrent(SwitchFlags(flags, m), m.(cursor := Switch(m.status, m.cursor).0))
  {
    var c' := Switch(m.status, m.cursor).0;
    CurrentExists(m);
    CurrentExists(m.(cursor := c'));
    var flags' := SwitchFlags(flags, m);
    forall w, t | Runs(flags', m.(cursor := c'), w, t) ensures w == Current(c') {
      assert m.runnable[Current(c')] <= m.warps[Current(c')];
      assert flags[t] == 0 ==> Runs(flags, m, w, t);
    }
  }

  /** Where only the current warp ran before, exactly the runnable threads of the new warp run
      afterwards; none if no warp was found. */
  lemma SwitchRunsExactly(flags: seq<nat>, m: Sm, w: nat, t: nat)
    requires SmOk(m) && m.timing > 0 && RunsOnlyCurrent(flags, m)
    requires w < |m.warps| && t in m.warps[w] && t < |flags|
    ensures var (c', found) := Switch(m.status, m.cursor);
            Current(c') < |m.warps| && (SwitchFlags(flags, m)[t] == 0 <==> found && t in m.runnable[Current(c')])
  {
    SwitchMeaning(flags, m, t);
    if t !in m.warps[Current(m.cursor)] {
      assert !Runs(flags, m, w, t);
    }
  }

  /** Another SM's threads are in none of the touched warps. */
  lemma OtherSm(flags: seq<nat>, m: Sm, other: Sm)
    requires SmOk(m) && m.timing > 0 && RunsOnlyCurrent(flags, other) && SmsApart(m, other)
    ensures RunsOnlyCurrent(SwitchFlags(flags, m), other)
  {
    var c' := Switch(m.status, m.cursor).0;
    CurrentExists(m);
    CurrentExists(m.(cursor := c'));
    var flags' := SwitchFlags(flags, m);
    forall w, t | Runs(flags', other, w, t) ensures StartsWith(other, w) {
      assert t !in m.warps[Current(m.cursor)] && t !in m.warps[Current(c')];
      assert m.runnable[Current(c')] <= m.warps[Current(c')];
      assert Runs(flags, other, w, t);
    }
  }

  lemma DisjointAgain(sms: seq<Sm>, s: nat, m: Sm)
    requires Disjoint(sms) && s < |sms| && m.warps == sms[s].warps
    ensures Disjoint(sms[s := m])
  {
    var sms' := sms[s := m];
    forall i | 0 <= i < |sms| ensures RowsApart(sms'[i]) {
      assert RowsApart(sms[i]);
    }
    forall i, i' | 0 <= i < |sms| && 0 <= i' < |sms| && i != i' ensures SmsApart(sms'[i], sms'[i']) {
      assert SmsApart(sms[i], sms[i']);
    }
  }

  lemma StepOk(a: State, op: Op, b: State)
    requires Ok(a) && Next(a, op, b)
    ensures Ok(b) && |b.sms| == |a.sms| && |b.flags| == |a.flags|
    ensures forall s :: 0 <= s < |a.sms| ==> b.sms[s].warps == a.sms[s].warps && b.sms[s].timing == a.sms[s].timing
  {
    var m := a.sms[op.s];
    CurrentExists(m);
    assert SmOk(b.sms[op.s]);
    DisjointAgain(a.sms, op.s, b.sms[op.s]);
    assert a.sms[op.s := b.sms[op.s]] == b.sms;
    forall s | 0 <= s < |a.sms| ensures SmOk(b.sms[s]) {
      assert SmOk(a.sms[s]);
    }
  }

  lemma SwitchKeeps(a: State, op: Op, b: State, s: nat)
    requires Ok(a) && OnlyCurrentRuns(a) && op.SwitchWarp? && Next(a, op, b) && s < |a.sms|
    ensures RunsOnlyCurrent(b.flags, b.sms[s])
  {
    var m := a.sms[op.s];
    assert SmOk(m) && RowsApart(m) && RunsOnlyCurrent(a.flags, a.sms[s]);
    if s == op.s {
      SwitchedSm(a.flags, m);
    } else {
      assert SmsApart(m, a.sms[s]);
      OtherSm(a.flags, m, a.sms[s]);
    }
  }

  /** Pausing threads and changing statuses leaves only the current warp running. */
  lemma FewerRun(flags: seq<nat>, m: Sm, flags': seq<nat>, m': Sm)
    requires RunsOnlyCurrent(flags, m) && m'.warps == m.warps && m'.cursor == m.cursor && m'.timing == m.timing
    requires |flags'| == |flags| && forall t :: 0 <= t < |flags| && flags'[t] == 0 ==> flags[t] == 0
    ensures RunsOnlyCurrent(flags', m')
  {
    forall w, t | Runs(flags', m', w, t) ensures StartsWith(m', w) {
      assert Runs(flags, m, w, t);
    }
  }

  lemma StepKeeps(a: State, op: Op, b: State)
    requires Ok(a) && OnlyCurrentRuns(a) && Next(a, op, b)
    ensures Ok(b) && OnlyCurrentRuns(b)
  {
    StepOk(a, op, b);
    forall s: nat | s < |a.sms| ensures RunsOnlyCurrent(b.flags, b.sms[s]) {
      assert RunsOnlyCurrent(a.flags, a.sms[s]);
      if op.SwitchWarp? {
        SwitchKeeps(a, op, b, s);
      } else {
        FewerRun(a.flags, a.sms[s], b.flags, b.sms[s]);
      }
    }
  }

  // ----- runs -----

  ghost predicate IsRun(ops: seq<Op>, ss: seq<State>) {
    && |ss| == |ops| + 1
    && forall i :: 0 <= i < |ops| ==> Ok(ss[i]) && Next(ss[i], ops[i], ss[i + 1])
  }

  /** After any number of writes, switches and relaunches, every unpaused thread of an SM is in
      that SM's current warp. */
  lemma {:induction false} EveryState(ops: seq<Op>, ss: seq<State>, i: nat)
    requires IsRun(ops, ss) && i < |ss| && Ok(ss[0]) && OnlyCurrentRuns(ss[0])
    ensures Ok(ss[i]) && OnlyCurrentRuns(ss[i])
  {
    if i > 0 {
      EveryState(ops, ss, i - 1);
      StepKeeps(ss[i - 1], ops[i - 1], ss[i]);
    }
  }

  /** So in every run of writes, switches and relaunches a switch that finds a warp starts exactly
      its runnable threads, and one that finds none leaves its SM without a running thread. */
  lemma EverySwitchStarts(ops: seq<Op>, ss: seq<State>, i: nat, w: nat, t: nat)
    requires IsRun(ops, ss) && i < |ops| && ops[i].SwitchWarp? && Ok(ss[0]) && OnlyCurrentRuns(ss[0])
    requires ops[i].s < |ss[i].sms| && w < |ss[i].sms[ops[i].s].warps| && t in ss[i].sms[ops[i].s].warps[w]
    requires t < |ss[i].flags|
    ensures var m := ss[i].sms[ops[i].s];
            && SmOk(m) && m.timing > 0
            && var (c', found) := Switch(m.status, m.cursor);
               && ops[i].s < |ss[i + 1].sms| && ss[i + 1].sms[ops[i].s] == m.(cursor := c')
               && t < |ss[i + 1].flags| && Current(c') < |m.warps|
               && (ss[i + 1].flags[t] == 0 <==> found && t in m.runnable[Current(c')])
  {
    EveryState(ops, ss, i);
    assert Next(ss[i], ops[i], ss[i + 1]);
    var m := ss[i].sms[ops[i].s];
    assert SmOk(m);
    SwitchRunsExactly(ss[i].flags, m, w, t);
  }

  // ----- before and after -----

  /** The threads of rows lo .. hi - 1. */
  ghost function Rows(m: Sm, lo: nat, hi: nat): set<int>
    requires hi <= |m.warps|
  {
    set w, t | lo <= w < hi && t in m.warps[w] :: t
  }

  /** One SM's part of init_trace: the threads it starts with run, the rows beyond the timing
      warps are paused as rabbits. */
  ghost function InitSm(x: Words, m: Sm, start: set<int>): Words {
    Marking(Marking(x, start, false, 0), Rows(m, m.timing, |m.warps|), true, 1)
  }

  /** The threads of the warp an SM starts with; none without timing warps. */
  ghost function StartThreads(m: Sm): set<int> {
    if m.timing > 0 && Current(m.cursor) < |m.warps| then m.warps[Current(m.cursor)] else {}
  }

  /** The warp an SM starts with is one of its timing warps. */
  ghost predicate Started(m: Sm) {
    m.timing > 0 ==> Current(m.cursor) < m.timing && Current(m.cursor) < |m.warps|
  }

  function Timed(m: Sm): nat {
    if m.timing < |m.warps| then m.timing else |m.warps|
  }

  /** One SM's part of reset_nextRabbitBB: timing warps paused, the others released. */
  ghost function RabbitSm(x: Words, m: Sm): Words {
    Releasing(Pausing(x, Rows(m, 0, Timed(m)), 1), Rows(m, Timed(m), |m.warps|))
  }

  ghost function InitAll(x: Words, sms: seq<Sm>, starts: seq<set<int>>, k: nat): (r: Words)
    requires k <= |sms| == |starts|
    ensures |r.pause| == |x.pause|
  {
    if k == 0 then x else InitSm(InitAll(x, sms, starts, k - 1), sms[k - 1], starts[k - 1])
  }

  /** What init_trace does to the pause flags alone. */
  ghost function InitFlags(flags: seq<nat>, m: Sm, start: set<int>): (r: seq<nat>)
    ensures |r| == |flags|
  {
    Put(Put(flags, start, 0), Rows(m, m.timing, |m.warps|), 1)
  }

  ghost function InitAllFlags(flags: seq<nat>, sms: seq<Sm>, starts: seq<set<int>>, k: nat): (r: seq<nat>)
    requires k <= |sms| == |starts|
    ensures |r| == |flags|
  {
    if k == 0 then flags else InitFlags(InitAllFlags(flags, sms, starts, k - 1), sms[k - 1], starts[k - 1])
  }

  lemma {:induction false} InitAllPauses(x: Words, sms: seq<Sm>, starts: seq<set<int>>, k: nat)
    requires k <= |sms| == |starts|
    ensures InitAll(x, sms, starts, k).pause == InitAllFlags(x.pause, sms, starts, k)
  {
    if k > 0 {
      InitAllPauses(x, sms, starts, k - 1);
    }
  }

  ghost function Starts(sms: seq<Sm>): (v: seq<set<int>>)
    ensures |v| == |sms|
  {
    seq(|sms|, s requires 0 <= s < |sms| => StartThreads(sms[s]))
  }

  ghost function RabbitAll(x: Words, sms: seq<Sm>, k: nat): (r: Words)
    requires k <= |sms|
    ensures |r.pause| == |x.pause|
  {
    if k == 0 then x else RabbitSm(RabbitAll(x, sms, k - 1), sms[k - 1])
  }

  /** The threads an SM starts with are its own, and none of its rabbits. */
  ghost predicate StartOk(m: Sm, start: set<int>) {
    forall t :: t in start ==> InSm(m, t) && t !in Rows(m, m.timing, |m.warps|)
  }

  ghost predicate InSm(m: Sm, t: int) {
    exists w :: 0 <= w < |m.warps| && t in m.warps[w]
  }

  /** The three fields reset_nextRabbitBB writes, for thread t. */
  ghost predicate HasFields(x: Words, t: nat) {
    t < |x.pause| && t < |x.skip| && t < |x.ahead|
  }

  lemma RabbitOwn(x: Words, m: Sm, w: nat, t: nat)
    requires w < |m.warps| && t in m.warps[w] && HasFields(x, t)
    requires RowsApart(m)
    ensures var y := RabbitSm(x, m);
            && y.pause[t] == (if w < m.timing then 1 else 0)
            && y.skip[t] == (if w < m.timing then x.skip[t] else 32767)
            && y.ahead[t] == (if w < m.timing then x.ahead[t] else 0)
  {
    if w < m.timing {
      assert t !in Rows(m, Timed(m), |m.warps|);
    }
  }

  lemma RabbitOther(x: Words, m: Sm, t: nat)
    requires HasFields(x, t) && !InSm(m, t)
    ensures var y := RabbitSm(x, m);
            HasFields(y, t) && y.pause[t] == x.pause[t] && y.skip[t] == x.skip[t] && y.ahead[t] == x.ahead[t]
  {
  }

  lemma {:induction false} RabbitNotYet(x: Words, sms: seq<Sm>, k: nat, s: nat, t: nat)
    requires k <= s < |sms| && Disjoint(sms) && InSm(sms[s], t) && HasFields(x, t)
    ensures var y := RabbitAll(x, sms, k); HasFields(y, t) && y.skip[t] == x.skip[t] && y.ahead[t] == x.ahead[t]
  {
    if k > 0 {
      RabbitNotYet(x, sms, k - 1, s, t);
      NotElsewhere(sms, s, t, k - 1);
      RabbitOther(RabbitAll(x, sms, k - 1), sms[k - 1], t);
    }
  }

  lemma NotElsewhere(sms: seq<Sm>, s: nat, t: int, s': nat)
    requires Disjoint(sms) && s < |sms| && s' < |sms| && s != s' && InSm(sms[s], t)
    ensures !InSm(sms[s'], t)
  {
    assert SmsApart(sms[s], sms[s']);
  }

  lemma InitOwn(flags: seq<nat>, m: Sm, start: set<int>, t: nat)
    requires StartOk(m, start) && InSm(m, t) && t < |flags| && flags[t] == 1
    ensures InitFlags(flags, m, start)[t] == if t in start then 0 else 1
  {
  }

  lemma InitOther(flags: seq<nat>, m: Sm, start: set<int>, t: nat)
    requires StartOk(m, start) && !InSm(m, t) && t < |flags|
    ensures InitFlags(flags, m, start)[t] == flags[t]
  {
  }

  ghost predicate StartsOk(sms: seq<Sm>, starts: seq<set<int>>) {
    |sms| == |starts| &&
    forall i {:trigger StartOk(sms[i], starts[i])} :: 0 <= i < |sms| ==> StartOk(sms[i], starts[i])
  }

  lemma {:induction false} InitNotYet(flags: seq<nat>, sms: seq<Sm>, starts: seq<set<int>>, k: nat, s: nat, t: nat)
    requires k <= s < |sms| && Disjoint(sms) && InSm(sms[s], t) && StartsOk(sms, starts) && t < |flags|
    ensures InitAllFlags(flags, sms, starts, k)[t] == flags[t]
  {
    if k > 0 {
      InitNotYet(flags, sms, starts, k - 1, s, t);
      InitElsewhere(InitAllFlags(flags, sms, starts, k - 1), sms, starts, k - 1, s, t);
    }
  }

  lemma InitElsewhere(flags: seq<nat>, sms: seq<Sm>, starts: seq<set<int>>, k: nat, s: nat, t: nat)
    requires k < |sms| && s < |sms| && k != s && Disjoint(sms) && InSm(sms[s], t) && StartsOk(sms, starts) && t < |flags|
    ensures InitFlags(flags, sms[k], starts[k])[t] == flags[t]
  {
    NotElsewhere(sms, s, t, k);
    assert StartOk(sms[k], starts[k]);
    InitOther(flags, sms[k], starts[k], t);
  }

  /** After k SMs have done their part, exactly the threads those start with run. */
  lemma {:induction false} InitMeaning(flags: seq<nat>, sms: seq<Sm>, starts: seq<set<int>>, k: nat, s: nat, t: nat)
    requires s < k <= |sms| && Disjoint(sms) && InSm(sms[s], t) && StartsOk(sms, starts)
    requires t < |flags| && flags[t] == 1
    ensures InitAllFlags(flags, sms, starts, k)[t] == if t in starts[s] then 0 else 1
  {
    if s == k - 1 {
      assert StartOk(sms[s], starts[s]);
      InitNotYet(flags, sms, starts, k - 1, s, t);
      InitOwn(InitAllFlags(flags, sms, starts, k - 1), sms[s], starts[s], t);
    } else {
      InitMeaning(flags, sms, starts, k - 1, s, t);
      InitElsewhere(InitAllFlags(flags, sms, starts, k - 1), sms, starts, k - 1, s, t);
    }
  }

  lemma StartIsOk(m: Sm)
    requires RowsApart(m) && Started(m)
    ensures StartOk(m, StartThreads(m))
  {
  }

  /** After init_trace a thread runs exactly if it is in its SM's current warp and that SM has
      timing warps. */
  lemma InitThread(x: Words, sms: seq<Sm>, s: nat, w: nat, t: nat)
    requires Disjoint(sms) && s < |sms| && w < |sms[s].warps| && t in sms[s].warps[w] && t < |x.pause| && x.pause[t] == 1
    requires forall i {:trigger Started(sms[i])} :: 0 <= i < |sms| ==> Started(sms[i])
    ensures InitAll(x, sms, Starts(sms), |sms|).pause[t] == if StartsWith(sms[s], w) then 0 else 1
  {
    forall i | 0 <= i < |sms| ensures StartOk(sms[i], Starts(sms)[i]) {
      assert RowsApart(sms[i]) && Started(sms[i]);
      StartIsOk(sms[i]);
    }
    InitMeaning(x.pause, sms, Starts(sms), |sms|, s, t);
    InitAllPauses(x, sms, Starts(sms), |sms|);
    assert RowsApart(sms[s]) && Started(sms[s]);
    StartIffCurrent(sms[s], w, t);
  }

  /** What init_trace does to the skip counts alone. */
  ghost function InitAllSkips(skip: seq<nat>, sms: seq<Sm>, k: nat): (r: seq<nat>)
    requires k <= |sms|
    ensures |r| == |skip|
  {
    if k == 0 then skip else Put(InitAllSkips(skip, sms, k - 1), Rows(sms[k - 1], sms[k - 1].timing, |sms[k - 1].warps|), 32760)
  }

  lemma {:induction false} InitAllMarks(x: Words, sms: seq<Sm>, starts: seq<set<int>>, k: nat)
    requires k <= |sms| == |starts|
    ensures InitAll(x, sms, starts, k).skip == InitAllSkips(x.skip, sms, k)
    ensures |InitAll(x, sms, starts, k).first| == |x.first|
    ensures forall t :: 0 <= t < |x.first| && x.first[t] == 1 ==> InitAll(x, sms, starts, k).first[t] == 1
  {
    if k > 0 {
      InitAllMarks(x, sms, starts, k - 1);
    }
  }

  lemma {:induction false} SkipNotYet(skip: seq<nat>, sms: seq<Sm>, k: nat, s: nat, t: nat)
    requires k <= s < |sms| && Disjoint(sms) && InSm(sms[s], t) && t < |skip|
    ensures InitAllSkips(skip, sms, k)[t] == skip[t]
  {
    if k > 0 {
      SkipNotYet(skip, sms, k - 1, s, t);
      NoRabbitElsewhere(sms, s, t, k - 1);
    }
  }

  lemma NoRabbitElsewhere(sms: seq<Sm>, s: nat, t: int, s': nat)
    requires Disjoint(sms) && s < |sms| && s' < |sms| && s != s' && InSm(sms[s], t)
    ensures t !in Rows(sms[s'], sms[s'].timing, |sms[s'].warps|)
  {
    NotElsewhere(sms, s, t, s');
  }

  lemma RabbitIff(m: Sm, w: nat, t: int)
    requires RowsApart(m) && w < |m.warps| && t in m.warps[w]
    ensures t in Rows(m, m.timing, |m.warps|) <==> w >= m.timing
  {
  }

  lemma {:induction false} SkipMeaning(skip: seq<nat>, sms: seq<Sm>, k: nat, s: nat, w: nat, t: nat)
    requires s < k <= |sms| && Disjoint(sms) && w < |sms[s].warps| && t in sms[s].warps[w] && t < |skip|
    ensures InitAllSkips(skip, sms, k)[t] == if w < sms[s].timing then skip[t] else 32760
  {
    if s == k - 1 {
      assert RowsApart(sms[s]);
      RabbitIff(sms[s], w, t);
      SkipNotYet(skip, sms, k - 1, s, t);
    } else {
      SkipMeaning(skip, sms, k - 1, s, w, t);
      NoRabbitElsewhere(sms, s, t, k - 1);
    }
  }

  /** After init_trace every thread starts at its first basic block, and exactly the threads
      beyond the timing warps have the skip count of a rabbit. */
  lemma InitMarks(x: Words, sms: seq<Sm>, starts: seq<set<int>>, s: nat, w: nat, t: nat)
    requires s < |sms| == |starts| && Disjoint(sms) && w < |sms[s].warps| && t in sms[s].warps[w]
    requires t < |x.first| && t < |x.skip| && x.first[t] == 1
    ensures var y := InitAll(x, sms, starts, |sms|);
            |y.first| == |x.first| && y.first[t] == 1 &&
            |y.skip| == |x.skip| && y.skip[t] == if w < sms[s].timing then x.skip[t] else 32760
  {
    InitAllMarks(x, sms, starts, |sms|);
    SkipMeaning(x.skip, sms, |sms|, s, w, t);
  }

  lemma StartIffCurrent(m: Sm, w: nat, t: int)
    requires RowsApart(m) && Started(m) && w < |m.warps| && t in m.warps[w]
    ensures t in StartThreads(m) <==> StartsWith(m, w)
  {
  }

  /** ... so a run may start there. */
  lemma InitStarts(x: Words, sms: seq<Sm>, s: nat)
    requires Disjoint(sms) && s < |sms| && forall t :: 0 <= t < |x.pause| ==> x.pause[t] == 1
    requires forall i {:trigger Started(sms[i])} :: 0 <= i < |sms| ==> Started(sms[i])
    ensures RunsOnlyCurrent(InitAll(x, sms, Starts(sms), |sms|).pause, sms[s])
  {
    var flags := InitAll(x, sms, Starts(sms), |sms|).pause;
    forall w, t | Runs(flags, sms[s], w, t) ensures StartsWith(sms[s], w) {
      InitThread(x, sms, s, w, t);
    }
  }

  /** The whole timing phase: from the flags init_trace leaves, through any writes, switches and
      relaunches, every unpaused thread is in its SM's current warp. */
  lemma WholePhase(x: Words, ops: seq<Op>, ss: seq<State>, i: nat)
    requires IsRun(ops, ss) && i < |ss| && Ok(ss[0]) && forall t :: 0 <= t < |x.pause| ==> x.pause[t] == 1
    requires forall s {:trigger Started(ss[0].sms[s])} :: 0 <= s < |ss[0].sms| ==> Started(ss[0].sms[s])
    requires ss[0].flags == InitAll(x, ss[0].sms, Starts(ss[0].sms), |ss[0].sms|).pause
    ensures Ok(ss[i]) && OnlyCurrentRuns(ss[i])
  {
    var sms := ss[0].sms;
    forall s: nat | s < |sms| ensures RunsOnlyCurrent(ss[0].flags, sms[s]) {
      InitStarts(x, sms, s);
    }
    EveryState(ops, ss, i);
  }

  /** After reset_nextRabbitBB a thread is paused exactly if its row is one of the timing warps;
      any other is released with a skip count of 32767 and nothing run ahead. */
  lemma {:induction false} RabbitMeaning(x: Words, sms: seq<Sm>, k: nat, s: nat, w: nat, t: nat)
    requires s < k <= |sms| && Disjoint(sms) && w < |sms[s].warps| && t in sms[s].warps[w] && HasFields(x, t)
    ensures var y := RabbitAll(x, sms, k);
            && HasFields(y, t) && y.pause[t] == (if w < sms[s].timing then 1 else 0)
            && y.skip[t] == (if w < sms[s].timing then x.skip[t] else 32767)
            && y.ahead[t] == (if w < sms[s].timing then x.ahead[t] else 0)
  {
    if s == k - 1 {
      assert RowsApart(sms[s]);
      RabbitNotYet(x, sms, k - 1, s, t);
      RabbitOwn(RabbitAll(x, sms, k - 1), sms[s], w, t);
    } else {
      RabbitMeaning(x, sms, k - 1, s, w, t);
      NotElsewhere(sms, s, t, k - 1);
      RabbitOther(RabbitAll(x, sms, k - 1), sms[k - 1], t);
    }
  }
}
