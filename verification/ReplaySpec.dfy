/** The replay protocol on values.

    `Queue` is what the ring of EmuDInstQueue stands for: the instructions `tail` has not
    stepped over, how many of them `head` has passed, and the drop counter. `QueueStep`
    moves it the way the code does, through the counter alone.

    `Pipeline` is the intent: it knows which popped instructions are still in flight and
    which of those a replay has killed. A release retires the instruction it names unless
    that instruction was killed. The lemmas show, over every legal run, that the counter
    implements the intent. */
module ReplaySpec {

  datatype Queue<T> = Queue(contents: seq<T>, h: nat, ndrop: nat)

  datatype Op<T> = Add(x: T) | Pop | Release | Replay(clones: seq<T>)

  function QueueStep<T>(q: Queue<T>, op: Op<T>): Queue<T> {
    match op
    case Add(x) => q.(contents := q.contents + [x])
    case Pop => q.(h := q.h + 1)
    case Release =>
      if q.ndrop > 0 then q.(ndrop := q.ndrop - 1)
      else if q.contents == [] then q
      else Queue(q.contents[1..], if q.h > 0 then q.h - 1 else 0, 0)
    case Replay(clones) =>
      if q.h <= |q.contents| then Queue(clones + q.contents[q.h..], 0, q.ndrop + q.h) else q
  }

  /** What advanceTail returns in state q. */
  predicate ReleaseAccepted<T>(q: Queue<T>) {
    q.ndrop > 0 || q.contents != []
  }

  // ----- the intended behaviour -----

  datatype Flight<T> = Flight(inst: T, killed: bool)

  datatype Pipeline<T> = Pipeline(
    pending: seq<T>,         // added and not retired, each as its current copy
    issued: nat,             // how many of them have been popped since the last replay
    flights: seq<Flight<T>>, // popped and not released, oldest first
    retired: seq<T>,
    added: seq<T>)

  function Kill<T>(fs: seq<Flight<T>>): (r: seq<Flight<T>>)
    ensures |r| == |fs|
    ensures forall i :: 0 <= i < |fs| ==> r[i] == Flight(fs[i].inst, true)
  {
    seq(|fs|, i requires 0 <= i < |fs| => Flight(fs[i].inst, true))
  }

  /** What the processor may do next. A replay supplies one clone per rewound instruction,
      carrying that instruction's ID. */
  ghost predicate Legal<T>(id: T -> nat, p: Pipeline<T>, op: Op<T>) {
    match op
    case Add(_) => true
    case Pop => p.issued < |p.pending|
    case Release => p.flights != []
    case Replay(clones) =>
      |clones| == p.issued <= |p.pending| &&
      forall i :: 0 <= i < p.issued ==> id(clones[i]) == id(p.pending[i])
  }

  function PipelineStep<T>(p: Pipeline<T>, op: Op<T>): Pipeline<T> {
    match op
    case Add(x) => p.(pending := p.pending + [x], added := p.added + [x])
    case Pop =>
      if p.issued < |p.pending|
      then p.(issued := p.issued + 1, flights := p.flights + [Flight(p.pending[p.issued], false)])
      else p
    case Release =>
      if p.flights == [] then p
      else if p.flights[0].killed || p.pending == [] || p.issued == 0 then p.(flights := p.flights[1..])
      else p.(flights := p.flights[1..], retired := p.retired + [p.flights[0].inst],
              pending := p.pending[1..], issued := p.issued - 1)
    case Replay(clones) =>
      if p.issued <= |p.pending|
      then p.(pending := clones + p.pending[p.issued..], issued := 0, flights := Kill(p.flights))
      else p
  }

  // ----- runs -----

  datatype State<T> = State(q: Queue<T>, p: Pipeline<T>)

  function Init<T>(): State<T> {
    State(Queue([], 0, 0), Pipeline([], 0, [], [], []))
  }

  ghost predicate Next<T>(id: T -> nat, s: State<T>, op: Op<T>, s': State<T>) {
    Legal(id, s.p, op) && s' == State(QueueStep(s.q, op), PipelineStep(s.p, op))
  }

  /** `ss` lists the states that the operations `ops` pass through. */
  ghost predicate IsRun<T>(id: T -> nat, ops: seq<Op<T>>, ss: seq<State<T>>) {
    && |ss| == |ops| + 1
    && ss[0] == Init()
    && forall i :: 0 <= i < |ops| ==> Next(id, ss[i], ops[i], ss[i + 1])
  }

  lemma Extend<T>(id: T -> nat, ops: seq<Op<T>>, ss: seq<State<T>>, op: Op<T>, s: State<T>)
    requires IsRun(id, ops, ss) && Next(id, ss[|ops|], op, s)
    ensures IsRun(id, ops + [op], ss + [s])
  {
  }

  function Ids<T>(id: T -> nat, s: seq<T>): (r: seq<nat>)
    ensures |r| == |s| && forall i :: 0 <= i < |s| ==> r[i] == id(s[i])
  {
    seq(|s|, i requires 0 <= i < |s| => id(s[i]))
  }

  /** The instructions the operations add, in order. */
  function Adds<T>(ops: seq<Op<T>>): seq<T> {
    if ops == [] then []
    else Adds(ops[..|ops| - 1]) + if ops[|ops| - 1].Add? then [ops[|ops| - 1].x] else []
  }

  /** No instruction is taken in but by an Add, and every Add takes in its own. */
  lemma {:induction false} AddedAreAdds<T>(id: T -> nat, ops: seq<Op<T>>, ss: seq<State<T>>, n: nat)
    requires IsRun(id, ops, ss) && n <= |ops|
    ensures ss[n].p.added == Adds(ops[..n])
  {
    if n > 0 {
      AddedAreAdds(id, ops, ss, n - 1);
      assert Next(id, ss[n - 1], ops[n - 1], ss[n]);
      assert ops[..n][..n - 1] == ops[..n - 1];
    }
  }

  // ----- the counter implements the intent -----

  /** The killed flights are the `ndrop` oldest; the others are the popped part of the queue. */
  ghost predicate Simulates<T>(q: Queue<T>, p: Pipeline<T>) {
    && q.contents == p.pending
    && q.h == p.issued <= |p.pending|
    && |p.flights| == q.ndrop + q.h
    && (forall i :: 0 <= i < q.ndrop ==> p.flights[i].killed)
    && (forall i :: q.ndrop <= i < |p.flights| ==> p.flights[i] == Flight(p.pending[i - q.ndrop], false))
  }

  lemma StepSimulates<T>(id: T -> nat, q: Queue<T>, p: Pipeline<T>, op: Op<T>)
    requires Simulates(q, p) && Legal(id, p, op)
    ensures Simulates(QueueStep(q, op), PipelineStep(p, op))
  {
    match op
    case Add(x) =>
    case Pop =>
    case Release =>
      if q.ndrop == 0 {
        assert p.flights[0] == Flight(p.pending[0], false);
      }
    case Replay(clones) =>
  }

  lemma {:induction false} StepKeepsIds<T>(id: T -> nat, q: Queue<T>, p: Pipeline<T>, op: Op<T>)
    requires Simulates(q, p) && Legal(id, p, op)
    requires Ids(id, p.retired + p.pending) == Ids(id, p.added)
    ensures var p' := PipelineStep(p, op);
            Ids(id, p'.retired + p'.pending) == Ids(id, p'.added)
  {
    var p' := PipelineStep(p, op);
    match op
    case Add(x) =>
      assert p'.retired + p'.pending == (p.retired + p.pending) + [x];
      assert |p.retired + p.pending| == |p.added|;
      forall i | 0 <= i < |p.added| ensures id((p.retired + p.pending)[i]) == id(p.added[i]) {
        assert Ids(id, p.retired + p.pending)[i] == Ids(id, p.added)[i];
      }
    case Pop =>
    case Release =>
      if q.ndrop == 0 {
        assert p.flights[0] == Flight(p.pending[0], false);
        assert p'.retired + p'.pending == p.retired + p.pending;
      }
    case Replay(clones) =>
      forall i | 0 <= i < |p.retired + p.pending|
        ensures id((p'.retired + p'.pending)[i]) == id((p.retired + p.pending)[i])
      {
      }
      assert Ids(id, p'.retired + p'.pending) == Ids(id, p.retired + p.pending);
  }

  ghost predicate Faithful<T>(id: T -> nat, q: Queue<T>, p: Pipeline<T>) {
    Simulates(q, p) && Ids(id, p.retired + p.pending) == Ids(id, p.added)
  }

  lemma StepFaithful<T>(id: T -> nat, q: Queue<T>, p: Pipeline<T>, op: Op<T>)
    requires Faithful(id, q, p) && Legal(id, p, op)
    ensures Faithful(id, QueueStep(q, op), PipelineStep(p, op))
  {
    StepSimulates(id, q, p, op);
    StepKeepsIds(id, q, p, op);
  }

  /** Every legal run, with any number of nested replays: in each of its states the ring's
      counter and cursors describe the flights exactly, and no instruction is lost, repeated
      or reordered. */
  lemma {:induction false} EveryRun<T>(id: T -> nat, ops: seq<Op<T>>, ss: seq<State<T>>, n: nat)
    requires IsRun(id, ops, ss) && n <= |ops|
    ensures Faithful(id, ss[n].q, ss[n].p)
  {
    if n == 0 {
      EmptyFaithful(id);
    } else {
      EveryRun(id, ops, ss, n - 1);
      assert Next(id, ss[n - 1], ops[n - 1], ss[n]);
      StepFaithful(id, ss[n - 1].q, ss[n - 1].p, ops[n - 1]);
    }
  }

  lemma EmptyFaithful<T>(id: T -> nat)
    ensures Faithful<T>(id, Queue([], 0, 0), Pipeline([], 0, [], [], []))
  {
  }

  function CountPops<T>(ops: seq<Op<T>>): nat {
    if ops == [] then 0 else CountPops(ops[..|ops| - 1]) + (if ops[|ops| - 1].Pop? then 1 else 0)
  }

  function CountReleases<T>(ops: seq<Op<T>>): nat {
    if ops == [] then 0 else CountReleases(ops[..|ops| - 1]) + (if ops[|ops| - 1].Release? then 1 else 0)
  }

  lemma {:induction false} FlightsAreCounted<T>(id: T -> nat, ops: seq<Op<T>>, ss: seq<State<T>>, n: nat)
    requires IsRun(id, ops, ss) && n <= |ops|
    ensures |ss[n].p.flights| == CountPops(ops[..n]) - CountReleases(ops[..n])
  {
    if n > 0 {
      FlightsAreCounted(id, ops, ss, n - 1);
      assert Next(id, ss[n - 1], ops[n - 1], ss[n]);
      assert ops[..n][..n - 1] == ops[..n - 1];
    }
  }

  /** Pops minus releases is head - tail plus the drop counter, in every state of every run.
      So whenever a release is legal and nothing is left to drop, `tail` is strictly behind
      `head`: it never passes `head`, and advanceTail never returns false. */
  lemma TailNeverPassesHead<T>(id: T -> nat, ops: seq<Op<T>>, ss: seq<State<T>>, n: nat)
    requires IsRun(id, ops, ss) && n <= |ops|
    ensures CountPops(ops[..n]) - CountReleases(ops[..n]) == ss[n].q.h + ss[n].q.ndrop
    ensures Legal(id, ss[n].p, Release) && ss[n].q.ndrop == 0 ==> ss[n].q.h > 0
    ensures Legal(id, ss[n].p, Release) ==> ReleaseAccepted(ss[n].q)
  {
    EveryRun(id, ops, ss, n);
    FlightsAreCounted(id, ops, ss, n);
  }

  /** A release moves `tail` exactly when the released instruction was not killed, and then
      the instruction stepped over is the released one. */
  ghost predicate ExactRelease<T>(q: Queue<T>, released: Flight<T>) {
    var q' := QueueStep(q, Release);
    if released.killed then q'.contents == q.contents && q'.h == q.h
    else q.contents != [] && q.contents[0] == released.inst &&
         q'.contents == q.contents[1..] && q'.h == q.h - 1
  }

  lemma ReleaseIsExact<T>(id: T -> nat, ops: seq<Op<T>>, ss: seq<State<T>>, n: nat)
    requires IsRun(id, ops, ss) && n <= |ops| && Legal(id, ss[n].p, Release)
    ensures ExactRelease(ss[n].q, ss[n].p.flights[0])
  {
    EveryRun(id, ops, ss, n);
    var q, p := ss[n].q, ss[n].p;
    if q.ndrop == 0 {
      assert p.flights[0] == Flight(p.pending[0], false);
    }
  }

  ghost predicate Increasing(s: seq<nat>) {
    forall i, j :: 0 <= i < j < |s| ==> s[i] < s[j]
  }

  lemma IncreasingParts(a: seq<nat>, b: seq<nat>)
    requires Increasing(a + b)
    ensures Increasing(a) && Increasing(b)
  {
    assert a == (a + b)[..|a|] && b == (a + b)[|a|..];
  }

  lemma IdsOfConcat<T>(id: T -> nat, a: seq<T>, b: seq<T>)
    ensures Ids(id, a + b) == Ids(id, a) + Ids(id, b)
  {
  }

  /** Instructions retire in insertion order, each once, and the IDs in the queue stay
      strictly increasing through every replay when they were added that way. */
  lemma RetiredInOrder<T>(id: T -> nat, ops: seq<Op<T>>, ss: seq<State<T>>, n: nat)
    requires IsRun(id, ops, ss) && n <= |ops|
    ensures var p, added := ss[n].p, Ids(id, Adds(ops[..n]));
            && Ids(id, p.retired) + Ids(id, ss[n].q.contents) == added
            && (Increasing(added) ==> Increasing(Ids(id, p.retired)) && Increasing(Ids(id, ss[n].q.contents)))
  {
    EveryRun(id, ops, ss, n);
    AddedAreAdds(id, ops, ss, n);
    var p := ss[n].p;
    IdsOfConcat(id, p.retired, p.pending);
    if Increasing(Ids(id, p.added)) {
      IncreasingParts(Ids(id, p.retired), Ids(id, p.pending));
    }
  }

  /** ids[i] is the ID counter before step i. Creating an instruction takes its ID from the
      counter and moves it on; nothing moves it back. */
  ghost predicate Issued<T>(id: T -> nat, ops: seq<Op<T>>, ids: seq<nat>) {
    && |ids| == |ops| + 1
    && forall i :: 0 <= i < |ops| ==> ids[i] <= ids[i + 1] && (ops[i].Add? ==> ids[i] <= id(ops[i].x) < ids[i + 1])
  }

  lemma IncreasingAppend(s: seq<nat>, x: nat)
    requires Increasing(s) && forall i :: 0 <= i < |s| ==> s[i] < x
    ensures Increasing(s + [x])
  {
  }

  /** Instructions that are created as they are added come in increasing ID order, with any
      replays in between. */
  lemma {:induction false} AddedInIdOrder<T>(id: T -> nat, ops: seq<Op<T>>, ss: seq<State<T>>, ids: seq<nat>, n: nat)
    requires IsRun(id, ops, ss) && Issued(id, ops, ids) && n <= |ops|
    ensures var added := Ids(id, ss[n].p.added); Increasing(added) && forall i :: 0 <= i < |added| ==> added[i] < ids[n]
  {
    if n > 0 {
      var i := n - 1;
      AddedInIdOrder(id, ops, ss, ids, i);
      assert Next(id, ss[i], ops[i], ss[n]);
      assert ids[i] <= ids[i + 1] && (ops[i].Add? ==> ids[i] <= id(ops[i].x) < ids[i + 1]);
      if ops[n - 1].Add? {
        IdsOfConcat(id, ss[n - 1].p.added, [ops[n - 1].x]);
        assert Ids(id, [ops[n - 1].x]) == [id(ops[n - 1].x)];
        IncreasingAppend(Ids(id, ss[n - 1].p.added), id(ops[n - 1].x));
      }
    }
  }

  /** So they retire, and stand in the queue, in strictly increasing ID order in every state. */
  lemma RetiredInIdOrder<T>(id: T -> nat, ops: seq<Op<T>>, ss: seq<State<T>>, ids: seq<nat>, n: nat)
    requires IsRun(id, ops, ss) && Issued(id, ops, ids) && n <= |ops|
    ensures Increasing(Ids(id, ss[n].p.retired)) && Increasing(Ids(id, ss[n].q.contents))
  {
    AddedInIdOrder(id, ops, ss, ids, n);
    AddedAreAdds(id, ops, ss, n);
    RetiredInOrder(id, ops, ss, n);
  }

  // ----- draining -----

  /** One Pop while something is left to execute, then one Release while something is in flight. */
  lemma {:induction false} Drain<T>(id: T -> nat, ops: seq<Op<T>>, ss: seq<State<T>>)
    returns (ops': seq<Op<T>>, ss': seq<State<T>>)
    requires IsRun(id, ops, ss)
    ensures IsRun(id, ops', ss') && ops <= ops'
    ensures forall i :: |ops| <= i < |ops'| ==> ops'[i] in {Pop, Release}
    ensures var p' := ss'[|ops'|].p;
            p'.pending == [] && p'.flights == [] && p'.added == ss[|ops|].p.added
    decreases |ss[|ops|].p.pending| - ss[|ops|].p.issued, |ss[|ops|].p.flights|
  {
    var s := ss[|ops|];
    EveryRun(id, ops, ss, |ops|);
    if s.p.issued == |s.p.pending| && s.p.flights == [] {
      ops', ss' := ops, ss;
    } else {
      var op: Op<T> := if s.p.issued < |s.p.pending| then Pop else Release;
      var s' := State(QueueStep(s.q, op), PipelineStep(s.p, op));
      Extend(id, ops, ss, op, s');
      ops', ss' := Drain(id, ops + [op], ss + [s']);
      assert ops <= ops + [op];
    }
  }

  /** From every reachable state, whatever was replayed before, the run can be completed by
      pops and releases alone, and then every instruction ever added has retired, in order. */
  lemma DrainRetiresAll<T>(id: T -> nat, ops: seq<Op<T>>, ss: seq<State<T>>)
    returns (ops': seq<Op<T>>, ss': seq<State<T>>)
    requires IsRun(id, ops, ss)
    ensures IsRun(id, ops', ss') && ops <= ops'
    ensures forall i :: |ops| <= i < |ops'| ==> ops'[i] in {Pop, Release}
    ensures Ids(id, ss'[|ops'|].p.retired) == Ids(id, Adds(ops))
  {
    AddedAreAdds(id, ops, ss, |ops|);
    assert ops[..|ops|] == ops;
    ops', ss' := Drain(id, ops, ss);
    EveryRun(id, ops', ss', |ops'|);
    var p' := ss'[|ops'|].p;
    assert p'.retired + p'.pending == p'.retired;
  }
}
