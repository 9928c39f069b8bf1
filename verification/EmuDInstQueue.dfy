/** The ring that holds a flow's instructions from the emulator until they retire.

    `tail` is the next to retire, `head` the next to execute, `insertpoint` the first empty
    slot. The ring carries the history of its operations as a ghost, and `Valid` says that
    the array and cursors are the queue that history leads to. */
module EmuDInstQueues {
  import opened Bits
  import opened ReplaySpec
  import opened DInsts

  const INITIAL_SIZE: nat := 1024

  function IdOf(d: DInst): nat {
    d.ID
  }

  // ----- history -----

  datatype History = History(ops: seq<Op<DInst>>, ss: seq<State<DInst>>)

  ghost predicate Legit(h: History) {
    IsRun(IdOf, h.ops, h.ss)
  }

  type Lived = h: History | Legit(h) ghost witness History([], [Init()])

  ghost function Last(h: Lived): State<DInst> {
    h.ss[|h.ops|]
  }

  ghost function Then(h: Lived, op: Op<DInst>): (r: Lived)
    requires Legal(IdOf, Last(h).p, op)
    ensures r.ops == h.ops + [op]
    ensures Last(r) == State(QueueStep(Last(h).q, op), PipelineStep(Last(h).p, op))
  {
    var s := State(QueueStep(Last(h).q, op), PipelineStep(Last(h).p, op));
    Extend(IdOf, h.ops, h.ss, op, s);
    History(h.ops + [op], h.ss + [s])
  }

  lemma LivedIsFaithful(h: Lived)
    ensures Faithful(IdOf, Last(h).q, Last(h).p)
  {
    EveryRun(IdOf, h.ops, h.ss, |h.ops|);
  }

  // ----- ring arithmetic -----

  /** Slot i places after `tail`. */
  function Slot(tail: nat, i: nat, size: nat): (s: nat)
    requires tail < size && i <= size
    ensures s < size
  {
    if tail + i < size then tail + i else tail + i - size
  }

  /** `(i + 1) & (size - 1)` */
  function Advance(i: nat, size: nat): (j: nat)
    requires IsPow2(size) && i < size
    ensures j == Slot(i, 1, size)
  {
    MaskWrapsOnce(i + 1, size);
    And(i + 1, size - 1)
  }

  /** `(tail + i) & (size - 1)` */
  function Masked(tail: nat, i: nat, size: nat): (j: nat)
    requires IsPow2(size) && tail < size && i < size
    ensures j == Slot(tail, i, size)
  {
    MaskWrapsOnce(tail + i, size);
    And(tail + i, size - 1)
  }

  class EmuDInstQueue {
    var head: nat
    var tail: nat
    var ndrop: nat
    var insertpoint: nat
    var nFreeElems: nat
    var trace: array<DInst?>

    ghost var history: Lived

    /** The array and cursors stand for q, with `free` slots left. */
    ghost predicate Ring(q: Queue<DInst>, free: nat)
      reads this, trace
    {
      && IsPow2(trace.Length) && tail < trace.Length
      && |q.contents| + free == trace.Length && nFreeElems == free
      && q.h <= |q.contents|
      && head == Slot(tail, q.h, trace.Length)
      && insertpoint == Slot(tail, |q.contents|, trace.Length)
      && ndrop == q.ndrop
      && (forall i :: 0 <= i < |q.contents| ==> trace[Slot(tail, i, trace.Length)] == q.contents[i])
    }

    /** At least one slot is always free between operations. */
    ghost predicate Valid()
      reads this, trace
    {
      nFreeElems > 0 && Ring(Last(history).q, nFreeElems)
    }

    constructor ()
      ensures Valid() && fresh(trace) && history.ops == []
    {
      head, tail, insertpoint, ndrop := 0, 0, 0, 0;
      nFreeElems := INITIAL_SIZE;
      trace := new DInst?[INITIAL_SIZE];
      history := History([], [Init()]);
      new;
      assert IsPow2(INITIAL_SIZE);
    }

    predicate Empty()
      reads this
    {
      head == insertpoint
    }

    /** empty() holds exactly when nothing is left to execute. */
    lemma EmptyMeansExecuted()
      requires Valid()
      ensures Empty() <==> Last(history).q.h == |Last(history).q.contents|
    {
    }

    /** size() counts what is in the queue, executed or not. */
    function Size(): (r: nat)
      requires Valid()
      reads this, trace
      ensures r == |Last(history).q.contents|
    {
      trace.Length - nFreeElems
    }

    method GetHead() returns (d: DInst?)
      requires Valid() && !Empty()
      ensures Last(history).q.h < |Last(history).q.contents|
      ensures d == Last(history).q.contents[Last(history).q.h]
    {
      d := trace[head];
    }

    method PopHead()
      requires Valid() && !Empty()
      modifies this
      ensures Valid() && trace == old(trace)
      ensures Legal(IdOf, old(Last(history)).p, Pop) && history == Then(old(history), Pop)
      ensures Last(history).q == old(Last(history)).q.(h := old(Last(history)).q.h + 1)
    {
      LivedIsFaithful(history);
      history := Then(history, Pop);
      head := Advance(head, trace.Length);
    }

    /** The doubling of the array. On entry every slot is taken; head may have wrapped below
        tail. Contents, order and head offset stay, and half of the new array is free. */
    method AdjustTrace(ghost q: Queue<DInst>)
      requires Ring(q, 0) && q.h < |q.contents|
      modifies this`trace, this`head, this`tail, this`insertpoint, this`nFreeElems
      ensures fresh(trace) && trace.Length == 2 * old(trace.Length)
      ensures Ring(q, old(trace.Length))
    {
      var newTail := trace.Length;
      var wider := new DInst?[2 * newTail];
      forall i | 0 <= i < newTail {
        wider[i] := trace[i];
      }
      for i := 0 to newTail
        modifies wider
        invariant forall j :: 0 <= j < i ==> wider[newTail + j] == trace[Slot(tail, j, newTail)]
      {
        wider[newTail + i] := trace[Masked(tail, i, newTail)];
      }
      if head >= tail {
        head := newTail + head - tail;
      } else {
        head := newTail + newTail - (tail - head);
      }
      trace, tail, insertpoint, nFreeElems := wider, newTail, 0, newTail;
    }

    /** Insert an instruction; grow when the last free slot is taken. */
    method Add(d: DInst)
      requires Valid()
      modifies this, trace
      ensures Valid() && (trace == old(trace) || fresh(trace))
      ensures history == Then(old(history), ReplaySpec.Op.Add(d))
      ensures Last(history).q == old(Last(history)).q.(contents := old(Last(history)).q.contents + [d])
    {
      ghost var q := Last(history).q;
      history := Then(history, ReplaySpec.Op.Add(d));
      trace[insertpoint] := d;
      insertpoint := Advance(insertpoint, trace.Length);
      nFreeElems := nFreeElems - 1;
      assert Ring(Last(history).q, nFreeElems);
      if nFreeElems == 0 {
        AdjustTrace(Last(history).q);
      }
    }

    /** A popped instruction leaves the pipeline. While one is in flight the call succeeds and
        the ring follows the intended protocol. With none in flight it fails on an empty queue
        and otherwise lets `tail` overtake `head`. */
    method AdvanceTail() returns (ok: bool)
      requires Valid()
      modifies this
      ensures trace == old(trace)
      ensures ok == ReleaseAccepted(old(Last(history)).q)
      ensures Legal(IdOf, old(Last(history)).p, Release) ==>
                ok && Valid() && history == Then(old(history), Release)
      ensures !Legal(IdOf, old(Last(history)).p, Release) && !ok ==> Valid() && history == old(history)
      ensures !Legal(IdOf, old(Last(history)).p, Release) && ok ==>
                tail == Slot(old(tail), 1, trace.Length) && head == old(head) == old(tail)
    {
      LivedIsFaithful(history);
      if Legal(IdOf, Last(history).p, Release) {
        history := Then(history, Release);
      }
      if ndrop > 0 {
        ndrop := ndrop - 1;
        return true;
      }
      if insertpoint == tail {
        return false;
      }
      tail := Advance(tail, trace.Length);
      nFreeElems := nFreeElems + 1;
      return true;
    }

    /** The replay loop: clone every popped instruction in place, counting the originals. */
    method CloneToHead(pool: Pool, ghost q: Queue<DInst>) returns (ghost clones: seq<DInst>)
      requires Ring(q, nFreeElems) && nFreeElems > 0
      modifies pool, trace, this`tail, this`ndrop
      ensures |clones| == q.h <= |q.contents|
      ensures forall i :: 0 <= i < q.h ==> fresh(clones[i]) && IsCloneOf(clones[i], q.contents[i])
      ensures pool.currentID == old(pool.currentID)
      ensures tail == head && ndrop == q.ndrop + q.h
      ensures forall i :: 0 <= i < |q.contents| ==>
                trace[Slot(old(tail), i, trace.Length)] == (clones + q.contents[q.h..])[i]
    {
      clones := [];
      ghost var size, start := trace.Length, tail;
      while head != tail
        invariant |clones| <= q.h && tail == Slot(start, |clones|, size)
        invariant ndrop == q.ndrop + |clones|
        invariant pool.currentID == old(pool.currentID)
        invariant forall i :: 0 <= i < |clones| ==> fresh(clones[i]) && IsCloneOf(clones[i], q.contents[i])
        invariant forall i :: 0 <= i < |clones| ==> trace[Slot(start, i, size)] == clones[i]
        invariant forall i :: |clones| <= i < |q.contents| ==> trace[Slot(start, i, size)] == q.contents[i]
        decreases q.h - |clones|
      {
        assert trace[tail] == q.contents[|clones|];
        var c := pool.Clone(trace[tail]);
        trace[tail] := c;
        tail := Advance(tail, trace.Length);
        ndrop := ndrop + 1;
        clones := clones + [c];
      }
    }

    /** A replay: everything popped since the tail is executed again, as clones that carry the
        originals' IDs. */
    method MoveHead2Tail(pool: Pool) returns (ghost clones: seq<DInst>)
      requires Valid()
      modifies this, trace, pool
      ensures Valid() && trace == old(trace) && pool.currentID == old(pool.currentID)
      ensures Legal(IdOf, old(Last(history)).p, Replay(clones)) && history == Then(old(history), Replay(clones))
      ensures |clones| == old(Last(history)).q.h <= |old(Last(history)).q.contents|
      ensures var q := old(Last(history)).q;
              Last(history).q == Queue(clones + q.contents[q.h..], 0, q.ndrop + q.h)
      ensures forall i :: 0 <= i < |clones| ==> fresh(clones[i]) && IsCloneOf(clones[i], old(Last(history)).q.contents[i])
    {
      LivedIsFaithful(history);
      var tailCopy := tail;
      clones := CloneToHead(pool, Last(history).q);
      history := Then(history, Replay(clones));
      head := tailCopy;
      tail := tailCopy;
    }
  }

  ghost predicate IsCloneOf(c: DInst, d: DInst) {
    c.ID == d.ID && c.payload == d.payload
  }
}
