/** The queue together with the pool that fills it and clones for it. */
module QueueFeed {
  import opened ReplaySpec
  import opened DInsts
  import opened EmuDInstQueues

  /** Instructions were added in increasing ID order, and the counter is past all of them. */
  ghost predicate InOrder(q: EmuDInstQueue, pool: Pool)
    reads q, pool
  {
    var added := Ids(IdOf, Last(q.history).p.added);
    Increasing(added) && forall i :: 0 <= i < |added| ==> added[i] < pool.currentID
  }

  /** Then the IDs in the queue, and those retired, are strictly increasing. */
  lemma QueueInOrder(q: EmuDInstQueue, pool: Pool)
    requires InOrder(q, pool)
    ensures Increasing(Ids(IdOf, Last(q.history).q.contents)) && Increasing(Ids(IdOf, Last(q.history).p.retired))
  {
    RetiredInOrder(IdOf, q.history.ops, q.history.ss, |q.history.ops|);
    AddedAreAdds(IdOf, q.history.ops, q.history.ss, |q.history.ops|);
  }

  lemma AddInOrder(added: seq<DInst>, d: DInst)
    requires Increasing(Ids(IdOf, added)) && forall i :: 0 <= i < |added| ==> Ids(IdOf, added)[i] < d.ID
    ensures Increasing(Ids(IdOf, added + [d])) && forall i :: 0 <= i <= |added| ==> Ids(IdOf, added + [d])[i] <= d.ID
  {
    IdsOfConcat(IdOf, added, [d]);
    IncreasingAppend(Ids(IdOf, added), d.ID);
  }

  /** The reader creates an instruction and adds it. */
  method Feed(q: EmuDInstQueue, pool: Pool, p: Payload) returns (d: DInst)
    requires q.Valid() && InOrder(q, pool)
    modifies q, q.trace, pool
    ensures q.Valid() && InOrder(q, pool)
    ensures q.history == Then(old(q.history), ReplaySpec.Op.Add(d)) && d.payload == p && d.ID == old(pool.currentID)
    ensures Last(q.history).q.contents == old(Last(q.history)).q.contents + [d]
  {
    ghost var added := Last(q.history).p.added;
    d := pool.Create(p);
    AddInOrder(added, d);
    q.Add(d);
  }

  /** A replay clones without using up IDs. */
  method ReplayAll(q: EmuDInstQueue, pool: Pool)
    requires q.Valid() && InOrder(q, pool)
    modifies q, q.trace, pool
    ensures q.Valid() && InOrder(q, pool) && Last(q.history).p.added == old(Last(q.history)).p.added
    ensures Last(q.history).q.h == 0
  {
    ghost var clones := q.MoveHead2Tail(pool);
  }

  /** The processor takes the next instruction. */
  method Fetch(q: EmuDInstQueue, ghost pool: Pool) returns (d: DInst?)
    requires q.Valid() && InOrder(q, pool) && !q.Empty()
    modifies q
    ensures q.Valid() && InOrder(q, pool)
    ensures Legal(IdOf, old(Last(q.history)).p, Pop) && q.history == Then(old(q.history), Pop)
    ensures var before := old(Last(q.history)).q;
            before.h < |before.contents| && d == before.contents[before.h]
  {
    d := q.GetHead();
    q.PopHead();
  }

  /** An instruction in flight retires or is dropped. */
  method Retire(q: EmuDInstQueue, ghost pool: Pool)
    requires q.Valid() && InOrder(q, pool) && Legal(IdOf, Last(q.history).p, Release)
    modifies q
    ensures q.Valid() && InOrder(q, pool) && q.history == Then(old(q.history), Release)
  {
    var ok := q.AdvanceTail();
  }
}
