/** Tearing dependence lists down during a flush.

    markPoisoned delivers a producer's whole list, one node at a time; a flush poisons a set of
    instructions one after the other. The lemmas say what is left of the graph. */
module DepFlush {
  import opened DepSpec

  /** The graph after the first i nodes of p's list have been delivered. */
  ghost function TakenUpTo<D>(g: Graph<D>, p: D, i: nat): Graph<D>
    requires p in g.fan && p in g.delivered && i <= |g.fan[p]|
  {
    Graph(g.fan[p := g.fan[p][i..]],
          map n | n in g.owner && n !in g.fan[p][..i] :: g.owner[n],
          g.appended,
          g.delivered[p := g.delivered[p] + g.fan[p][..i]])
  }

  lemma TakeNext<D>(g: Graph<D>, p: D, i: nat)
    requires p in g.fan && p in g.delivered && i < |g.fan[p]|
    ensures Delivered(TakenUpTo(g, p, i), p) == TakenUpTo(g, p, i + 1)
  {
    var fan := g.fan[p];
    var t, t' := TakenUpTo(g, p, i), TakenUpTo(g, p, i + 1);
    assert fan[i..][1..] == fan[i + 1..];
    assert fan[..i] + [fan[i]] == fan[..i + 1];
    assert g.delivered[p] + fan[..i] + [fan[i]] == g.delivered[p] + fan[..i + 1];
    assert Delivered(t, p).owner == t'.owner;
  }

  lemma TakeNone<D>(g: Graph<D>, p: D)
    requires p in g.fan && p in g.delivered
    ensures TakenUpTo(g, p, 0) == g
  {
    var t := TakenUpTo(g, p, 0);
    assert g.delivered[p] + g.fan[p][..0] == g.delivered[p];
    assert t.owner == g.owner && t.fan == g.fan && t.delivered == g.delivered;
  }

  /** The graph without any edge whose producer is in S. */
  ghost function WithoutProducers<D>(g: Graph<D>, S: set<D>): Graph<D>
    requires g.fan.Keys == g.delivered.Keys
  {
    Graph(map p | p in g.fan :: if p in S then [] else g.fan[p],
          map n | n in g.owner && g.owner[n] !in S :: g.owner[n],
          g.appended,
          map p | p in g.delivered :: if p in S then g.delivered[p] + g.fan[p] else g.delivered[p])
  }

  /** A producer's list taken to the end is exactly the removal of that producer's edges. */
  lemma TakeAll<D>(s: Sound<D>, p: D)
    requires p in s.m
    ensures TakenUpTo(s.g, p, |s.g.fan[p]|) == WithoutProducers(s.g, {p})
  {
    var g := s.g;
    var t, w := TakenUpTo(g, p, |g.fan[p]|), WithoutProducers(g, {p});
    assert g.fan[p][..|g.fan[p]|] == g.fan[p];
    forall n | n in g.owner ensures n in g.fan[p] <==> g.owner[n] == p {
      assert Placed(s.size, s.m, g, n);
      assert Owns(g, p);
    }
    assert t.owner == w.owner;
    assert g.fan[p][|g.fan[p]|..] == [];
    assert t.fan == w.fan;
    assert t.delivered == w.delivered;
  }

  lemma RemoveAnotherAt<D>(g: Graph<D>, S: set<D>, p: D, q: D)
    requires g.fan.Keys == g.delivered.Keys && q in g.fan
    ensures var a, b := WithoutProducers(WithoutProducers(g, S), {p}), WithoutProducers(g, S + {p});
            a.fan[q] == b.fan[q] && a.delivered[q] == b.delivered[q]
  {
    var w := WithoutProducers(g, S);
    if q in S && q == p {
      assert w.delivered[q] + [] == w.delivered[q];
    }
  }

  lemma RemoveAnotherOwner<D>(g: Graph<D>, S: set<D>, p: D)
    requires g.fan.Keys == g.delivered.Keys
    ensures WithoutProducers(WithoutProducers(g, S), {p}).owner == WithoutProducers(g, S + {p}).owner
  {
  }

  /** Order does not matter: removing S and then p is removing both. */
  lemma RemoveAnother<D>(g: Graph<D>, S: set<D>, p: D)
    requires g.fan.Keys == g.delivered.Keys
    ensures WithoutProducers(WithoutProducers(g, S), {p}) == WithoutProducers(g, S + {p})
  {
    var a, b := WithoutProducers(WithoutProducers(g, S), {p}), WithoutProducers(g, S + {p});
    RemoveAnotherOwner(g, S, p);
    forall q | q in g.fan ensures a.fan[q] == b.fan[q] && a.delivered[q] == b.delivered[q] {
      RemoveAnotherAt(g, S, p, q);
    }
    assert a.fan == b.fan;
    assert a.delivered == b.delivered;
  }

  lemma RemoveNone<D>(g: Graph<D>)
    requires g.fan.Keys == g.delivered.Keys
    ensures WithoutProducers(g, {}) == g
  {
    var w := WithoutProducers(g, {});
    assert w.fan == g.fan && w.owner == g.owner && w.delivered == g.delivered;
  }

  // ----- what a consumer waits for -----

  /** How many of d's first `size` nodes wait for a producer outside S. */
  ghost function WaitsOutside<D>(g: Graph<D>, d: D, S: set<D>, size: nat): nat {
    if size == 0 then 0
    else WaitsOutside(g, d, S, size - 1) +
         (if Src(d, size - 1) in g.owner && g.owner[Src(d, size - 1)] !in S then 1 else 0)
  }

  ghost function WaitsInside<D>(g: Graph<D>, d: D, S: set<D>, size: nat): nat {
    if size == 0 then 0
    else WaitsInside(g, d, S, size - 1) +
         (if Src(d, size - 1) in g.owner && g.owner[Src(d, size - 1)] in S then 1 else 0)
  }

  lemma {:induction false} CountPrefix<D>(g: Graph<D>, d: D, pend: seq<Node<D>>)
    requires forall k :: 0 <= k < |pend| ==> (pend[k].isUsed <==> Src(d, k) in g.owner)
    ensures UsedCount(pend) == WaitsOutside(g, d, {}, |pend|)
  {
    if pend != [] {
      var n := |pend| - 1;
      CountPrefix(g, d, pend[..n]);
      UsedCountAppend(pend[..n], pend[n]);
      assert pend[..n] + [pend[n]] == pend;
    }
  }

  lemma {:induction false} UsedCountAppend<D>(pend: seq<Node<D>>, x: Node<D>)
    ensures UsedCount(pend + [x]) == UsedCount(pend) + (if x.isUsed then 1 else 0)
  {
    if pend != [] {
      UsedCountAppend(pend[1..], x);
      assert (pend + [x])[1..] == pend[1..] + [x];
    }
  }

  /** nDeps (and memDep) count the edges into an instruction. */
  lemma CountIsInDegree<D>(s: Sound<D>, d: D)
    requires d in s.m
    ensures s.m[d].nDeps == WaitsOutside(s.g, d, {}, s.size)
  {
    assert CellOk(s.size, s.m[d]) && Flagged(s.m, s.g, d);
    CountPrefix(s.g, d, s.m[d].pend);
  }

  lemma {:induction false} RemovalSplitsCount<D>(g: Graph<D>, d: D, S: set<D>, size: nat)
    requires g.fan.Keys == g.delivered.Keys
    ensures WaitsOutside(g, d, {}, size) ==
            WaitsOutside(WithoutProducers(g, S), d, {}, size) + WaitsInside(g, d, S, size)
  {
    if size > 0 {
      RemovalSplitsCount(g, d, S, size - 1);
    }
  }

  /** Everything that waits for a member of S is in S. */
  ghost predicate ConsumerClosed<D>(g: Graph<D>, S: set<D>) {
    forall n :: n in g.owner && g.owner[n] in S ==> n.Src? && n.d in S
  }

  /** Everything a member of S waits for is in S. */
  ghost predicate ProducerClosed<D>(g: Graph<D>, S: set<D>) {
    forall n :: n in g.owner && n.Src? && n.d in S ==> g.owner[n] in S
  }

  lemma {:induction false} OutsiderUnaffected<D>(g: Graph<D>, d: D, S: set<D>, size: nat)
    requires ConsumerClosed(g, S) && d !in S
    ensures WaitsInside(g, d, S, size) == 0
  {
    if size > 0 {
      OutsiderUnaffected(g, d, S, size - 1);
    }
  }

  lemma {:induction false} MemberFreed<D>(g: Graph<D>, d: D, S: set<D>, size: nat)
    requires g.fan.Keys == g.delivered.Keys && ProducerClosed(g, S) && d in S
    ensures WaitsOutside(WithoutProducers(g, S), d, {}, size) == 0
  {
    if size > 0 {
      MemberFreed(g, d, S, size - 1);
    }
  }

  /** A flush that leaves the graph without the producers in S lowers every count by exactly
      the edges it removed; a consumer-closed S leaves every other instruction's count alone,
      and a member of a producer-closed S is ready to be released. */
  lemma FlushCounts<D>(s: Sound<D>, s': Sound<D>, S: set<D>, d: D)
    requires s'.size == s.size && s'.m.Keys == s.m.Keys && s'.g == WithoutProducers(s.g, S)
    requires d in s.m
    ensures s'.m[d].nDeps == s.m[d].nDeps - WaitsInside(s.g, d, S, s.size)
    ensures ConsumerClosed(s.g, S) && d !in S ==> s'.m[d].nDeps == s.m[d].nDeps
    ensures ProducerClosed(s.g, S) && d in S ==> s'.m[d].nDeps == 0 && s'.m[d].first == Null
  {
    CountIsInDegree(s, d);
    CountIsInDegree(s', d);
    RemovalSplitsCount(s.g, d, S, s.size);
    if ConsumerClosed(s.g, S) && d !in S {
      OutsiderUnaffected(s.g, d, S, s.size);
    }
    if ProducerClosed(s.g, S) && d in S {
      MemberFreed(s.g, d, S, s.size);
      assert ListOk(s'.size, s'.m, s'.g, d);
    }
  }
}
