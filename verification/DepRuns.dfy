/** Instructions entering and leaving the window, and what holds in every reachable heap. */
module DepRuns {
  import opened DepSpec

  /** The register side of setup() on an object from the pool: it clears `first` and the used
      flags and keeps the rest of the stale cell, the count included. */
  function SetupCell<D>(stale: Cell<D>): Cell<D> {
    stale.(first := Null, pend := seq(|stale.pend|, i requires 0 <= i < |stale.pend| => stale.pend[i].(isUsed := false)))
  }

  /** The memory side of setup(): it clears memDep and memLast as well. */
  function SetupMemCell<D>(stale: Cell<D>): Cell<D> {
    SetupCell(stale).(nDeps := 0, last := Null)
  }

  function Created<D(==)>(g: Graph<D>, d: D): Graph<D> {
    Graph(g.fan[d := []], g.owner, g.appended[d := []], g.delivered[d := []])
  }

  function Forgotten<D(==)>(g: Graph<D>, d: D): Graph<D> {
    Graph(g.fan - {d}, g.owner, g.appended - {d}, g.delivered - {d})
  }

  lemma OutsideWaitsForNothing<D>(s: Sound<D>, n: Ptr<D>)
    requires n.Src? && n.d !in s.m
    ensures n !in s.g.owner
  {
    assert n in s.g.owner ==> Placed(s.size, s.m, s.g, n);
  }

  lemma OutsideOwnsNothing<D>(s: Sound<D>, p: D)
    requires p !in s.m
    ensures forall n :: n in s.g.owner ==> s.g.owner[n] != p
  {
    assert forall n :: n in s.g.owner ==> Placed(s.size, s.m, s.g, n);
  }

  // ----- create -----

  lemma CreateKeepsList<D>(s: Sound<D>, d: D, c: Cell<D>, q: D)
    requires d !in s.m && c.first == Null && q in s.m[d := c]
    requires Domains(s.m[d := c], Created(s.g, d))
    ensures ListOk(s.size, s.m[d := c], Created(s.g, d), q)
  {
    var m' := s.m[d := c];
    if q != d {
      assert ListOk(s.size, s.m, s.g, q);
      forall i | 0 <= i < |s.g.fan[q]| ensures SameLink(s.size, s.m, m', s.g.fan[q][i]) {
        assert IsNode(s.size, s.m, s.g.fan[q][i]);
      }
      ChainKept(s.size, s.m, m', q, s.g.fan[q]);
    }
  }

  lemma CreateKeepsFlags<D>(s: Sound<D>, d: D, c: Cell<D>, e: D)
    requires d !in s.m && (forall k :: 0 <= k < |c.pend| ==> !c.pend[k].isUsed) && e in s.m[d := c]
    ensures Flagged(s.m[d := c], Created(s.g, d), e)
  {
    if e == d {
      forall k | 0 <= k < |c.pend| ensures Src(d, k) !in s.g.owner {
        OutsideWaitsForNothing(s, Src(d, k));
      }
    } else {
      assert Flagged(s.m, s.g, e);
    }
  }

  lemma CreateKeepsPlaced<D>(s: Sound<D>, d: D, c: Cell<D>, x: Ptr<D>)
    requires d !in s.m && x in s.g.owner && Domains(s.m[d := c], Created(s.g, d))
    ensures Placed(s.size, s.m[d := c], Created(s.g, d), x)
  {
    assert Placed(s.size, s.m, s.g, x);
  }

  lemma CreateKeepsRest<D>(s: Sound<D>, d: D, c: Cell<D>, q: D)
    requires d !in s.m && CellOk(s.size, c) && q in s.m[d := c]
    requires forall k :: 0 <= k < |c.pend| ==> !c.pend[k].isUsed
    ensures Flagged(s.m[d := c], Created(s.g, d), q)
    ensures Owns(Created(s.g, d), q) && CellOk(s.size, s.m[d := c][q])
  {
    CreateKeepsFlags(s, d, c, q);
    assert q != d ==> Owns(s.g, q) && CellOk(s.size, s.m[q]);
  }

  lemma CreateKeepsDomains<D>(s: Sound<D>, d: D, c: Cell<D>)
    ensures Domains(s.m[d := c], Created(s.g, d))
  {
  }

  lemma CleanKeepsLists<D>(s: Sound<D>, d: D, c: Cell<D>)
    requires d !in s.m && c.first == Null && Domains(s.m[d := c], Created(s.g, d))
    ensures var m', g' := s.m[d := c], Created(s.g, d);
            (forall q {:trigger ListOk(s.size, m', g', q)} :: q in m' ==> ListOk(s.size, m', g', q)) &&
            (forall x {:trigger Placed(s.size, m', g', x)} :: x in g'.owner ==> Placed(s.size, m', g', x))
  {
    var m', g' := s.m[d := c], Created(s.g, d);
    forall q | q in m' ensures ListOk(s.size, m', g', q) {
      CreateKeepsList(s, d, c, q);
    }
    forall x | x in g'.owner ensures Placed(s.size, m', g', x) {
      CreateKeepsPlaced(s, d, c, x);
    }
  }

  lemma CleanEnters<D>(s: Sound<D>, d: D, c: Cell<D>)
    requires d !in s.m && CellOk(s.size, c) && c.first == Null
    requires forall k :: 0 <= k < |c.pend| ==> !c.pend[k].isUsed
    ensures Represents(State(s.size, s.m[d := c], Created(s.g, d)))
  {
    var m', g' := s.m[d := c], Created(s.g, d);
    CreateKeepsDomains(s, d, c);
    CleanKeepsLists(s, d, c);
    forall q | q in m' ensures Flagged(m', g', q) && Owns(g', q) && CellOk(s.size, m'[q]) {
      CreateKeepsRest(s, d, c, q);
    }
  }

  /** On the register side a pool object joins the window unharmed exactly when its stale count
      is zero, which is what recycle and scrap assert before an object returns to the pool. */
  lemma CreateRepresents<D>(s: Sound<D>, d: D, stale: Cell<D>)
    requires d !in s.m && |stale.pend| == s.size
    ensures Represents(State(s.size, s.m[d := SetupCell(stale)], Created(s.g, d))) <==> stale.nDeps == 0
  {
    var c := SetupCell(stale);
    UnusedCount(c.pend);
    if stale.nDeps == 0 {
      CleanEnters(s, d, c);
    } else {
      assert !CellOk(s.size, s.m[d := c][d]);
    }
  }

  /** On the memory side it always does. */
  lemma CreateMemRepresents<D>(s: Sound<D>, d: D, stale: Cell<D>)
    requires d !in s.m && |stale.pend| == s.size
    ensures Represents(State(s.size, s.m[d := SetupMemCell(stale)], Created(s.g, d)))
  {
    var c := SetupMemCell(stale);
    UnusedCount(c.pend);
    CleanEnters(s, d, c);
  }

  // ----- recycle -----

  /** Neither d's nodes nor d's list carry an edge. */
  ghost predicate Isolated<D>(g: Graph<D>, d: D) {
    forall n :: n in g.owner ==> n.Src? && n.d != d && g.owner[n] != d
  }

  lemma ReadyIsIsolated<D>(s: Sound<D>, d: D)
    requires d in s.m && s.m[d].nDeps == 0 && s.m[d].first == Null
    ensures Isolated(s.g, d)
  {
    assert CellOk(s.size, s.m[d]) && ListOk(s.size, s.m, s.g, d) && Flagged(s.m, s.g, d);
    forall n | n in s.g.owner ensures n.Src? && n.d != d && s.g.owner[n] != d {
      assert Placed(s.size, s.m, s.g, n);
      assert n == Src(n.d, n.k);
      if n.d == d {
        UsedImpliesPositive(s.m[d].pend, n.k);
      }
    }
  }

  lemma IsolatedIsReady<D>(s: Sound<D>, d: D)
    requires d in s.m && Isolated(s.g, d)
    ensures s.m[d].nDeps == 0 && s.m[d].first == Null
  {
    assert CellOk(s.size, s.m[d]) && ListOk(s.size, s.m, s.g, d) && Flagged(s.m, s.g, d) && Owns(s.g, d);
    UnusedCount(s.m[d].pend);
  }

  lemma RecycleKeepsList<D>(s: Sound<D>, d: D, q: D)
    requires d in s.m && Isolated(s.g, d) && q in s.m - {d}
    ensures Domains(s.m - {d}, Forgotten(s.g, d)) && ListOk(s.size, s.m - {d}, Forgotten(s.g, d), q)
  {
    var m' := s.m - {d};
    assert ListOk(s.size, s.m, s.g, q) && Owns(s.g, q);
    forall i | 0 <= i < |s.g.fan[q]| ensures SameLink(s.size, s.m, m', s.g.fan[q][i]) {
      assert IsNode(s.size, s.m, s.g.fan[q][i]) && s.g.fan[q][i] in s.g.owner;
    }
    ChainKept(s.size, s.m, m', q, s.g.fan[q]);
  }

  lemma IsolatedLeaves<D>(s: Sound<D>, d: D)
    requires d in s.m && Isolated(s.g, d)
    ensures Represents(State(s.size, s.m - {d}, Forgotten(s.g, d)))
  {
    var m', g' := s.m - {d}, Forgotten(s.g, d);
    forall q | q in m' ensures ListOk(s.size, m', g', q) && Owns(g', q) && Flagged(m', g', q) && CellOk(s.size, m'[q]) {
      RecycleKeepsList(s, d, q);
      assert Owns(s.g, q) && Flagged(s.m, s.g, q) && CellOk(s.size, s.m[q]);
    }
    forall x | x in g'.owner ensures Placed(s.size, m', g', x) {
      assert Placed(s.size, s.m, s.g, x);
    }
  }

  /** recycle and scrap, on either side: an object can leave the window exactly when it waits for nothing and
      nothing waits for it. */
  lemma RecycleRepresents<D>(s: Sound<D>, d: D)
    requires d in s.m
    ensures Represents(State(s.size, s.m - {d}, Forgotten(s.g, d))) <==> s.m[d].nDeps == 0 && s.m[d].first == Null
  {
    var s' := State(s.size, s.m - {d}, Forgotten(s.g, d));
    if s.m[d].nDeps == 0 && s.m[d].first == Null {
      ReadyIsIsolated(s, d);
      IsolatedLeaves(s, d);
    }
    if Represents(s') {
      OutsideOwnsNothing(s', d);
      forall n | n in s.g.owner ensures n.Src? && n.d != d {
        assert Placed(s'.size, s'.m, s'.g, n);
      }
      IsolatedIsReady(s, d);
    }
  }

  // ----- every reachable heap -----

  datatype Op<D> = Create(d: D, stale: Cell<D>) | CreateMem(d: D, stale: Cell<D>) | AddSrc(p: D, n: Ptr<D>) | Deliver(p: D) | Recycle(d: D)

  /** One operation on one side. Creation differs between the sides. The guards are the code's
      assertions, but for Recycle on the memory side, which scrap asserts and recycle does not. */
  ghost predicate Next<D>(s: State<D>, op: Op<D>, s': State<D>) {
    match op
    case Create(d, stale) =>
      d !in s.m && |stale.pend| == s.size && stale.nDeps == 0 &&
      s' == State(s.size, s.m[d := SetupCell(stale)], Created(s.g, d))
    case CreateMem(d, stale) =>
      d !in s.m && |stale.pend| == s.size && s' == State(s.size, s.m[d := SetupMemCell(stale)], Created(s.g, d))
    case AddSrc(p, n) =>
      IsNode(s.size, s.m, n) && !s.m[n.d].pend[n.k].isUsed && LastOk(s.size, s.m, p, n) &&
      p in s.g.fan && p in s.g.appended &&
      s' == State(s.size, AddDep(s.size, s.m, p, n), Appended(s.g, p, n))
    case Deliver(p) =>
      FirstOk(s.size, s.m, p) &&
      p in s.g.fan && p in s.g.delivered && s.g.fan[p] != [] &&
      s' == State(s.size, TakeFirst(s.size, s.m, p), Delivered(s.g, p))
    case Recycle(d) =>
      d in s.m && s.m[d].nDeps == 0 && s.m[d].first == Null &&
      s' == State(s.size, s.m - {d}, Forgotten(s.g, d))
  }

  ghost predicate IsRun<D>(size: nat, ops: seq<Op<D>>, ss: seq<State<D>>) {
    && |ss| == |ops| + 1
    && ss[0] == Nothing(size)
    && forall i :: 0 <= i < |ops| ==> Next(ss[i], ops[i], ss[i + 1])
  }

  lemma NextRepresents<D>(s: Sound<D>, op: Op<D>, s': State<D>)
    requires Next(s, op, s')
    ensures Represents(s')
  {
    match op
    case Create(d, stale) => CreateRepresents(s, d, stale);
    case CreateMem(d, stale) => CreateMemRepresents(s, d, stale);
    case AddSrc(p, n) => AddDepRepresents(s, p, n);
    case Deliver(p) => TakeFirstRepresents(s, p);
    case Recycle(d) => RecycleRepresents(s, d);
  }

  /** In every reachable heap the counts, flags and list pointers agree with the graph, and
      each producer has delivered its dependences once each, oldest first. */
  lemma {:induction false} EveryHeap<D>(size: nat, ops: seq<Op<D>>, ss: seq<State<D>>, n: nat)
    requires IsRun(size, ops, ss) && n <= |ops|
    ensures Represents(ss[n])
  {
    if n > 0 {
      EveryHeap(size, ops, ss, n - 1);
      assert Next(ss[n - 1], ops[n - 1], ss[n]);
      NextRepresents(ss[n - 1], ops[n - 1], ss[n]);
    }
  }

  /** The nodes the operations have put on p's list since p was created, in order. */
  function Sources<D(==)>(ops: seq<Op<D>>, p: D): seq<Ptr<D>> {
    if ops == [] then []
    else
      var before := Sources(ops[..|ops| - 1], p);
      match ops[|ops| - 1]
      case Create(d, _) => if d == p then [] else before
      case CreateMem(d, _) => if d == p then [] else before
      case AddSrc(q, n) => if q == p then before + [n] else before
      case Deliver(_) => before
      case Recycle(_) => before
  }

  /** How often they have taken one off it. */
  function Takes<D(==)>(ops: seq<Op<D>>, p: D): nat {
    if ops == [] then 0
    else
      var before := Takes(ops[..|ops| - 1], p);
      match ops[|ops| - 1]
      case Create(d, _) => if d == p then 0 else before
      case CreateMem(d, _) => if d == p then 0 else before
      case AddSrc(_, _) => before
      case Deliver(q) => if q == p then before + 1 else before
      case Recycle(_) => before
  }

  lemma {:induction false} GraphFollowsOps<D>(size: nat, ops: seq<Op<D>>, ss: seq<State<D>>, n: nat, p: D)
    requires IsRun(size, ops, ss) && n <= |ops| && p in ss[n].g.appended && p in ss[n].g.delivered
    ensures ss[n].g.appended[p] == Sources(ops[..n], p) && |ss[n].g.delivered[p]| == Takes(ops[..n], p)
  {
    if n > 0 {
      assert Next(ss[n - 1], ops[n - 1], ss[n]);
      assert ops[..n][..n - 1] == ops[..n - 1];
      if p in ss[n - 1].g.appended && p in ss[n - 1].g.delivered {
        GraphFollowsOps(size, ops, ss, n - 1, p);
      }
    }
  }

  /** First in, first out: p's list is what the operations put on it, without as many of the
      oldest as they took off. */
  lemma ListIsWhatIsLeft<D>(size: nat, ops: seq<Op<D>>, ss: seq<State<D>>, n: nat, p: D)
    requires IsRun(size, ops, ss) && n <= |ops| && p in ss[n].m
    ensures var sources, k := Sources(ops[..n], p), Takes(ops[..n], p);
            k <= |sources| && p in ss[n].g.fan && ss[n].g.fan[p] == sources[k..] &&
            Chain(size, ss[n].m, p, sources[k..])
  {
    EveryHeap(size, ops, ss, n);
    SizeStays(size, ops, ss, n);
    assert ListOk(ss[n].size, ss[n].m, ss[n].g, p);
    GraphFollowsOps(size, ops, ss, n, p);
    var g := ss[n].g;
    assert (g.delivered[p] + g.fan[p])[|g.delivered[p]|..] == g.fan[p];
  }

  lemma {:induction false} SizeStays<D>(size: nat, ops: seq<Op<D>>, ss: seq<State<D>>, n: nat)
    requires IsRun(size, ops, ss) && n <= |ops|
    ensures ss[n].size == size
  {
    if n > 0 {
      SizeStays(size, ops, ss, n - 1);
      assert Next(ss[n - 1], ops[n - 1], ss[n]);
    }
  }

  /** The pointer and graph guards in `Next` never block: where the code's own assertions
      hold, the step exists. */
  lemma NextEnabled<D>(s: Sound<D>, p: D, n: Ptr<D>)
    requires p in s.m
    ensures CanAdd(s, p, n) ==> LastOk(s.size, s.m, p, n) && p in s.g.fan && p in s.g.appended
    ensures s.m[p].first.Src? ==>
              FirstOk(s.size, s.m, p) && p in s.g.fan && p in s.g.delivered && s.g.fan[p] != []
  {
    if CanAdd(s, p, n) {
      FreeNodeIsUnowned(s, p, n);
    }
    if s.m[p].first.Src? {
      FirstIsUsed(s, p);
    }
  }

  ghost function Entered<D>(s: Sound<D>, d: D, c: Cell<D>): (r: Sound<D>)
    requires d !in s.m && |c.pend| == s.size && c.nDeps == 0 && SetupCell(c) == c
    ensures r == State(s.size, s.m[d := c], Created(s.g, d))
  {
    CreateRepresents(s, d, c);
    State(s.size, s.m[d := c], Created(s.g, d))
  }

  ghost function Left<D>(s: Sound<D>, d: D): (r: Sound<D>)
    requires d in s.m && s.m[d].nDeps == 0 && s.m[d].first == Null
    ensures r == State(s.size, s.m - {d}, Forgotten(s.g, d))
  {
    RecycleRepresents(s, d);
    State(s.size, s.m - {d}, Forgotten(s.g, d))
  }
}
