/** Intrusive dependence lists on values.

    A `Heap` gives, for every instruction, the fields the dependence code updates: its nodes,
    its dependence count and the ends of its own fan-out list. The same layout serves the
    register lists (three nodes, count `nDeps`) and the store-set lists (one node, count
    `memDep`), so everything here is stated for `size` nodes per instruction.

    A `Graph` is what the pointers stand for: each producer's waiting nodes in order, and the
    producer every waiting node belongs to. */
module DepSpec {

  datatype Ptr<D> = Null | Src(d: D, k: nat)

  datatype Node<D> = Node(isUsed: bool, nextDep: Ptr<D>)

  datatype Cell<D> = Cell(pend: seq<Node<D>>, nDeps: nat, first: Ptr<D>, last: Ptr<D>)

  type Heap<D(==)> = map<D, Cell<D>>

  datatype Graph<D> = Graph(
    fan: map<D, seq<Ptr<D>>>,
    owner: map<Ptr<D>, D>,
    appended: map<D, seq<Ptr<D>>>,   // every node ever put on a producer's list
    delivered: map<D, seq<Ptr<D>>>)  // every node ever taken off it

  datatype State<D> = State(size: nat, m: Heap<D>, g: Graph<D>)

  // ----- counting used nodes -----

  function UsedCount<D>(pend: seq<Node<D>>): nat {
    if pend == [] then 0 else (if pend[0].isUsed then 1 else 0) + UsedCount(pend[1..])
  }

  lemma {:induction false} UsedCountUpdate<D>(pend: seq<Node<D>>, k: nat, n: Node<D>)
    requires k < |pend|
    ensures UsedCount(pend[k := n]) + (if pend[k].isUsed then 1 else 0) ==
            UsedCount(pend) + (if n.isUsed then 1 else 0)
  {
    if k == 0 {
      assert pend[k := n][1..] == pend[1..];
    } else {
      UsedCountUpdate(pend[1..], k - 1, n);
      assert pend[k := n][1..] == pend[1..][k - 1 := n];
    }
  }

  lemma {:induction false} UsedCountSame<D>(a: seq<Node<D>>, b: seq<Node<D>>)
    requires |a| == |b| && forall k :: 0 <= k < |a| ==> a[k].isUsed == b[k].isUsed
    ensures UsedCount(a) == UsedCount(b)
  {
    if a != [] {
      UsedCountSame(a[1..], b[1..]);
    }
  }

  lemma {:induction false} UsedImpliesPositive<D>(pend: seq<Node<D>>, k: nat)
    requires k < |pend| && pend[k].isUsed
    ensures UsedCount(pend) > 0
  {
    if k > 0 {
      UsedImpliesPositive(pend[1..], k - 1);
    }
  }

  lemma {:induction false} UnusedCount<D>(pend: seq<Node<D>>)
    requires forall k :: 0 <= k < |pend| ==> !pend[k].isUsed
    ensures UsedCount(pend) == 0
  {
    if pend != [] {
      UnusedCount(pend[1..]);
    }
  }

  lemma {:induction false} FreeNodeLeavesRoom<D>(pend: seq<Node<D>>, k: nat)
    requires k < |pend| && !pend[k].isUsed
    ensures UsedCount(pend) < |pend|
  {
    if k == 0 {
      UsedCountBound(pend[1..]);
    } else {
      FreeNodeLeavesRoom(pend[1..], k - 1);
    }
  }

  lemma UsedCountBound<D>(pend: seq<Node<D>>)
    ensures UsedCount(pend) <= |pend|
  {
  }

  /** Flipping the flag of node k changes the count by one. */
  lemma UsedCountFlip<D>(a: seq<Node<D>>, b: seq<Node<D>>, k: nat)
    requires |a| == |b| && k < |a| && !a[k].isUsed && b[k].isUsed
    requires forall j :: 0 <= j < |a| && j != k ==> a[j].isUsed == b[j].isUsed
    ensures UsedCount(b) == UsedCount(a) + 1
  {
    UsedCountUpdate(a, k, b[k]);
    UsedCountSame(a[k := b[k]], b);
  }

  // ----- the representation -----

  predicate IsNode<D(==)>(size: nat, m: Heap<D>, n: Ptr<D>) {
    n.Src? && n.d in m && n.k < size && n.k < |m[n.d].pend|
  }

  ghost predicate CellOk<D>(size: nat, c: Cell<D>) {
    |c.pend| == size && c.nDeps == UsedCount(c.pend)
  }

  /** `fan` is the acyclic list that p's pointers thread through its consumers' nodes. */
  ghost predicate Chain<D>(size: nat, m: Heap<D>, p: D, fan: seq<Ptr<D>>)
    requires p in m
  {
    && (forall i :: 0 <= i < |fan| ==> IsNode(size, m, fan[i]))
    && (forall i, j :: 0 <= i < j < |fan| ==> fan[i] != fan[j])
    && (forall i, j :: 0 <= i < j < |fan| && j == i + 1 ==> m[fan[i].d].pend[fan[i].k].nextDep == fan[j])
    && (fan != [] ==> m[fan[|fan| - 1].d].pend[fan[|fan| - 1].k].nextDep == Null)
    && m[p].first == (if fan == [] then Null else fan[0])
    && (fan != [] ==> m[p].last == fan[|fan| - 1])
  }

  ghost predicate Domains<D>(m: Heap<D>, g: Graph<D>) {
    m.Keys == g.fan.Keys == g.appended.Keys == g.delivered.Keys
  }

  /** p's list is in order, and what it has delivered so far is a prefix of what was appended. */
  ghost predicate ListOk<D>(size: nat, m: Heap<D>, g: Graph<D>, p: D)
    requires Domains(m, g) && p in m
  {
    Chain(size, m, p, g.fan[p]) && g.delivered[p] + g.fan[p] == g.appended[p]
  }

  /** A waiting node stands on its producer's list. */
  ghost predicate Placed<D>(size: nat, m: Heap<D>, g: Graph<D>, n: Ptr<D>)
    requires Domains(m, g) && n in g.owner
  {
    IsNode(size, m, n) && g.owner[n] in m && n in g.fan[g.owner[n]]
  }

  /** Everything on p's list waits for p. */
  ghost predicate Owns<D>(g: Graph<D>, p: D)
    requires p in g.fan
  {
    forall i :: 0 <= i < |g.fan[p]| ==> g.fan[p][i] in g.owner && g.owner[g.fan[p][i]] == p
  }

  ghost predicate Flagged<D>(m: Heap<D>, g: Graph<D>, d: D)
    requires d in m
  {
    forall k :: 0 <= k < |m[d].pend| ==> (m[d].pend[k].isUsed <==> Src(d, k) in g.owner)
  }

  /** Counts, flags and pointers agree with the graph. The last three conjuncts make the used
      nodes the disjoint union of the fan-out lists. */
  ghost predicate Represents<D>(s: State<D>) {
    && Domains(s.m, s.g)
    && (forall d {:trigger CellOk(s.size, s.m[d])} :: d in s.m ==> CellOk(s.size, s.m[d]))
    && (forall p {:trigger ListOk(s.size, s.m, s.g, p)} :: p in s.m ==> ListOk(s.size, s.m, s.g, p))
    && (forall p {:trigger Owns(s.g, p)} :: p in s.m ==> Owns(s.g, p))
    && (forall n {:trigger Placed(s.size, s.m, s.g, n)} :: n in s.g.owner ==> Placed(s.size, s.m, s.g, n))
    && (forall d {:trigger Flagged(s.m, s.g, d)} :: d in s.m ==> Flagged(s.m, s.g, d))
  }

  function Nothing<D(==)>(size: nat): State<D> {
    State(size, map[], Graph(map[], map[], map[], map[]))
  }

  type Sound<D> = s: State<D> | Represents(s) ghost witness Nothing<D>(0)

  // ----- chains that a step leaves alone, or shortens -----

  ghost predicate SameLink<D>(size: nat, m: Heap<D>, m': Heap<D>, n: Ptr<D>) {
    && IsNode(size, m, n) && IsNode(size, m', n)
    && m'[n.d].pend[n.k].nextDep == m[n.d].pend[n.k].nextDep
  }

  lemma ChainKept<D>(size: nat, m: Heap<D>, m': Heap<D>, q: D, fan: seq<Ptr<D>>)
    requires q in m && q in m' && Chain(size, m, q, fan)
    requires m'[q].first == m[q].first && m'[q].last == m[q].last
    requires forall i :: 0 <= i < |fan| ==> SameLink(size, m, m', fan[i])
    ensures Chain(size, m', q, fan)
  {
  }

  lemma ChainTail<D>(size: nat, m: Heap<D>, m': Heap<D>, q: D, fan: seq<Ptr<D>>)
    requires q in m && q in m' && fan != [] && Chain(size, m, q, fan)
    requires m'[q].first == m[fan[0].d].pend[fan[0].k].nextDep && m'[q].last == m[q].last
    requires forall i :: 0 <= i < |fan| ==> SameLink(size, m, m', fan[i])
    ensures Chain(size, m', q, fan[1..])
  {
    if |fan| > 1 {
      assert m[fan[0].d].pend[fan[0].k].nextDep == fan[1];
      assert fan[1..][|fan| - 2] == fan[|fan| - 1];
    }
  }

  lemma ChainExtended<D>(size: nat, m: Heap<D>, m': Heap<D>, q: D, fan: seq<Ptr<D>>, n: Ptr<D>)
    requires q in m && q in m' && Chain(size, m, q, fan)
    requires IsNode(size, m', n) && m'[n.d].pend[n.k].nextDep == Null
    requires m'[q].first == (if fan == [] then n else m[q].first) && m'[q].last == n
    requires forall i :: 0 <= i < |fan| ==> fan[i] != n && IsNode(size, m', fan[i])
    requires forall i :: 0 <= i < |fan| - 1 ==> SameLink(size, m, m', fan[i])
    requires fan != [] ==> IsNode(size, m', fan[|fan| - 1]) && m'[fan[|fan| - 1].d].pend[fan[|fan| - 1].k].nextDep == n
    ensures Chain(size, m', q, fan + [n])
  {
    var fan' := fan + [n];
    forall i, j | 0 <= i < j < |fan'| && j == i + 1
      ensures m'[fan'[i].d].pend[fan'[i].k].nextDep == fan'[j]
    {
      if j < |fan| {
        assert SameLink(size, m, m', fan[i]) && m[fan[i].d].pend[fan[i].k].nextDep == fan[j];
      }
    }
  }

  // ----- appending a dependence -----

  function SetNode<D(==)>(m: Heap<D>, n: Ptr<D>, x: Node<D>): Heap<D>
    requires n.Src? && n.d in m && n.k < |m[n.d].pend|
  {
    m[n.d := m[n.d].(pend := m[n.d].pend[n.k := x])]
  }

  /** When p has a list, its last pointer is a node, and not n. */
  predicate LastOk<D(==)>(size: nat, m: Heap<D>, p: D, n: Ptr<D>) {
    p in m && (m[p].first.Src? ==> IsNode(size, m, m[p].last) && m[p].last != n)
  }

  /** addSrc1/2/3 and addMemDep: the stores of producer p gaining consumer node n. */
  function AddDep<D(==)>(size: nat, m: Heap<D>, p: D, n: Ptr<D>): Heap<D>
    requires IsNode(size, m, n) && LastOk(size, m, p, n)
  {
    var d := n.d;
    var m1 := m[d := m[d].(nDeps := m[d].nDeps + 1, pend := m[d].pend[n.k := m[d].pend[n.k].(isUsed := true)])];
    var m2 := if m1[p].first == Null then m1[p := m1[p].(first := n)]
              else SetNode(m1, m1[p].last, m1[m1[p].last.d].pend[m1[p].last.k].(nextDep := n));
    var m3 := SetNode(m2, n, m2[d].pend[n.k].(nextDep := Null));
    m3[p := m3[p].(last := n)]
  }

  function Appended<D(==)>(g: Graph<D>, p: D, n: Ptr<D>): Graph<D>
    requires p in g.fan && p in g.appended
  {
    Graph(g.fan[p := g.fan[p] + [n]], g.owner[n := p], g.appended[p := g.appended[p] + [n]], g.delivered)
  }

  /** What AddDep leaves in one cell. */
  lemma AddDepCell<D>(size: nat, m: Heap<D>, p: D, n: Ptr<D>, d: D)
    requires IsNode(size, m, n) && LastOk(size, m, p, n) && d in m
    ensures AddDep(size, m, p, n).Keys == m.Keys
    ensures var c, l := AddDep(size, m, p, n)[d], m[p].last;
            && |c.pend| == |m[d].pend|
            && c.nDeps == m[d].nDeps + (if d == n.d then 1 else 0)
            && c.first == (if d == p && m[p].first == Null then n else m[d].first)
            && c.last == (if d == p then n else m[d].last)
            && (forall k :: 0 <= k < |m[d].pend| ==>
                  c.pend[k] == if d == n.d && k == n.k then Node(true, Null)
                               else if m[p].first.Src? && d == l.d && k == l.k then m[d].pend[k].(nextDep := n)
                               else m[d].pend[k])
  {
  }

  /** The code's assertions for addSrc/addMemDep: the node is free. */
  ghost predicate CanAdd<D>(s: Sound<D>, p: D, n: Ptr<D>) {
    p in s.m && IsNode(s.size, s.m, n) && !s.m[n.d].pend[n.k].isUsed
  }

  lemma LastIsOwned<D>(s: Sound<D>, p: D)
    requires p in s.m
    ensures s.m[p].first.Src? <==> s.g.fan[p] != []
    ensures s.m[p].first.Src? ==>
              && s.m[p].last == s.g.fan[p][|s.g.fan[p]| - 1]
              && IsNode(s.size, s.m, s.m[p].last)
              && s.m[p].last in s.g.owner && s.g.owner[s.m[p].last] == p
  {
    assert ListOk(s.size, s.m, s.g, p);
    assert Owns(s.g, p);
  }

  lemma FreeNodeIsUnowned<D>(s: Sound<D>, p: D, n: Ptr<D>)
    requires CanAdd(s, p, n)
    ensures n !in s.g.owner && LastOk(s.size, s.m, p, n)
  {
    assert Flagged(s.m, s.g, n.d);
    assert n == Src(n.d, n.k);
    LastIsOwned(s, p);
  }

  lemma AddKeepsCells<D>(s: Sound<D>, p: D, n: Ptr<D>, d: D)
    requires CanAdd(s, p, n) && LastOk(s.size, s.m, p, n) && d in s.m
    ensures d in AddDep(s.size, s.m, p, n) && CellOk(s.size, AddDep(s.size, s.m, p, n)[d])
  {
    assert CellOk(s.size, s.m[d]);
    AddDepCell(s.size, s.m, p, n, d);
    var c := AddDep(s.size, s.m, p, n)[d];
    if d == n.d {
      UsedCountFlip(s.m[d].pend, c.pend, n.k);
    } else {
      UsedCountSame(s.m[d].pend, c.pend);
    }
  }

  /** How the nodes on q's list look after AddDep. */
  lemma AddOnList<D>(s: Sound<D>, p: D, n: Ptr<D>, q: D, i: nat)
    requires CanAdd(s, p, n) && LastOk(s.size, s.m, p, n) && n !in s.g.owner
    requires q in s.m && i < |s.g.fan[q]|
    ensures var m', x := AddDep(s.size, s.m, p, n), s.g.fan[q][i];
            && x != n && IsNode(s.size, s.m, x) && IsNode(s.size, m', x)
            && (!(q == p && i + 1 == |s.g.fan[p]|) ==> SameLink(s.size, s.m, m', x))
            && (q == p && i + 1 == |s.g.fan[p]| ==> m'[x.d].pend[x.k].nextDep == n)
  {
    var x := s.g.fan[q][i];
    LastIsOwned(s, p);
    assert ListOk(s.size, s.m, s.g, q);
    assert Owns(s.g, q);
    AddDepCell(s.size, s.m, p, n, x.d);
  }

  lemma AddKeepsOtherChain<D>(s: Sound<D>, p: D, n: Ptr<D>, q: D)
    requires CanAdd(s, p, n) && LastOk(s.size, s.m, p, n) && n !in s.g.owner && q in s.m && q != p
    ensures q in AddDep(s.size, s.m, p, n) && Chain(s.size, AddDep(s.size, s.m, p, n), q, s.g.fan[q])
  {
    var m', fan := AddDep(s.size, s.m, p, n), s.g.fan[q];
    AddDepCell(s.size, s.m, p, n, q);
    assert ListOk(s.size, s.m, s.g, q);
    forall i | 0 <= i < |fan| ensures SameLink(s.size, s.m, m', fan[i]) {
      AddOnList(s, p, n, q, i);
    }
    ChainKept(s.size, s.m, m', q, fan);
  }

  lemma AddExtendsChain<D>(s: Sound<D>, p: D, n: Ptr<D>)
    requires CanAdd(s, p, n) && LastOk(s.size, s.m, p, n) && n !in s.g.owner
    ensures p in AddDep(s.size, s.m, p, n) && Chain(s.size, AddDep(s.size, s.m, p, n), p, s.g.fan[p] + [n])
  {
    var m', fan := AddDep(s.size, s.m, p, n), s.g.fan[p];
    AddDepCell(s.size, s.m, p, n, p);
    AddDepCell(s.size, s.m, p, n, n.d);
    assert ListOk(s.size, s.m, s.g, p);
    forall i | 0 <= i < |fan|
      ensures fan[i] != n && IsNode(s.size, m', fan[i])
      ensures i < |fan| - 1 ==> SameLink(s.size, s.m, m', fan[i])
      ensures i == |fan| - 1 ==> m'[fan[i].d].pend[fan[i].k].nextDep == n
    {
      AddOnList(s, p, n, p, i);
    }
    ChainExtended(s.size, s.m, m', p, fan, n);
  }

  lemma AddKeepsDomains<D>(s: Sound<D>, p: D, n: Ptr<D>)
    requires CanAdd(s, p, n) && LastOk(s.size, s.m, p, n)
    ensures Domains(AddDep(s.size, s.m, p, n), Appended(s.g, p, n))
  {
    AddDepCell(s.size, s.m, p, n, p);
  }

  lemma Regroup<T>(a: seq<T>, b: seq<T>, x: T)
    ensures a + (b + [x]) == (a + b) + [x]
  {
  }

  lemma AddKeepsList<D>(s: Sound<D>, p: D, n: Ptr<D>, q: D)
    requires CanAdd(s, p, n) && LastOk(s.size, s.m, p, n) && n !in s.g.owner && q in s.m
    requires Domains(AddDep(s.size, s.m, p, n), Appended(s.g, p, n))
    ensures ListOk(s.size, AddDep(s.size, s.m, p, n), Appended(s.g, p, n), q)
  {
    assert s.g.delivered[q] + s.g.fan[q] == s.g.appended[q] by {
      assert ListOk(s.size, s.m, s.g, q);
    }
    if q == p {
      AddExtendsChain(s, p, n);
      Regroup(s.g.delivered[p], s.g.fan[p], n);
    } else {
      AddKeepsOtherChain(s, p, n, q);
    }
  }

  lemma AddKeepsFlags<D>(s: Sound<D>, p: D, n: Ptr<D>, d: D)
    requires CanAdd(s, p, n) && LastOk(s.size, s.m, p, n) && d in s.m
    ensures d in AddDep(s.size, s.m, p, n) && Flagged(AddDep(s.size, s.m, p, n), Appended(s.g, p, n), d)
  {
    assert Flagged(s.m, s.g, d);
    AddDepCell(s.size, s.m, p, n, d);
  }

  lemma AddKeepsPlaced<D>(s: Sound<D>, p: D, n: Ptr<D>, x: Ptr<D>)
    requires CanAdd(s, p, n) && LastOk(s.size, s.m, p, n)
    requires x in Appended(s.g, p, n).owner && Domains(AddDep(s.size, s.m, p, n), Appended(s.g, p, n))
    ensures Placed(s.size, AddDep(s.size, s.m, p, n), Appended(s.g, p, n), x)
  {
    if x == n {
      AddDepCell(s.size, s.m, p, n, n.d);
      assert Appended(s.g, p, n).fan[p][|s.g.fan[p]|] == n;
    } else {
      assert Placed(s.size, s.m, s.g, x);
      AddDepCell(s.size, s.m, p, n, x.d);
    }
  }

  lemma AddKeepsOwns<D>(s: Sound<D>, p: D, n: Ptr<D>, q: D)
    requires p in s.m && q in s.m && n !in s.g.owner
    ensures Owns(Appended(s.g, p, n), q)
  {
    assert Owns(s.g, q);
  }

  lemma AddRepresents<D>(s: Sound<D>, p: D, n: Ptr<D>)
    requires CanAdd(s, p, n) && LastOk(s.size, s.m, p, n) && n !in s.g.owner
    ensures Represents(State(s.size, AddDep(s.size, s.m, p, n), Appended(s.g, p, n)))
  {
    var m', g' := AddDep(s.size, s.m, p, n), Appended(s.g, p, n);
    AddKeepsDomains(s, p, n);
    forall d | d in m' ensures CellOk(s.size, m'[d]) && Flagged(m', g', d) {
      AddKeepsCells(s, p, n, d);
      AddKeepsFlags(s, p, n, d);
    }
    forall q | q in m' ensures ListOk(s.size, m', g', q) && Owns(g', q) {
      AddKeepsList(s, p, n, q);
      AddKeepsOwns(s, p, n, q);
    }
    forall x | x in g'.owner ensures Placed(s.size, m', g', x) {
      AddKeepsPlaced(s, p, n, x);
    }
  }

  /** addSrc1/2/3, addMemDep: the new node goes to the end of p's list and nothing else moves. */
  lemma AddDepRepresents<D>(s: Sound<D>, p: D, n: Ptr<D>)
    requires CanAdd(s, p, n)
    ensures LastOk(s.size, s.m, p, n)
    ensures Represents(State(s.size, AddDep(s.size, s.m, p, n), Appended(s.g, p, n)))
  {
    FreeNodeIsUnowned(s, p, n);
    AddRepresents(s, p, n);
  }

  ghost function Added<D>(s: Sound<D>, p: D, n: Ptr<D>): (r: Sound<D>)
    requires CanAdd(s, p, n)
    ensures LastOk(s.size, s.m, p, n) && p in s.g.fan && p in s.g.appended
    ensures r == State(s.size, AddDep(s.size, s.m, p, n), Appended(s.g, p, n))
  {
    AddDepRepresents(s, p, n);
    State(s.size, AddDep(s.size, s.m, p, n), Appended(s.g, p, n))
  }

  // ----- delivering the oldest dependence -----

  predicate FirstOk<D(==)>(size: nat, m: Heap<D>, p: D) {
    p in m && IsNode(size, m, m[p].first) && m[m[p].first.d].nDeps > 0
  }

  /** getNextPending and getNextMemPending: the stores. */
  function TakeFirst<D(==)>(size: nat, m: Heap<D>, p: D): Heap<D>
    requires FirstOk(size, m, p)
  {
    var n, d := m[p].first, m[p].first.d;
    var m1 := m[d := m[d].(nDeps := m[d].nDeps - 1, pend := m[d].pend[n.k := m[d].pend[n.k].(isUsed := false)])];
    m1[p := m1[p].(first := m1[d].pend[n.k].nextDep)]
  }

  function Delivered<D(==)>(g: Graph<D>, p: D): Graph<D>
    requires p in g.fan && p in g.delivered && g.fan[p] != []
  {
    Graph(g.fan[p := g.fan[p][1..]], g.owner - {g.fan[p][0]}, g.appended,
          g.delivered[p := g.delivered[p] + [g.fan[p][0]]])
  }

  ghost predicate CanTake<D>(s: Sound<D>, p: D) {
    && FirstOk(s.size, s.m, p) && s.m[s.m[p].first.d].pend[s.m[p].first.k].isUsed
    && s.g.fan[p] != [] && s.m[p].first == s.g.fan[p][0]
  }

  /** The code's assertions in getNextPending follow from the list being non-empty. */
  lemma FirstIsUsed<D>(s: Sound<D>, p: D)
    requires p in s.m && s.m[p].first.Src?
    ensures CanTake(s, p)
  {
    assert ListOk(s.size, s.m, s.g, p);
    assert Owns(s.g, p);
    var n := s.g.fan[p][0];
    assert Placed(s.size, s.m, s.g, n);
    assert n == Src(n.d, n.k);
    assert Flagged(s.m, s.g, n.d);
    assert CellOk(s.size, s.m[n.d]);
    UsedImpliesPositive(s.m[n.d].pend, n.k);
  }

  lemma TakeFirstCell<D>(size: nat, m: Heap<D>, p: D, d: D)
    requires FirstOk(size, m, p) && d in m
    ensures TakeFirst(size, m, p).Keys == m.Keys
    ensures var c, n := TakeFirst(size, m, p)[d], m[p].first;
            && |c.pend| == |m[d].pend|
            && c.nDeps == m[d].nDeps - (if d == n.d then 1 else 0)
            && c.first == (if d == p then m[n.d].pend[n.k].nextDep else m[d].first)
            && c.last == m[d].last
            && (forall k :: 0 <= k < |m[d].pend| ==>
                  c.pend[k] == if d == n.d && k == n.k then m[d].pend[k].(isUsed := false) else m[d].pend[k])
  {
  }

  lemma TakeKeepsCells<D>(s: Sound<D>, p: D, d: D)
    requires CanTake(s, p) && d in s.m
    ensures d in TakeFirst(s.size, s.m, p) && CellOk(s.size, TakeFirst(s.size, s.m, p)[d])
  {
    assert CellOk(s.size, s.m[d]);
    TakeFirstCell(s.size, s.m, p, d);
    var c := TakeFirst(s.size, s.m, p)[d];
    if d == s.m[p].first.d {
      UsedCountFlip(c.pend, s.m[d].pend, s.m[p].first.k);
    } else {
      UsedCountSame(s.m[d].pend, c.pend);
    }
  }

  lemma TakeKeepsChain<D>(s: Sound<D>, p: D, q: D)
    requires CanTake(s, p) && q in s.m
    ensures q in TakeFirst(s.size, s.m, p)
    ensures Chain(s.size, TakeFirst(s.size, s.m, p), q, if q == p then s.g.fan[p][1..] else s.g.fan[q])
  {
    var m', fan := TakeFirst(s.size, s.m, p), s.g.fan[q];
    TakeFirstCell(s.size, s.m, p, q);
    assert ListOk(s.size, s.m, s.g, q);
    forall i | 0 <= i < |fan| ensures SameLink(s.size, s.m, m', fan[i]) {
      assert IsNode(s.size, s.m, fan[i]);
      TakeFirstCell(s.size, s.m, p, fan[i].d);
    }
    if q == p {
      ChainTail(s.size, s.m, m', q, fan);
    } else {
      ChainKept(s.size, s.m, m', q, fan);
    }
  }

  lemma TakeKeepsDomains<D>(s: Sound<D>, p: D)
    requires CanTake(s, p)
    ensures Domains(TakeFirst(s.size, s.m, p), Delivered(s.g, p))
  {
    TakeFirstCell(s.size, s.m, p, p);
  }

  lemma MoveAcross<T>(a: seq<T>, b: seq<T>)
    requires b != []
    ensures (a + [b[0]]) + b[1..] == a + b
  {
  }

  lemma TakeKeepsList<D>(s: Sound<D>, p: D, q: D)
    requires CanTake(s, p) && q in s.m
    requires Domains(TakeFirst(s.size, s.m, p), Delivered(s.g, p))
    ensures ListOk(s.size, TakeFirst(s.size, s.m, p), Delivered(s.g, p), q)
  {
    assert s.g.delivered[q] + s.g.fan[q] == s.g.appended[q] by {
      assert ListOk(s.size, s.m, s.g, q);
    }
    TakeKeepsChain(s, p, q);
    if q == p {
      MoveAcross(s.g.delivered[p], s.g.fan[p]);
    }
  }

  lemma TakeKeepsPlaced<D>(s: Sound<D>, p: D, x: Ptr<D>)
    requires CanTake(s, p)
    requires x in Delivered(s.g, p).owner && Domains(TakeFirst(s.size, s.m, p), Delivered(s.g, p))
    ensures Placed(s.size, TakeFirst(s.size, s.m, p), Delivered(s.g, p), x)
  {
    assert Placed(s.size, s.m, s.g, x);
    TakeFirstCell(s.size, s.m, p, x.d);
    var fan := s.g.fan[s.g.owner[x]];
    var i :| 0 <= i < |fan| && fan[i] == x;
    if s.g.owner[x] == p {
      assert fan[1..][i - 1] == x;
    }
  }

  lemma TakeKeepsFlags<D>(s: Sound<D>, p: D, d: D)
    requires CanTake(s, p) && d in s.m
    ensures d in TakeFirst(s.size, s.m, p) && Flagged(TakeFirst(s.size, s.m, p), Delivered(s.g, p), d)
  {
    assert Flagged(s.m, s.g, d);
    TakeFirstCell(s.size, s.m, p, d);
  }

  lemma TakeKeepsOwns<D>(s: Sound<D>, p: D, q: D)
    requires CanTake(s, p) && q in s.m
    ensures Owns(Delivered(s.g, p), q)
  {
    assert Owns(s.g, q);
    assert Owns(s.g, p);
    assert ListOk(s.size, s.m, s.g, q);
    var g' := Delivered(s.g, p);
    forall i | 0 <= i < |g'.fan[q]| ensures g'.fan[q][i] in g'.owner && g'.owner[g'.fan[q][i]] == q {
      assert g'.fan[q][i] == if q == p then s.g.fan[q][i + 1] else s.g.fan[q][i];
    }
  }

  lemma TakeRepresents<D>(s: Sound<D>, p: D)
    requires CanTake(s, p)
    ensures Represents(State(s.size, TakeFirst(s.size, s.m, p), Delivered(s.g, p)))
  {
    var m', g' := TakeFirst(s.size, s.m, p), Delivered(s.g, p);
    TakeKeepsDomains(s, p);
    forall d | d in m' ensures CellOk(s.size, m'[d]) && Flagged(m', g', d) {
      TakeKeepsCells(s, p, d);
      TakeKeepsFlags(s, p, d);
    }
    forall q | q in m' ensures ListOk(s.size, m', g', q) && Owns(g', q) {
      TakeKeepsList(s, p, q);
      TakeKeepsOwns(s, p, q);
    }
    forall x | x in g'.owner ensures Placed(s.size, m', g', x) {
      TakeKeepsPlaced(s, p, x);
    }
  }

  /** getNextPending, getNextMemPending: the oldest waiting node of p is delivered. */
  lemma TakeFirstRepresents<D>(s: Sound<D>, p: D)
    requires p in s.m && s.m[p].first.Src?
    ensures FirstOk(s.size, s.m, p)
    ensures s.g.fan[p] != [] && s.m[p].first == s.g.fan[p][0]
    ensures Represents(State(s.size, TakeFirst(s.size, s.m, p), Delivered(s.g, p)))
  {
    FirstIsUsed(s, p);
    TakeRepresents(s, p);
  }

  ghost function Taken<D>(s: Sound<D>, p: D): (r: Sound<D>)
    requires p in s.m && s.m[p].first.Src?
    ensures FirstOk(s.size, s.m, p)
    ensures p in s.g.fan && p in s.g.delivered && s.g.fan[p] != [] && s.m[p].first == s.g.fan[p][0]
    ensures r == State(s.size, TakeFirst(s.size, s.m, p), Delivered(s.g, p))
  {
    TakeFirstRepresents(s, p);
    State(s.size, TakeFirst(s.size, s.m, p), Delivered(s.g, p))
  }
}
