/** In-flight instructions: DInst, its intrusive dependence lists and the pool it comes from.

    A DInst keeps its register side in `reg` (`pend[0..2]`, `nDeps`, `first`, `last`) and its
    store-set side in `mem` (`memPend`, `memDep` as 0 or 1, `memFirst`, `memLast`). A pointer to
    node k of d is `Src(d, k)`; the node's back pointer is the `d` in it. */
module DInsts {
  import opened DepSpec
  import opened DepRuns
  import opened DepFlush

  const MAX_PENDING_SOURCES: nat := 3

  /** The fields a clone copies and nothing in this model updates. */
  datatype Payload = Payload(fid: nat, opcode: nat, pc: nat, addr: nat, keepStats: bool)

  ghost function RegCells(S: set<DInst>): Heap<DInst>
    reads S`reg
  {
    map d | d in S :: d.reg
  }

  ghost function MemCells(S: set<DInst>): Heap<DInst>
    reads S`mem
  {
    map d | d in S :: d.mem
  }

  class DInst {
    const ID: nat
    const payload: Payload

    var reg: Cell<DInst>
    var mem: Cell<DInst>

    var issued: bool
    var executed: bool
    var poisoned: bool

    /** Waits for nothing, nothing waits for it, not yet issued. */
    ghost predicate Pristine()
      reads this
    {
      && reg == Cell([Node(false, Null), Node(false, Null), Node(false, Null)], 0, Null, Null)
      && mem == Cell([Node(false, Null)], 0, Null, Null)
      && !issued && !executed && !poisoned
    }

    constructor (id: nat, p: Payload)
      ensures ID == id && payload == p && Pristine()
    {
      ID, payload := id, p;
      reg := Cell([Node(false, Null), Node(false, Null), Node(false, Null)], 0, Null, Null);
      mem := Cell([Node(false, Null)], 0, Null, Null);
      issued, executed, poisoned := false, false, false;
    }

    predicate HasPending()
      reads this`reg
    {
      reg.first.Src?
    }

    predicate HasMemPending()
      reads this`mem
    {
      mem.first.Src?
    }

    // ----- register dependences -----

    /** One store to the register-side fields, seen from the window. */
    method StoreReg(c: Cell<DInst>, ghost live: set<DInst>)
      requires this in live
      modifies this`reg
      ensures reg == c && RegCells(live) == old(RegCells(live))[this := c]
      ensures MemCells(live) == old(MemCells(live))
    {
      reg := c;
    }

    /** The stores of AddSrc. */
    method LinkSrc(d: DInst, k: nat, ghost live: set<DInst>)
      requires this in live && d in live
      requires IsNode(3, RegCells(live), Src(d, k)) && LastOk(3, RegCells(live), this, Src(d, k))
      modifies live`reg
      ensures RegCells(live) == AddDep(3, old(RegCells(live)), this, Src(d, k))
    {
      d.StoreReg(d.reg.(nDeps := d.reg.nDeps + 1, pend := d.reg.pend[k := d.reg.pend[k].(isUsed := true)]), live);
      if reg.first == Null {
        StoreReg(reg.(first := Src(d, k)), live);
      } else {
        var l := reg.last;
        l.d.StoreReg(l.d.reg.(pend := l.d.reg.pend[l.k := l.d.reg.pend[l.k].(nextDep := Src(d, k))]), live);
      }
      d.StoreReg(d.reg.(pend := d.reg.pend[k := d.reg.pend[k].(nextDep := Null)]), live);
      StoreReg(reg.(last := Src(d, k)), live);
    }

    /** Node k of the younger instruction d waits for this instruction (addSrc1, 2 and 3). */
    method AddSrc(d: DInst, k: nat, w: Window)
      requires w.RegValid() && this in w.live && d in w.live
      requires k < MAX_PENDING_SOURCES && k < |d.reg.pend| && !d.reg.pend[k].isUsed
      modifies w`reg, w.live`reg
      ensures w.RegValid()
      ensures w.reg.g == Appended(old(w.reg.g), this, Src(d, k))
      ensures w.reg.g.fan[this] == old(w.reg.g).fan[this] + [Src(d, k)]
      ensures d.reg.nDeps == old(d.reg.nDeps) + 1 && |d.reg.pend| == old(|d.reg.pend|) && d.reg.pend[k].isUsed
    {
      ghost var s := Added(w.reg, this, Src(d, k));
      AddDepCell(3, w.reg.m, this, Src(d, k), d);
      LinkSrc(d, k, w.live);
      w.SetReg(s);
      assert d.reg == w.reg.m[d];
    }

    /** The stores of GetNextPending. */
    method UnlinkFirst(ghost live: set<DInst>) returns (n: DInst)
      requires this in live && FirstOk(3, RegCells(live), this)
      modifies live`reg
      ensures n == old(reg.first.d)
      ensures RegCells(live) == TakeFirst(3, old(RegCells(live)), this)
      ensures MemCells(live) == old(MemCells(live))
    {
      var k := reg.first.k;
      n := reg.first.d;
      n.StoreReg(n.reg.(nDeps := n.reg.nDeps - 1, pend := n.reg.pend[k := n.reg.pend[k].(isUsed := false)]), live);
      StoreReg(reg.(first := n.reg.pend[k].nextDep), live);
    }

    method TakeReg(w: Window) returns (n: DInst)
      requires w.RegValid() && this in w.live && HasPending()
      modifies w`reg, w.live`reg
      ensures w.RegValid() && n == old(reg.first.d)
      ensures w.reg == Taken(old(w.reg), this)
      ensures MemCells(w.live) == old(MemCells(w.live))
    {
      ghost var s := Taken(w.reg, this);
      n := UnlinkFirst(w.live);
      w.SetReg(s);
    }

    /** The oldest instruction waiting for this one stops waiting and is returned. */
    method GetNextPending(w: Window) returns (n: DInst)
      requires w.RegValid() && this in w.live && HasPending()
      modifies w`reg, w.live`reg
      ensures w.RegValid()
      ensures this in old(w.reg.g).fan && Heads(old(w.reg.g).fan[this], n)
      ensures w.reg.g == Delivered(old(w.reg.g), this)
      ensures MemCells(w.live) == old(MemCells(w.live))
    {
      n := TakeReg(w);
    }

    // ----- store-set dependences -----

    method StoreMem(c: Cell<DInst>, ghost live: set<DInst>)
      requires this in live
      modifies this`mem
      ensures mem == c && MemCells(live) == old(MemCells(live))[this := c]
      ensures RegCells(live) == old(RegCells(live))
    {
      mem := c;
    }

    /** The stores of AddMemDep; the single memory node is node 0, and setting memDep counts it. */
    method LinkMem(d: DInst, ghost live: set<DInst>)
      requires this in live && d in live
      requires IsNode(1, MemCells(live), Src(d, 0)) && LastOk(1, MemCells(live), this, Src(d, 0))
      modifies live`mem
      ensures MemCells(live) == AddDep(1, old(MemCells(live)), this, Src(d, 0))
    {
      d.StoreMem(d.mem.(nDeps := d.mem.nDeps + 1, pend := d.mem.pend[0 := d.mem.pend[0].(isUsed := true)]), live);
      if mem.first == Null {
        StoreMem(mem.(first := Src(d, 0)), live);
      } else {
        var l := mem.last;
        l.d.StoreMem(l.d.mem.(pend := l.d.mem.pend[l.k := l.d.mem.pend[l.k].(nextDep := Src(d, 0))]), live);
      }
      d.StoreMem(d.mem.(pend := d.mem.pend[0 := d.mem.pend[0].(nextDep := Null)]), live);
      StoreMem(mem.(last := Src(d, 0)), live);
    }

    /** The younger instruction d waits for this one through memory. */
    method AddMemDep(d: DInst, w: Window)
      requires w.MemValid() && this in w.live && d in w.live
      requires d.mem.nDeps == 0
      modifies w`mem, w.live`mem
      ensures w.MemValid()
      ensures w.mem.g == Appended(old(w.mem.g), this, Src(d, 0))
      ensures w.mem.g.fan[this] == old(w.mem.g).fan[this] + [Src(d, 0)]
    {
      w.MemFlag(d);
      ghost var s := Added(w.mem, this, Src(d, 0));
      LinkMem(d, w.live);
      w.SetMem(s);
    }

    method UnlinkMemFirst(ghost live: set<DInst>) returns (n: DInst)
      requires this in live && FirstOk(1, MemCells(live), this)
      modifies live`mem
      ensures n == old(mem.first.d)
      ensures MemCells(live) == TakeFirst(1, old(MemCells(live)), this)
      ensures RegCells(live) == old(RegCells(live))
    {
      var k := mem.first.k;
      n := mem.first.d;
      n.StoreMem(n.mem.(nDeps := n.mem.nDeps - 1, pend := n.mem.pend[k := n.mem.pend[k].(isUsed := false)]), live);
      StoreMem(mem.(first := n.mem.pend[k].nextDep), live);
    }

    method TakeMem(w: Window) returns (n: DInst)
      requires w.MemValid() && this in w.live && HasMemPending()
      modifies w`mem, w.live`mem
      ensures w.MemValid() && n == old(mem.first.d)
      ensures w.mem == Taken(old(w.mem), this)
      ensures RegCells(w.live) == old(RegCells(w.live))
    {
      ghost var s := Taken(w.mem, this);
      n := UnlinkMemFirst(w.live);
      w.SetMem(s);
    }

    method GetNextMemPending(w: Window) returns (n: DInst)
      requires w.MemValid() && this in w.live && HasMemPending()
      modifies w`mem, w.live`mem
      ensures w.MemValid()
      ensures this in old(w.mem.g).fan && Heads(old(w.mem.g).fan[this], n)
      ensures w.mem.g == Delivered(old(w.mem.g), this)
      ensures RegCells(w.live) == old(RegCells(w.live))
    {
      n := TakeMem(w);
    }

    // ----- flushing -----

    method DropOne(w: Window, ghost g: Graph<DInst>, ghost i: nat)
      requires w.RegValid() && this in w.live && HasPending()
      requires this in g.fan && this in g.delivered && i <= |g.fan[this]| && w.reg.g == TakenUpTo(g, this, i)
      modifies w`reg, w.live`reg
      ensures w.RegValid() && MemCells(w.live) == old(MemCells(w.live))
      ensures i < |g.fan[this]| && w.reg.g == TakenUpTo(g, this, i + 1)
    {
      w.RegList(this);
      TakeNext(g, this, i);
      var _ := GetNextPending(w);
    }

    /** The first loop of markPoisoned. A node always has an owner here, so the loop's null
        test never fires. */
    method DropPending(w: Window)
      requires w.RegValid() && this in w.live
      modifies w`reg, w.live`reg
      ensures w.RegValid() && !HasPending() && MemCells(w.live) == old(MemCells(w.live))
      ensures w.reg.g == WithoutProducers(old(w.reg.g), {this})
    {
      ghost var g, i := w.reg.g, 0;
      w.RegList(this);
      TakeNone(g, this);
      while HasPending()
        invariant w.RegValid() && this in w.live
        invariant i <= |g.fan[this]| && w.reg.g == TakenUpTo(g, this, i)
        invariant MemCells(w.live) == old(MemCells(w.live))
        decreases |g.fan[this]| - i
      {
        DropOne(w, g, i);
        i := i + 1;
      }
      w.RegList(this);
      TakeAll(old(w.reg), this);
    }

    method DropOneMem(w: Window, ghost g: Graph<DInst>, ghost i: nat)
      requires w.MemValid() && this in w.live && HasMemPending()
      requires this in g.fan && this in g.delivered && i <= |g.fan[this]| && w.mem.g == TakenUpTo(g, this, i)
      modifies w`mem, w.live`mem
      ensures w.MemValid() && RegCells(w.live) == old(RegCells(w.live))
      ensures i < |g.fan[this]| && w.mem.g == TakenUpTo(g, this, i + 1)
    {
      w.MemList(this);
      TakeNext(g, this, i);
      var _ := GetNextMemPending(w);
    }

    /** The second loop of markPoisoned. */
    method DropMemPending(w: Window)
      requires w.MemValid() && this in w.live
      modifies w`mem, w.live`mem
      ensures w.MemValid() && !HasMemPending() && RegCells(w.live) == old(RegCells(w.live))
      ensures w.mem.g == WithoutProducers(old(w.mem.g), {this})
    {
      ghost var g, i := w.mem.g, 0;
      w.MemList(this);
      TakeNone(g, this);
      while HasMemPending()
        invariant w.MemValid() && this in w.live
        invariant i <= |g.fan[this]| && w.mem.g == TakenUpTo(g, this, i)
        invariant RegCells(w.live) == old(RegCells(w.live))
        decreases |g.fan[this]| - i
      {
        DropOneMem(w, g, i);
        i := i + 1;
      }
      w.MemList(this);
      TakeAll(old(w.mem), this);
    }

    method SetPoisoned(ghost live: set<DInst>)
      modifies this`issued, this`executed, this`poisoned
      ensures poisoned && issued && executed == (old(issued) ==> old(executed))
      ensures RegCells(live) == old(RegCells(live)) && MemCells(live) == old(MemCells(live))
    {
      if !issued {
        issued, executed := true, true;
      }
      poisoned := true;
    }

    /** Flushed: nothing waits for this instruction any more, and it counts as executed unless
        it is already on its way. */
    method MarkPoisoned(w: Window)
      requires w.Valid() && this in w.live
      modifies w`reg, w.live`reg, w`mem, w.live`mem
      modifies this`issued, this`executed, this`poisoned
      ensures w.Valid()
      ensures w.reg.g == WithoutProducers(old(w.reg.g), {this})
      ensures w.mem.g == WithoutProducers(old(w.mem.g), {this})
      ensures !HasPending() && !HasMemPending() && poisoned && issued
      ensures executed == (old(issued) ==> old(executed))
    {
      DropPending(w);
      DropMemPending(w);
      SetPoisoned(w.live);
    }
  }

  /** The first node of the list belongs to n. */
  ghost predicate Heads(fan: seq<Ptr<DInst>>, n: DInst) {
    fan != [] && fan[0].Src? && fan[0].d == n
  }

  /** The instructions in flight, and the graphs their pointers stand for. */
  class Window {
    ghost var live: set<DInst>
    ghost var reg: Sound<DInst>
    ghost var mem: Sound<DInst>

    ghost predicate RegValid()
      reads this`live, this`reg, live`reg
    {
      reg == State(3, RegCells(live), reg.g)
    }

    ghost predicate MemValid()
      reads this`live, this`mem, live`mem
    {
      mem == State(1, MemCells(live), mem.g)
    }

    ghost predicate Valid()
      reads this, live
    {
      RegValid() && MemValid()
    }

    constructor ()
      ensures Valid() && live == {}
      ensures reg.g == mem.g == Graph(map[], map[], map[], map[])
    {
      live, reg, mem := {}, Nothing(3), Nothing(1);
    }

    ghost method SetReg(s: Sound<DInst>)
      modifies this`reg
      ensures reg == s && RegCells(live) == old(RegCells(live)) && MemCells(live) == old(MemCells(live))
    {
      reg := s;
    }

    ghost method SetMem(s: Sound<DInst>)
      modifies this`mem
      ensures mem == s && MemCells(live) == old(MemCells(live)) && RegCells(live) == old(RegCells(live))
    {
      mem := s;
    }

    ghost method SetLive(S: set<DInst>)
      modifies this`live
      ensures live == S && RegCells(S) == old(RegCells(S)) && MemCells(S) == old(MemCells(S))
    {
      live := S;
    }

    ghost method Replace(S: set<DInst>, r: Sound<DInst>, m: Sound<DInst>)
      requires r == State(3, RegCells(S), r.g) && m == State(1, MemCells(S), m.g)
      modifies this
      ensures live == S && reg == r && mem == m && Valid()
    {
      SetLive(S);
      SetReg(r);
      SetMem(m);
    }

    lemma RegList(p: DInst)
      requires RegValid() && p in live
      ensures p in reg.g.fan && p in reg.g.delivered
      ensures p.HasPending() <==> reg.g.fan[p] != []
    {
      assert reg.m[p] == p.reg;
      LastIsOwned(reg, p);
    }

    lemma MemList(p: DInst)
      requires MemValid() && p in live
      ensures p in mem.g.fan && p in mem.g.delivered
      ensures p.HasMemPending() <==> mem.g.fan[p] != []
    {
      assert mem.m[p] == p.mem;
      LastIsOwned(mem, p);
    }

    /** memDep and memPend.isUsed say the same. */
    lemma MemFlag(d: DInst)
      requires MemValid() && d in live
      ensures |d.mem.pend| == 1 && (d.mem.nDeps == 0 <==> !d.mem.pend[0].isUsed)
    {
      assert CellOk(1, mem.m[d]) && mem.m[d] == d.mem;
      if d.mem.pend[0].isUsed {
        UsedImpliesPositive(d.mem.pend, 0);
      } else {
        UnusedCount(d.mem.pend);
      }
    }

    /** A free register node leaves room in the count: the assertion at the head of addSrc. */
    lemma RoomForSource(d: DInst, k: nat)
      requires RegValid() && d in live && k < |d.reg.pend| && !d.reg.pend[k].isUsed
      ensures d.reg.nDeps < MAX_PENDING_SOURCES
    {
      assert CellOk(3, reg.m[d]) && reg.m[d] == d.reg;
      FreeNodeLeavesRoom(d.reg.pend, k);
    }

    lemma EnterReg(d: DInst) returns (r: Sound<DInst>)
      requires RegValid() && d !in live && d.Pristine()
      ensures r == State(3, RegCells(live + {d}), Created(reg.g, d))
    {
      assert RegCells(live + {d}) == reg.m[d := d.reg];
      r := Entered(reg, d, d.reg);
    }

    lemma EnterMem(d: DInst) returns (m: Sound<DInst>)
      requires MemValid() && d !in live && d.Pristine()
      ensures m == State(1, MemCells(live + {d}), Created(mem.g, d))
    {
      assert MemCells(live + {d}) == mem.m[d := d.mem];
      m := Entered(mem, d, d.mem);
    }

    lemma LeaveReg(d: DInst) returns (r: Sound<DInst>)
      requires RegValid() && d in live && d.reg.nDeps == 0 && !d.HasPending()
      ensures r == State(3, RegCells(live - {d}), Forgotten(reg.g, d))
    {
      assert RegCells(live - {d}) == reg.m - {d};
      r := Left(reg, d);
    }

    lemma LeaveMem(d: DInst) returns (m: Sound<DInst>)
      requires MemValid() && d in live && d.mem.nDeps == 0 && !d.HasMemPending()
      ensures m == State(1, MemCells(live - {d}), Forgotten(mem.g, d))
    {
      assert MemCells(live - {d}) == mem.m - {d};
      m := Left(mem, d);
    }

    /** A new instruction enters the window. */
    method Admit(d: DInst)
      requires Valid() && d !in live && d.Pristine()
      modifies this
      ensures Valid() && live == old(live) + {d}
      ensures reg.g == Created(old(reg.g), d) && mem.g == Created(old(mem.g), d)
    {
      ghost var r := EnterReg(d);
      ghost var m := EnterMem(d);
      Replace(live + {d}, r, m);
    }

    /** scrap: an instruction that waits for nothing and that nothing waits for leaves. */
    method Scrap(d: DInst)
      requires Valid() && d in live
      requires d.reg.nDeps == 0 && !d.HasPending() && d.mem.nDeps == 0 && !d.HasMemPending()
      modifies this
      ensures Valid() && live == old(live) - {d}
      ensures reg.g == Forgotten(old(reg.g), d) && mem.g == Forgotten(old(mem.g), d)
    {
      ghost var r := LeaveReg(d);
      ghost var m := LeaveMem(d);
      Replace(live - {d}, r, m);
    }

    /** Poison every instruction of the reorder buffer, in whatever order it lists them:
        exactly the edges whose producer is in it disappear. */
    method Flush(rob: seq<DInst>)
      requires Valid() && forall i :: 0 <= i < |rob| ==> rob[i] in live
      modifies this`reg, this`mem, live
      ensures Valid()
      ensures reg.g == WithoutProducers(old(reg.g), set d | d in rob)
      ensures mem.g == WithoutProducers(old(mem.g), set d | d in rob)
      ensures forall i :: 0 <= i < |rob| ==> rob[i].poisoned
    {
      ghost var S: set<DInst>, r, m := {}, reg.g, mem.g;
      RemoveNone(r);
      RemoveNone(m);
      for i := 0 to |rob|
        invariant live == old(live) && Valid()
        invariant S == set d | d in rob[..i]
        invariant reg.g == WithoutProducers(r, S) && mem.g == WithoutProducers(m, S)
        invariant forall j :: 0 <= j < i ==> rob[j].poisoned
      {
        rob[i].MarkPoisoned(this);
        RemoveAnother(r, S, rob[i]);
        RemoveAnother(m, S, rob[i]);
        S := S + {rob[i]};
        assert rob[..i + 1] == rob[..i] + [rob[i]];
      }
      assert rob[..|rob|] == rob;
    }
  }

  /** Where instructions come from. The free list itself is not modelled: taking an object out
      is an allocation. */
  class Pool {
    var currentID: nat

    constructor ()
      ensures currentID == 1
    {
      currentID := 1;
    }

    method Create(p: Payload) returns (d: DInst)
      modifies this
      ensures fresh(d) && d.Pristine() && d.payload == p
      ensures d.ID == old(currentID) && currentID == old(currentID) + 1
    {
      d := new DInst(currentID, p);
      currentID := currentID + 1;
    }

    /** A second object for the same instruction: same ID and payload, and the ID that setup()
        consumed is given back. */
    method Clone(d: DInst) returns (c: DInst)
      modifies this
      ensures fresh(c) && c.Pristine()
      ensures c.ID == d.ID && c.payload == d.payload && currentID == old(currentID)
    {
      currentID := currentID + 1;
      c := new DInst(d.ID, d.payload);
      currentID := currentID - 1;
    }
  }
}
