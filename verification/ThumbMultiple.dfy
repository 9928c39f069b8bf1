/** What the cracks of PUSH, STM and POP share, and PUSH itself, outside an IT block.

    A crack is a method that appends uops in loops over the register list; it is proved to
    emit a uop sequence given by the list alone, and running that sequence is proved to have
    the effect the instruction is for. */
module ThumbMultiple {
  import opened Bits
  import opened Uops
  import opened RegLists

  /** ARM register numbers 0 to 15. */
  predicate IsRegList(list: seq<nat>) {
    |list| <= 16 && forall i :: 0 <= i < |list| ==> list[i] < 16
  }

  /** What the listed registers hold. */
  function Values(list: seq<nat>, regs: seq<nat>): (vs: seq<nat>)
    requires IsRegList(list) && |regs| == NREGS
    ensures |vs| == |list| && forall k :: 0 <= k < |list| ==> vs[k] == regs[list[k] + 1]
  {
    seq(|list|, k requires 0 <= k < |list| => regs[list[k] + 1])
  }

  // ----- PUSH -----

  function PushChunk(r: nat, first: bool): seq<Uop> {
    (if first then [Uop(U32Add, TMP1, 0, 0, TMP1)] else []) +
    [Uop(U32St, TMP1, r + 1, 0, 0), Uop(U64Add, TMP1, 0, 4, TMP1)]
  }

  function PushBody(list: seq<nat>): seq<Uop> {
    if list == [] then []
    else PushBody(list[..|list| - 1]) + PushChunk(list[|list| - 1], |list| == 1)
  }

  function PushUops(list: seq<nat>): seq<Uop> {
    [Uop(U32Sub, STACKPTR, 0, 4 * |list|, TMP1)] + PushBody(list) +
    [Uop(U32Sub, STACKPTR, 0, 4 * |list|, STACKPTR)]
  }

  // ----- runs of a few uops -----

  lemma RunOne(u: Uop, s: Machine)
    requires WellFormed(u) && Shaped(s)
    ensures Run([u], s) == Exec(u, s)
  {
    assert [u][1..] == [];
    assert Run([u][1..], Exec(u, s)) == Exec(u, s);
  }

  lemma RunSnoc(us: seq<Uop>, u: Uop, s: Machine, s1: Machine)
    requires AllWellFormed(us) && WellFormed(u) && Shaped(s) && Run(us, s) == s1
    ensures AllWellFormed(us + [u]) && Run(us + [u], s) == Exec(u, s1)
  {
    assert AllWellFormed([u]);
    RunOne(u, s1);
    RunJoin(us, [u], s, s1);
  }

  lemma RunTwo(u: Uop, v: Uop, s: Machine)
    requires WellFormed(u) && WellFormed(v) && Shaped(s)
    ensures Run([u, v], s) == Exec(v, Exec(u, s))
  {
    assert [u, v][1..] == [v];
    RunOne(v, Exec(u, s));
  }

  lemma RunJoin(a: seq<Uop>, b: seq<Uop>, s: Machine, s1: Machine)
    requires AllWellFormed(a) && AllWellFormed(b) && Shaped(s) && Run(a, s) == s1
    ensures AllWellFormed(a + b) && Run(a + b, s) == Run(b, s1)
  {
    RunConcat(a, b, s);
  }

  // ----- what the uops of a multiple transfer do to registers and memory -----

  /** t has the registers of s but for those in `except`. */
  ghost predicate SameRegs(s: Core, t: Core, except: set<nat>) {
    && |s.regs| == |t.regs| == NREGS
    && forall r :: 0 <= r < NREGS && r !in except ==> t.regs[r] == s.regs[r]
  }

  function WithReg(c: Core, r: nat, v: nat): Core
    requires r < |c.regs|
  {
    c.(regs := c.regs[r := v])
  }

  lemma AddNothing(a: nat)
    requires a < W64
    ensures AddHalves(a, 0, 0) == a
  {
    DivModUnique(a / W32, W32, 0, a / W32);
  }

  lemma ExecCopy(r: nat, s: Machine)
    requires Valid(s) && r < NREGS
    ensures Exec(Uop(U32Add, r, 0, 0, TMP1), s).core == WithReg(s.core, TMP1, s.core.regs[r])
  {
    AddNothing(s.core.regs[r]);
  }

  lemma ExecStep(r: nat, s: Machine)
    requires Valid(s) && r < NREGS
    ensures Exec(Uop(U64Add, r, 0, 4, TMP1), s).core == WithReg(s.core, TMP1, (s.core.regs[r] + 4) % W64)
  {
  }

  lemma ExecStore(r: nat, s: Machine)
    requires Valid(s) && r < 16
    ensures Exec(Uop(U32St, TMP1, r + 1, 0, 0), s).core ==
            s.core.(mem := Store32(s.core.mem, Masked(s.core.regs[TMP1]), s.core.regs[r + 1]))
  {
    var v := s.core.regs[r + 1];
    DivModUnique(v, W32, 0, v);
    assert v % W32 == v;
  }

  /** Adding to or subtracting from a program register, modulo 2^32. */
  lemma HalvesLow(a: nat, imm: int)
    requires imm != 0
    ensures AddHalves(a, 0, imm) % W32 == (a + imm) % W32
    ensures SubHalves(a, 0, imm) % W32 == (a - imm) % W32
  {
    LowSum(a, imm);
    LowSum(a, -imm);
    DivModUnique(AddHalves(a, 0, imm), W32, (a / W32 + imm) % W32, (a % W32 + imm) % W32);
    DivModUnique(SubHalves(a, 0, imm), W32, (a / W32 - imm) % W32, (a % W32 - imm) % W32);
  }

  lemma LowSum(a: nat, d: int)
    ensures (a % W32 + d) % W32 == (a + d) % W32
  {
    var x := a % W32 + d;
    DivModUnique(a + d, W32, a / W32 + x / W32, x % W32);
  }

  lemma ExecRaise(r: nat, n: nat, s: Machine)
    requires Valid(s) && 0 < r < VISIBLE && n > 0
    ensures Exec(Uop(U32Add, r, 0, n, r), s).core == WithReg(s.core, r, (s.core.regs[r] + n) % W32)
  {
    HalvesLow(s.core.regs[r], n);
  }

  lemma ExecRaiseTo(r: nat, n: nat, v: nat, s: Machine)
    requires Valid(s) && 0 < r < VISIBLE && n > 0 && (s.core.regs[r] + n) % W32 == v
    ensures Exec(Uop(U32Add, r, 0, n, r), s).core == WithReg(s.core, r, v)
  {
    ExecRaise(r, n, s);
  }

  lemma ExecLower(r: nat, n: nat, s: Machine)
    requires Valid(s) && 0 < r < VISIBLE && n > 0
    ensures Exec(Uop(U32Sub, r, 0, n, r), s).core == WithReg(s.core, r, (s.core.regs[r] - n) % W32)
  {
    HalvesLow(s.core.regs[r], n);
  }

  /** One store, and one step of the address. */
  function StoreStep(r: nat, c: Core): Core
    requires |c.regs| == NREGS && r < 16
  {
    c.(mem := Store32(c.mem, Masked(c.regs[TMP1]), c.regs[r + 1]),
       regs := c.regs[TMP1 := (c.regs[TMP1] + 4) % W64])
  }

  lemma RunStoreStep(r: nat, s: Machine)
    requires Valid(s) && r < 16
    ensures AllWellFormed([Uop(U32St, TMP1, r + 1, 0, 0), Uop(U64Add, TMP1, 0, 4, TMP1)])
    ensures Run([Uop(U32St, TMP1, r + 1, 0, 0), Uop(U64Add, TMP1, 0, 4, TMP1)], s).core == StoreStep(r, s.core)
  {
    var u, v := Uop(U32St, TMP1, r + 1, 0, 0), Uop(U64Add, TMP1, 0, 4, TMP1);
    ExecStore(r, s);
    ExecValid(u, s);
    ExecStep(TMP1, Exec(u, s));
    RunTwo(u, v, s);
  }

  lemma RunPushChunk(r: nat, first: bool, s: Machine)
    requires Valid(s) && r < 16
    ensures AllWellFormed(PushChunk(r, first))
    ensures Run(PushChunk(r, first), s).core == StoreStep(r, s.core)
  {
    var body := [Uop(U32St, TMP1, r + 1, 0, 0), Uop(U64Add, TMP1, 0, 4, TMP1)];
    if first {
      var u := Uop(U32Add, TMP1, 0, 0, TMP1);
      ExecCopy(TMP1, s);
      ExecValid(u, s);
      RunOne(u, s);
      RunStoreStep(r, Exec(u, s));
      RunJoin([u], body, s, Exec(u, s));
      assert s.core.regs[TMP1 := s.core.regs[TMP1]] == s.core.regs;
    } else {
      RunStoreStep(r, s);
      assert PushChunk(r, first) == body;
    }
  }

  /** The listed registers stored upwards from the address temporary. */
  function Stored(list: seq<nat>, c: Core): Core
    requires IsRegList(list) && |c.regs| == NREGS
  {
    c.(mem := StoreAt(c.mem, WordAddrs(c.regs[TMP1], |list|), Values(list, c.regs)),
       regs := c.regs[TMP1 := (c.regs[TMP1] + 4 * |list|) % W64])
  }

  lemma StepWraps(t: nat, n: nat)
    ensures ((t + 4 * n) % W64 + 4) % W64 == (t + 4 * (n + 1)) % W64
  {
    var x := t + 4 * n;
    DivModUnique(x + 4, W64, x / W64 + (x % W64 + 4) / W64, (x % W64 + 4) % W64);
  }

  lemma StoreStepOf(r: nat, c: Core, t: nat, v: nat)
    requires |c.regs| == NREGS && r < 16 && c.regs[TMP1] == t % W64 && c.regs[r + 1] == v
    ensures StoreStep(r, c) == c.(mem := Store32(c.mem, Masked(t), v), regs := c.regs[TMP1 := (t % W64 + 4) % W64])
  {
    MaskedWraps(t);
  }

  lemma ValuesNext(list: seq<nat>, r: nat, regs: seq<nat>)
    requires IsRegList(list + [r]) && IsRegList(list) && |regs| == NREGS && r < 16
    ensures Values(list + [r], regs) == Values(list, regs) + [regs[r + 1]]
  {
  }

  /** Storing one more listed register. */
  lemma StoreOneMore(m: Memory, t: nat, list: seq<nat>, r: nat, regs: seq<nat>)
    requires IsRegList(list + [r]) && IsRegList(list) && |regs| == NREGS && r < 16
    ensures StoreAt(m, WordAddrs(t, |list| + 1), Values(list + [r], regs)) ==
            Store32(StoreAt(m, WordAddrs(t, |list|), Values(list, regs)), Masked(t + 4 * |list|), regs[r + 1])
  {
    ValuesNext(list, r, regs);
    StoreAtLast(m, t, Values(list, regs), regs[r + 1]);
  }

  lemma StoredNext(list: seq<nat>, r: nat, c: Core)
    requires IsRegList(list + [r]) && IsRegList(list) && |c.regs| == NREGS && r < 16
    ensures Stored(list + [r], c) == StoreStep(r, Stored(list, c))
  {
    var n, t := |list|, c.regs[TMP1];
    StoreOneMore(c.mem, t, list, r, c.regs);
    StepWraps(t, n);
    StoreStepOf(r, Stored(list, c), t + 4 * n, c.regs[r + 1]);
    StepTwice(c.regs, (t + 4 * n) % W64, (t + 4 * (n + 1)) % W64);
  }

  lemma StepTwice(regs: seq<nat>, v: nat, w: nat)
    requires |regs| == NREGS
    ensures regs[TMP1 := v][TMP1 := w] == regs[TMP1 := w]
  {
  }

  lemma StoredNone(c: Core)
    requires Ok(c)
    ensures Stored([], c) == c
  {
    assert c.regs[TMP1 := c.regs[TMP1]] == c.regs;
  }

  lemma {:induction false} PushBodyWellFormed(list: seq<nat>)
    requires IsRegList(list)
    ensures AllWellFormed(PushBody(list))
  {
    if list != [] {
      PushBodyWellFormed(list[..|list| - 1]);
    }
  }

  lemma {:induction false} RunPushBody(list: seq<nat>, s: Machine)
    requires Valid(s) && IsRegList(list)
    ensures AllWellFormed(PushBody(list))
    ensures Run(PushBody(list), s).core == Stored(list, s.core)
  {
    PushBodyWellFormed(list);
    if list == [] {
      StoredNone(s.core);
    } else {
      var n := |list| - 1;
      var before, r := list[..n], list[n];
      RunPushBody(before, s);
      var s1 := Run(PushBody(before), s);
      RunValid(PushBody(before), s);
      RunPushChunk(r, n == 0, s1);
      RunJoin(PushBody(before), PushChunk(r, n == 0), s, s1);
      assert before + [r] == list;
      StoredNext(before, r, s.core);
    }
  }

  /** SP - 4*count, as a 32-bit register holds it. */
  function PushBase(list: seq<nat>, c: Core): (b: nat)
    requires |c.regs| == NREGS
    ensures b < W32
  {
    (c.regs[STACKPTR] - 4 * |list|) % W32
  }

  /** PUSH: the k-th listed register goes to the word at SP - 4*count + 4k, and SP drops by
      4*count. The address temporary is scratch. */
  ghost predicate IsPush(list: seq<nat>, c: Core, d: Core)
    requires IsRegList(list) && |c.regs| == NREGS
  {
    && Ok(d) && d.jumps == c.jumps && SameRegs(c, d, {STACKPTR, TMP1})
    && d.regs[STACKPTR] == PushBase(list, c)
    && d.mem == StoreAt(c.mem, WordAddrs(PushBase(list, c), |list|), Values(list, c.regs))
  }

  /** Word addresses only see the low half of their base. */
  lemma WordAddrsLow(a: nat, b: nat, c: nat)
    requires a % W32 == b % W32
    ensures WordAddrs(a, c) == WordAddrs(b, c)
  {
    forall k | 0 <= k < c ensures WordAddrs(a, c)[k] == WordAddrs(b, c)[k] {
      LowSum(a, 4 * k);
      LowSum(b, 4 * k);
    }
  }

  /** The start address of a PUSH, with whatever the other half leaves above it. */
  lemma RunPushStart(list: seq<nat>, s: Machine) returns (t: nat)
    requires Valid(s) && IsRegList(list) && list != []
    ensures t < W64 && t % W32 == PushBase(list, s.core)
    ensures Exec(Uop(U32Sub, STACKPTR, 0, 4 * |list|, TMP1), s).core == WithReg(s.core, TMP1, t)
  {
    t := SubHalves(s.core.regs[STACKPTR], 0, 4 * |list|);
    HalvesLow(s.core.regs[STACKPTR], 4 * |list|);
  }

  lemma StoredFrom(list: seq<nat>, c: Core, t: nat)
    requires IsRegList(list) && |c.regs| == NREGS && t % W32 == PushBase(list, c)
    ensures var d := Stored(list, WithReg(c, TMP1, t));
            d.jumps == c.jumps && SameRegs(c, d, {TMP1}) &&
            d.mem == StoreAt(c.mem, WordAddrs(PushBase(list, c), |list|), Values(list, c.regs))
  {
    WordAddrsLow(t, PushBase(list, c), |list|);
    assert Values(list, WithReg(c, TMP1, t).regs) == Values(list, c.regs);
  }

  lemma PushCorrect(list: seq<nat>, s: Machine)
    requires Valid(s) && IsRegList(list) && list != []
    ensures AllWellFormed(PushUops(list))
    ensures IsPush(list, s.core, Run(PushUops(list), s).core)
  {
    var n := 4 * |list|;
    var pre, post := Uop(U32Sub, STACKPTR, 0, n, TMP1), Uop(U32Sub, STACKPTR, 0, n, STACKPTR);
    var t := RunPushStart(list, s);
    var s1 := Exec(pre, s);
    RunOne(pre, s);
    ExecValid(pre, s);
    RunPushBody(list, s1);
    var s2 := Run(PushBody(list), s1);
    RunValid(PushBody(list), s1);
    RunJoin([pre], PushBody(list), s, s1);
    RunSnoc([pre] + PushBody(list), post, s, s2);
    ExecLower(STACKPTR, n, s2);
    ExecValid(post, s2);
    StoredFrom(list, s.core, t);
  }

  /** The registers a PUSH lists: R0-R7 by its low byte, LR by bit 8. */
  function PushList(insn: nat): (l: seq<nat>)
    ensures IsRegList(l)
  {
    ListedShort(FieldMask(insn, 14), 15);
    Listed(FieldMask(insn, 14), 15)
  }

  lemma {:induction false} ListedShort(r: nat, n: nat)
    ensures |Listed(r, n)| <= n
  {
    if n > 0 {
      ListedShort(r, n - 1);
    }
  }

  lemma PushListMembers(insn: nat, i: nat)
    ensures i in PushList(insn) <==> (i < 8 && BitSet(insn, i)) || (i == 14 && BitSet(insn, 8))
  {
    ListedIff(FieldMask(insn, 14), 15, i);
    FieldMaskBits(insn, 14, i);
  }

  lemma PushCount(insn: nat)
    ensures PopCount(FieldMask(insn, 14)) == |PushList(insn)|
  {
    FieldMaskBelow(insn, 14);
    ShrSmall(FieldMask(insn, 14), 15);
    ListedCounts(FieldMask(insn, 14), 15);
  }

  lemma PushBodyNext(us: seq<Uop>, mask: nat, i: nat)
    ensures us + PushBody(Listed(mask, i + 1)) ==
            us + PushBody(Listed(mask, i)) + (if BitSet(mask, i) then PushChunk(i, Listed(mask, i) == []) else [])
    ensures Listed(mask, i + 1) != [] <==> Listed(mask, i) != [] || BitSet(mask, i)
  {
    var l := Listed(mask, i);
    if BitSet(mask, i) {
      assert (l + [i])[..|l|] == l;
      assert PushBody(l + [i]) == PushBody(l) + PushChunk(i, l == []);
    } else {
      assert l + [] == l;
    }
  }

  /** One turn of the PUSH loop. */
  method PushTurn(us: seq<Uop>, reglist: nat, i: nat, firstuse: bool) returns (us': seq<Uop>, firstuse': bool)
    ensures us' == us + if reglist % 2 == 1 then PushChunk(i, !firstuse) else []
    ensures firstuse' == (firstuse || reglist % 2 == 1)
  {
    us', firstuse' := us, firstuse;
    if reglist % 2 == 1 {
      if !firstuse' {
        us' := us' + [Uop(U32Add, TMP1, 0, 0, TMP1)];
        firstuse' := true;
      }
      us' := us' + [Uop(U32St, TMP1, i + 1, 0, 0)];
    }
    if reglist != 0 && reglist % 2 == 1 {
      us' := us' + [Uop(U64Add, TMP1, 0, 4, TMP1)];
    }
  }

  method PushLoop(mask: nat, n: nat, us: seq<Uop>) returns (us': seq<Uop>)
    ensures us' == us + PushBody(Listed(mask, n))
  {
    var reglist, firstuse := mask, false;
    us' := us;
    for i := 0 to n
      invariant reglist == Shr(mask, i) && (firstuse <==> Listed(mask, i) != [])
      invariant us' == us + PushBody(Listed(mask, i))
    {
      PushBodyNext(us, mask, i);
      ShrNext(mask, i);
      us', firstuse := PushTurn(us', reglist, i, firstuse);
      reglist := reglist / 2;
    }
  }

  /** PUSH outside an IT block; an empty list emits nothing. */
  method CrackPush(insn: nat) returns (us: seq<Uop>)
    ensures us == if PushList(insn) == [] then [] else PushUops(PushList(insn))
  {
    var reglist := FieldMask(insn, 14);
    var count := CountBits(reglist);
    PushCount(insn);
    if count < 1 {
      return [];
    }
    us := [Uop(U32Sub, STACKPTR, 0, 4 * count, TMP1)];
    us := PushLoop(reglist, 15, us);
    us := us + [Uop(U32Sub, STACKPTR, 0, 4 * count, STACKPTR)];
  }
}
