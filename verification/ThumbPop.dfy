/** The cracked form of the Thumb-16 POP, outside an IT block. */
module ThumbPop {
  import opened Bits
  import opened Uops
  import opened RegLists
  import opened ThumbMultiple

  const ARM: int := 0

  /** The first load goes through the stack pointer, the later ones through the temporary. */
  function Pointer(first: bool): nat {
    if first then STACKPTR else TMP1
  }

  function PopChunk(r: nat, first: bool): seq<Uop> {
    [Uop(U32Ld, Pointer(first), 0, 0, r + 1), Uop(U64Add, Pointer(first), 0, 4, TMP1)]
  }

  function PopBody(list: seq<nat>): seq<Uop> {
    if list == [] then []
    else PopBody(list[..|list| - 1]) + PopChunk(list[|list| - 1], |list| == 1)
  }

  /** Reading the return address and jumping to it. */
  function PopReturn(first: bool, c: nat): seq<Uop> {
    ReadReturn(first, c) + Interworking() + [Uop(JmpReg, TMP1, 0, 0, 0)]
  }

  function ReadReturn(first: bool, c: nat): seq<Uop> {
    [Uop(U32Ld, Pointer(first), 0, 0, TMP1), Uop(U32Add, STACKPTR, 0, 4 * c, STACKPTR)]
  }

  function Interworking(): seq<Uop> {
    [Uop(S64And, TMP1, 0, 1, TMP2), Uop(CopyIcc, TMP2, TTYPE, 0, TMP2),
     Uop(CmovNe, TMP2, 0, ARM, TTYPE), Uop(S64And, TMP1, 0, -2, TMP1)]
  }

  function PopUops(lows: seq<nat>, pc: bool): seq<Uop> {
    if pc then PopBody(lows) + PopReturn(lows == [], |lows| + 1)
    else PopBody(lows) + [Uop(U32Add, STACKPTR, 0, 4 * |lows|, STACKPTR)]
  }

  // ----- the crack -----

  /** One turn of the POP loop. */
  method PopTurn(us: seq<Uop>, reglist: nat, i: nat, firstUse: bool) returns (us': seq<Uop>, firstUse': bool)
    ensures us' == us + if reglist % 2 == 1 then PopChunk(i, firstUse) else []
    ensures firstUse' == (firstUse && reglist % 2 != 1)
  {
    us', firstUse' := us, firstUse;
    if reglist % 2 == 1 {
      if firstUse {
        us' := us' + [Uop(U32Ld, STACKPTR, 0, 0, i + 1)];
      } else {
        us' := us' + [Uop(U32Ld, TMP1, 0, 0, i + 1)];
      }
    }
    if reglist != 0 && reglist % 2 == 1 {
      if firstUse {
        us' := us' + [Uop(U64Add, STACKPTR, 0, 4, TMP1)];
        firstUse' := false;
      } else {
        us' := us' + [Uop(U64Add, TMP1, 0, 4, TMP1)];
      }
    }
  }

  lemma PopBodyNext(mask: nat, i: nat)
    ensures PopBody(Listed(mask, i + 1)) ==
            PopBody(Listed(mask, i)) + (if BitSet(mask, i) then PopChunk(i, Listed(mask, i) == []) else [])
  {
    var l := Listed(mask, i);
    if BitSet(mask, i) {
      assert (l + [i])[..|l|] == l;
    } else {
      assert l + [] == l;
    }
  }

  method PopLoop(mask: nat, n: nat) returns (us: seq<Uop>, firstUse: bool, reglist: nat)
    ensures us == PopBody(Listed(mask, n)) && (firstUse <==> Listed(mask, n) == [])
    ensures reglist == Shr(mask, n)
  {
    reglist, firstUse, us := mask, true, [];
    for i := 0 to n
      invariant reglist == Shr(mask, i) && (firstUse <==> Listed(mask, i) == [])
      invariant us == PopBody(Listed(mask, i))
    {
      PopBodyNext(mask, i);
      ShrNext(mask, i);
      us, firstUse := PopTurn(us, reglist, i, firstUse);
      reglist := reglist / 2;
    }
  }

  /** The low registers a POP lists, and whether it pops the PC. */
  function PopLows(insn: nat): (l: seq<nat>)
    ensures IsRegList(l)
  {
    ListedShort(FieldMask(insn, 15), 15);
    Listed(FieldMask(insn, 15), 15)
  }

  predicate PopsPC(insn: nat) {
    BitSet(insn, 8)
  }

  lemma PopLowsMembers(insn: nat, i: nat)
    ensures i in PopLows(insn) <==> i < 8 && BitSet(insn, i)
  {
    ListedIff(FieldMask(insn, 15), 15, i);
    FieldMaskBits(insn, 15, i);
  }

  lemma PopCount15(insn: nat)
    ensures PopCount(FieldMask(insn, 15)) == |PopLows(insn)| + (if PopsPC(insn) then 1 else 0)
    ensures Shr(FieldMask(insn, 15), 15) % 2 == 1 <==> PopsPC(insn)
  {
    FieldMaskBelow(insn, 15);
    var mask := FieldMask(insn, 15);
    FieldMaskBits(insn, 15, 15);
    ListedCounts(mask, 15);
    ShrSmall(mask, 16);
    ShrNext(mask, 15);
    assert PopCount(0) == 0;
  }

  method CrackReturn(us: seq<Uop>, firstUse: bool, count: nat) returns (us': seq<Uop>)
    ensures us' == us + PopReturn(firstUse, count)
  {
    us' := us;
    if firstUse {
      us' := us' + [Uop(U32Ld, STACKPTR, 0, 0, TMP1)];
    } else {
      us' := us' + [Uop(U32Ld, TMP1, 0, 0, TMP1)];
    }
    us' := us' + [Uop(U32Add, STACKPTR, 0, 4 * count, STACKPTR)];
    assert us' == us + ReadReturn(firstUse, count);
    us' := us' + [Uop(S64And, TMP1, 0, 1, TMP2)];
    us' := us' + [Uop(CopyIcc, TMP2, TTYPE, 0, TMP2)];
    us' := us' + [Uop(CmovNe, TMP2, 0, ARM, TTYPE)];
    us' := us' + [Uop(S64And, TMP1, 0, -2, TMP1)];
    assert us' == us + ReadReturn(firstUse, count) + Interworking();
    us' := us' + [Uop(JmpReg, TMP1, 0, 0, 0)];
  }

  /** POP outside an IT block; an empty list emits nothing. */
  method CrackPop(insn: nat) returns (us: seq<Uop>)
    ensures us == if PopLows(insn) == [] && !PopsPC(insn) then [] else PopUops(PopLows(insn), PopsPC(insn))
  {
    var mask := FieldMask(insn, 15);
    var count := CountBits(mask);
    PopCount15(insn);
    if count < 1 {
      return [];
    }
    var firstUse, reglist;
    us, firstUse, reglist := PopLoop(mask, 15);
    if reglist % 2 == 1 {
      us := CrackReturn(us, firstUse, count);
    } else {
      us := us + [Uop(U32Add, STACKPTR, 0, 4 * count, STACKPTR)];
    }
  }

  // ----- what it does -----

  predicate IsLowList(list: seq<nat>) {
    |list| <= 8 && forall i :: 0 <= i < |list| ==> list[i] < 8
  }

  /** The listed registers loaded from consecutive words. */
  function LoadAll(regs: seq<nat>, m: Memory, list: seq<nat>, base: nat): (r: seq<nat>)
    requires IsLowList(list) && |regs| == NREGS
    ensures |r| == NREGS
  {
    if list == [] then regs
    else
      var n := |list| - 1;
      LoadAll(regs, m, list[..n], base)[list[n] + 1 := Load32(m, Masked(base + 4 * n))]
  }

  function Popped(list: seq<nat>, c: Core): Core
    requires IsLowList(list) && |c.regs| == NREGS
  {
    var sp := c.regs[STACKPTR];
    var t := if list == [] then c.regs[TMP1] else sp + 4 * |list|;
    c.(regs := LoadAll(c.regs, c.mem, list, sp)[TMP1 := t])
  }

  function LoadStep(r: nat, first: bool, c: Core): Core
    requires |c.regs| == NREGS && r < 8
  {
    var a := c.regs[Pointer(first)];
    c.(regs := c.regs[r + 1 := Load32(c.mem, Masked(a))][TMP1 := (a + 4) % W64])
  }

  lemma LoadFits(m: Memory, a: nat)
    ensures Load32(m, a) < W32
  {
  }

  lemma ExecLoad(p: nat, dst: nat, w: nat, s: Machine)
    requires Valid(s) && p < NREGS && 0 < dst < NREGS && Load32(s.core.mem, Masked(s.core.regs[p])) == w
    ensures Exec(Uop(U32Ld, p, 0, 0, dst), s).core == WithReg(s.core, dst, w)
  {
    LoadFits(s.core.mem, Masked(s.core.regs[p]));
    DivModUnique(w, W32, 0, w);
  }

  lemma RunPopChunk(r: nat, first: bool, s: Machine)
    requires Valid(s) && r < 8
    ensures AllWellFormed(PopChunk(r, first))
    ensures Run(PopChunk(r, first), s).core == LoadStep(r, first, s.core)
  {
    var p := Pointer(first);
    var u, v := Uop(U32Ld, p, 0, 0, r + 1), Uop(U64Add, p, 0, 4, TMP1);
    ExecLoad(p, r + 1, Load32(s.core.mem, Masked(s.core.regs[p])), s);
    ExecValid(u, s);
    ExecStep(p, Exec(u, s));
    RunTwo(u, v, s);
  }

  /** Loading low registers leaves everything else alone. */
  lemma {:induction false} LoadAllKeeps(regs: seq<nat>, m: Memory, list: seq<nat>, base: nat, r: nat)
    requires IsLowList(list) && |regs| == NREGS && r < NREGS && (r == 0 || r - 1 !in list)
    ensures LoadAll(regs, m, list, base)[r] == regs[r]
  {
    if list != [] {
      LoadAllKeeps(regs, m, list[..|list| - 1], base, r);
    }
  }

  lemma PoppedPointer(list: seq<nat>, c: Core)
    requires IsLowList(list) && |c.regs| == NREGS
    ensures Popped(list, c).regs[Pointer(list == [])] == c.regs[STACKPTR] + 4 * |list|
    ensures Popped(list, c).regs[STACKPTR] == c.regs[STACKPTR]
    ensures Popped(list, c).regs[TTYPE] == c.regs[TTYPE]
    ensures list == [] ==> Popped(list, c) == c
  {
    LoadAllKeeps(c.regs, c.mem, list, c.regs[STACKPTR], STACKPTR);
    LoadAllKeeps(c.regs, c.mem, list, c.regs[STACKPTR], TTYPE);
    assert c.regs[TMP1 := c.regs[TMP1]] == c.regs;
  }

  lemma LoadStepOf(r: nat, first: bool, a: nat, v: nat, c: Core)
    requires |c.regs| == NREGS && r < 8 && c.regs[Pointer(first)] == a < W64 - 4 && v == Load32(c.mem, Masked(a))
    ensures LoadStep(r, first, c) == c.(regs := c.regs[r + 1 := v][TMP1 := a + 4])
  {
  }

  lemma SetBoth(regs: seq<nat>, r: nat, t: nat, v: nat, t': nat)
    requires |regs| == NREGS && r < 8
    ensures regs[TMP1 := t][r + 1 := v][TMP1 := t'] == regs[r + 1 := v][TMP1 := t']
  {
  }

  lemma PoppedNext(list: seq<nat>, c: Core)
    requires IsLowList(list) && list != [] && Ok(c)
    ensures Popped(list, c) == LoadStep(list[|list| - 1], |list| == 1, Popped(list[..|list| - 1], c))
  {
    var n, sp := |list| - 1, c.regs[STACKPTR];
    var before, r := list[..n], list[n];
    PoppedPointer(before, c);
    var v := Load32(c.mem, Masked(sp + 4 * n));
    LoadStepOf(r, n == 0, sp + 4 * n, v, Popped(before, c));
    SetBoth(LoadAll(c.regs, c.mem, before, sp), r, Popped(before, c).regs[TMP1], v, sp + 4 * n + 4);
  }

  lemma {:induction false} PopBodyWellFormed(list: seq<nat>)
    requires IsLowList(list)
    ensures AllWellFormed(PopBody(list))
  {
    if list != [] {
      PopBodyWellFormed(list[..|list| - 1]);
    }
  }

  lemma {:induction false} RunPopBody(list: seq<nat>, s: Machine)
    requires IsLowList(list) && Valid(s)
    ensures AllWellFormed(PopBody(list))
    ensures Run(PopBody(list), s).core == Popped(list, s.core)
  {
    PopBodyWellFormed(list);
    if list == [] {
      PoppedPointer(list, s.core);
    } else {
      var n := |list| - 1;
      var before, r := list[..n], list[n];
      RunPopBody(before, s);
      var s1 := Run(PopBody(before), s);
      RunValid(PopBody(before), s);
      RunPopChunk(r, n == 0, s1);
      RunJoin(PopBody(before), PopChunk(r, n == 0), s, s1);
      PoppedNext(list, s.core);
    }
  }

  // ----- the return -----

  /** Bit 0 of the return word picks the instruction set: set, the current one stays. */
  function Chosen(w: nat, ttype: nat): nat {
    if w % 2 == 1 then ttype else ARM
  }

  lemma BitZero(w: nat)
    ensures AndSigned(w, 1) == w % 2
  {
    AndZero(w / 2);
  }

  /** Test, copy and conditional move: the instruction-set register, through TMP2. */
  lemma ExecChoice(s: Machine)
    requires Valid(s)
    ensures var s1 := Exec(Uop(S64And, TMP1, 0, 1, TMP2), s);
            var s2 := Exec(Uop(CopyIcc, TMP2, TTYPE, 0, TMP2), s1);
            var s3 := Exec(Uop(CmovNe, TMP2, 0, ARM, TTYPE), s2);
            var ttype := s.core.regs[TTYPE];
            s3.core == WithReg(WithReg(s.core, TMP2, ttype), TTYPE, Chosen(s.core.regs[TMP1], ttype))
  {
    var w, ttype := s.core.regs[TMP1], s.core.regs[TTYPE];
    BitZero(w);
    var s1 := Exec(Uop(S64And, TMP1, 0, 1, TMP2), s);
    assert s1 == Machine(WithReg(s.core, TMP2, w % 2), s.zero[TMP2 := w % 2 == 0]);
    var s2 := Exec(Uop(CopyIcc, TMP2, TTYPE, 0, TMP2), s1);
    assert s2.core.regs == s.core.regs[TMP2 := ttype];
    assert s2.zero[TMP2] == (w % 2 == 0);
  }

  lemma ExecClearBit(s: Machine)
    requires Valid(s)
    ensures Exec(Uop(S64And, TMP1, 0, -2, TMP1), s).core ==
            WithReg(s.core, TMP1, s.core.regs[TMP1] - s.core.regs[TMP1] % 2)
  {
    ClearBitZero(s.core.regs[TMP1]);
  }

  /** The state switch: bit 0 of TMP1 keeps the instruction set or makes it ARM, and is then
      cleared. TMP2 is scratch. */
  function Interworked(c: Core): Core
    requires |c.regs| == NREGS
  {
    var w, ttype := c.regs[TMP1], c.regs[TTYPE];
    c.(regs := c.regs[TMP2 := ttype][TTYPE := Chosen(w, ttype)][TMP1 := w - w % 2])
  }

  lemma RunInterworking(s: Machine)
    requires Valid(s)
    ensures AllWellFormed(Interworking()) && Run(Interworking(), s).core == Interworked(s.core)
  {
    var u1, u2 := Uop(S64And, TMP1, 0, 1, TMP2), Uop(CopyIcc, TMP2, TTYPE, 0, TMP2);
    var u3, u4 := Uop(CmovNe, TMP2, 0, ARM, TTYPE), Uop(S64And, TMP1, 0, -2, TMP1);
    ExecChoice(s);
    RunTwo(u1, u2, s);
    var s2 := Run([u1, u2], s);
    RunSnoc([u1, u2], u3, s, s2);
    var s3 := Exec(u3, s2);
    RunValid([u1, u2] + [u3], s);
    RunSnoc([u1, u2] + [u3], u4, s, s3);
    ExecClearBit(s3);
    assert Interworking() == [u1, u2] + [u3] + [u4];
  }

  lemma RunReadReturn(first: bool, n: nat, w: nat, sp: nat, s: Machine)
    requires Valid(s) && 0 < n <= 16
    requires Load32(s.core.mem, Masked(s.core.regs[Pointer(first)])) == w
    requires (s.core.regs[STACKPTR] + 4 * n) % W32 == sp
    ensures AllWellFormed(ReadReturn(first, n))
    ensures Run(ReadReturn(first, n), s).core == WithReg(WithReg(s.core, TMP1, w), STACKPTR, sp)
  {
    var u, v := Uop(U32Ld, Pointer(first), 0, 0, TMP1), Uop(U32Add, STACKPTR, 0, 4 * n, STACKPTR);
    ExecLoad(Pointer(first), TMP1, w, s);
    ExecValid(u, s);
    var s1 := Exec(u, s);
    assert s1.core.regs[STACKPTR] == s.core.regs[STACKPTR];
    ExecRaiseTo(STACKPTR, 4 * n, sp, s1);
    RunTwo(u, v, s);
  }

  lemma ExecJump(s: Machine)
    requires Valid(s)
    ensures Exec(Uop(JmpReg, TMP1, 0, 0, 0), s).core == s.core.(jumps := s.core.jumps + [s.core.regs[TMP1]])
  {
  }

  /** d is c after returning through word w with the stack pointer left at sp. */
  ghost predicate Returned(w: nat, sp: nat, c: Core, d: Core) {
    && SameRegs(c, d, {STACKPTR, TMP1, TMP2, TTYPE}) && d.mem == c.mem
    && d.regs[STACKPTR] == sp && d.regs[TTYPE] == Chosen(w, c.regs[TTYPE])
    && d.jumps == c.jumps + [w - w % 2]
  }

  lemma InterworkedReturns(w: nat, sp: nat, c: Core)
    requires |c.regs| == NREGS
    ensures var d := Interworked(WithReg(WithReg(c, TMP1, w), STACKPTR, sp));
            Returned(w, sp, c, d.(jumps := d.jumps + [d.regs[TMP1]]))
  {
  }

  lemma RunPopReturn(first: bool, n: nat, w: nat, sp: nat, s: Machine)
    requires Valid(s) && 0 < n <= 16
    requires Load32(s.core.mem, Masked(s.core.regs[Pointer(first)])) == w
    requires (s.core.regs[STACKPTR] + 4 * n) % W32 == sp
    ensures AllWellFormed(PopReturn(first, n)) && Returned(w, sp, s.core, Run(PopReturn(first, n), s).core)
  {
    RunReadReturn(first, n, w, sp, s);
    var s1 := Run(ReadReturn(first, n), s);
    RunValid(ReadReturn(first, n), s);
    RunInterworking(s1);
    var s2 := Run(Interworking(), s1);
    RunValid(Interworking(), s1);
    RunJoin(ReadReturn(first, n), Interworking(), s, s1);
    RunSnoc(ReadReturn(first, n) + Interworking(), Uop(JmpReg, TMP1, 0, 0, 0), s, s2);
    ExecJump(s2);
    InterworkedReturns(w, sp, s.core);
  }

  // ----- the instruction -----

  /** POP: each listed register from its word at SP + 4k, SP raised by 4*count, and with the PC
      popped a jump to the last word with bit 0 cleared; that bit keeps the instruction set or
      makes it ARM. The temporaries are scratch. */
  ghost predicate IsPop(lows: seq<nat>, pc: bool, c: Core, d: Core)
    requires IsLowList(lows) && |c.regs| == NREGS
  {
    var sp := c.regs[STACKPTR];
    var w := Load32(c.mem, Masked(sp + 4 * |lows|));
    && |d.regs| == NREGS && d.mem == c.mem
    && d.regs[STACKPTR] == (sp + 4 * (|lows| + if pc then 1 else 0)) % W32
    && d.jumps == c.jumps + (if pc then [w - w % 2] else [])
    && d.regs[TTYPE] == (if pc then Chosen(w, c.regs[TTYPE]) else c.regs[TTYPE])
    && (forall r :: 0 <= r < NREGS && r !in {STACKPTR, TMP1, TMP2, TTYPE} ==>
          d.regs[r] == LoadAll(c.regs, c.mem, lows, sp)[r])
  }

  lemma PopWithReturn(lows: seq<nat>, c: Core, d: Core)
    requires IsLowList(lows) && |c.regs| == NREGS
    requires var sp := c.regs[STACKPTR];
             Returned(Load32(c.mem, Masked(sp + 4 * |lows|)), (sp + 4 * (|lows| + 1)) % W32, Popped(lows, c), d)
    ensures IsPop(lows, true, c, d)
  {
    PoppedPointer(lows, c);
  }

  lemma PopWithoutReturn(lows: seq<nat>, c: Core, sp: nat)
    requires IsLowList(lows) && |c.regs| == NREGS && sp == (c.regs[STACKPTR] + 4 * |lows|) % W32
    ensures IsPop(lows, false, c, WithReg(Popped(lows, c), STACKPTR, sp))
  {
    PoppedPointer(lows, c);
  }

  /** The state the loads leave behind. */
  lemma AfterLoads(lows: seq<nat>, s: Machine) returns (s1: Machine)
    requires IsLowList(lows) && Valid(s)
    ensures AllWellFormed(PopBody(lows)) && Run(PopBody(lows), s) == s1
    ensures Valid(s1) && s1.core == Popped(lows, s.core) && s1.core.mem == s.core.mem
    ensures s1.core.regs[STACKPTR] == s.core.regs[STACKPTR]
    ensures s1.core.regs[Pointer(lows == [])] == s.core.regs[STACKPTR] + 4 * |lows|
  {
    RunPopBody(lows, s);
    RunValid(PopBody(lows), s);
    PoppedPointer(lows, s.core);
    s1 := Run(PopBody(lows), s);
  }

  lemma RunBodyThen(lows: seq<nat>, n: nat, s: Machine, s1: Machine)
    requires AllWellFormed(PopBody(lows)) && AllWellFormed(PopReturn(lows == [], n)) && n == |lows| + 1
    requires Shaped(s) && Run(PopBody(lows), s) == s1
    ensures AllWellFormed(PopUops(lows, true)) && Run(PopUops(lows, true), s) == Run(PopReturn(lows == [], n), s1)
  {
    RunJoin(PopBody(lows), PopReturn(lows == [], n), s, s1);
  }

  lemma RunBodyAndReturn(lows: seq<nat>, n: nat, w: nat, sp: nat, s: Machine) returns (t: Machine)
    requires IsLowList(lows) && Valid(s) && n == |lows| + 1
    requires w == Load32(s.core.mem, Masked(s.core.regs[STACKPTR] + 4 * |lows|))
    requires sp == (s.core.regs[STACKPTR] + 4 * n) % W32
    ensures AllWellFormed(PopUops(lows, true)) && Run(PopUops(lows, true), s) == t
    ensures Returned(w, sp, Popped(lows, s.core), t.core)
  {
    var s1 := AfterLoads(lows, s);
    RunPopReturn(lows == [], n, w, sp, s1);
    RunBodyThen(lows, n, s, s1);
    t := Run(PopReturn(lows == [], n), s1);
  }

  lemma PopReturns(lows: seq<nat>, s: Machine)
    requires IsLowList(lows) && Valid(s)
    ensures AllWellFormed(PopUops(lows, true))
    ensures Valid(Run(PopUops(lows, true), s)) && IsPop(lows, true, s.core, Run(PopUops(lows, true), s).core)
  {
    var sp := s.core.regs[STACKPTR];
    var n := |lows| + 1;
    var t := RunBodyAndReturn(lows, n, Load32(s.core.mem, Masked(sp + 4 * |lows|)), (sp + 4 * n) % W32, s);
    PopWithReturn(lows, s.core, t.core);
    RunValid(PopUops(lows, true), s);
  }

  /** A POP of the PC stays in the instruction set if the return word is odd, and else goes to ARM. */
  lemma PopChoosesState(lows: seq<nat>, c: Core, d: Core)
    requires IsLowList(lows) && |c.regs| == NREGS && IsPop(lows, true, c, d)
    ensures var w := Load32(c.mem, Masked(c.regs[STACKPTR] + 4 * |lows|));
            d.regs[TTYPE] == (if w % 2 == 1 then c.regs[TTYPE] else 0) && d.jumps == c.jumps + [w - w % 2]
  {
  }

  lemma PopFallsThrough(lows: seq<nat>, s: Machine)
    requires IsLowList(lows) && lows != [] && Valid(s)
    ensures AllWellFormed(PopUops(lows, false))
    ensures Valid(Run(PopUops(lows, false), s)) && IsPop(lows, false, s.core, Run(PopUops(lows, false), s).core)
  {
    var u := Uop(U32Add, STACKPTR, 0, 4 * |lows|, STACKPTR);
    var s1 := AfterLoads(lows, s);
    RunSnoc(PopBody(lows), u, s, s1);
    ExecRaise(STACKPTR, 4 * |lows|, s1);
    ExecValid(u, s1);
    PopWithoutReturn(lows, s.core, (s.core.regs[STACKPTR] + 4 * |lows|) % W32);
  }
}
