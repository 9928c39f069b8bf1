/** The cracked form of the Thumb-16 STM (store multiple, increment after, with writeback),
    outside an IT block. */
module ThumbStm {
  import opened Bits
  import opened Uops
  import opened RegLists
  import opened ThumbMultiple

  function StmStore(r: nat, rdn: nat, first: bool): seq<Uop> {
    (if first then [Uop(U32Add, rdn, 0, 0, TMP1)] else []) + [Uop(U32St, TMP1, r + 1, 0, 0)]
  }

  /** The address increment is emitted ahead of each listed register, the first one included. */
  function StmIncrement(next: bool): seq<Uop> {
    if next then [Uop(U64Add, TMP1, 0, 4, TMP1)] else []
  }

  /** The store half of a turn. */
  function TurnStore(mask: nat, rdn: nat, i: nat): seq<Uop> {
    if BitSet(mask, i) then StmStore(i, rdn, Listed(mask, i) == []) else []
  }

  function StmTurnUops(mask: nat, rdn: nat, i: nat): seq<Uop> {
    TurnStore(mask, rdn, i) + StmIncrement(BitSet(mask, i + 1))
  }

  function StmBody(mask: nat, rdn: nat, n: nat): seq<Uop> {
    if n == 0 then [] else StmBody(mask, rdn, n - 1) + StmTurnUops(mask, rdn, n - 1)
  }

  function StmUops(mask: nat, rdn: nat): seq<Uop> {
    StmBody(mask, rdn, 8) + [Uop(U32Add, rdn, 0, 4 * |Listed(mask, 8)|, rdn)]
  }

  // ----- the crack -----

  method StmLoop(mask: nat, rdn: nat, n: nat) returns (us: seq<Uop>)
    ensures us == StmBody(mask, rdn, n)
  {
    var reglist, firstuse := mask, false;
    us := [];
    for i := 0 to n
      invariant reglist == Shr(mask, i) && (firstuse <==> Listed(mask, i) != [])
      invariant us == StmBody(mask, rdn, i)
    {
      ShrNext(mask, i);
      us, firstuse := StmTurn(us, reglist, rdn, i, firstuse);
      reglist := reglist / 2;
    }
  }

  /** One turn of the STM loop; the increment looks at the bit after this one. */
  method StmTurn(us: seq<Uop>, reglist: nat, rdn: nat, i: nat, firstuse: bool)
    returns (us': seq<Uop>, firstuse': bool)
    ensures us' == us + ((if reglist % 2 == 1 then StmStore(i, rdn, !firstuse) else []) +
                         StmIncrement(reglist / 2 % 2 == 1))
    ensures firstuse' == (firstuse || reglist % 2 == 1)
  {
    us', firstuse' := us, firstuse;
    if reglist % 2 == 1 {
      if !firstuse' {
        us' := us' + [Uop(U32Add, rdn, 0, 0, TMP1)];
        firstuse' := true;
      }
      us' := us' + [Uop(U32St, TMP1, i + 1, 0, 0)];
    }
    var reglist' := reglist / 2;
    if reglist' != 0 && reglist' % 2 == 1 {
      us' := us' + [Uop(U64Add, TMP1, 0, 4, TMP1)];
    }
  }

  function StmList(insn: nat): (l: seq<nat>)
    ensures IsRegList(l)
  {
    ListedShort(insn % 256, 8);
    Listed(insn % 256, 8)
  }

  /** R0 to R7 by the low byte. */
  lemma StmListMembers(insn: nat, i: nat)
    ensures i in StmList(insn) <==> i < 8 && BitSet(insn, i)
  {
    ListedIff(insn % 256, 8, i);
    assert Pow2(8) == 256;
    Pow2IsPow2(8);
    MaskIsMod(insn, 256);
    BitOfAnd(insn, 255, i);
    BitOfOnes(8, i);
  }

  lemma StmCount(insn: nat)
    ensures PopCount(insn % 256) == |StmList(insn)|
    ensures insn % 256 == 0 ==> StmList(insn) == []
    ensures StmList(insn) == [] ==> insn % 256 == 0
  {
    assert Pow2(8) == 256;
    ShrSmall(insn % 256, 8);
    ListedCounts(insn % 256, 8);
    if StmList(insn) == [] {
      PopCountZero(insn % 256);
    }
  }

  lemma {:induction false} PopCountZero(x: nat)
    requires PopCount(x) == 0
    ensures x == 0
  {
    if x > 0 {
      PopCountZero(x / 2);
    }
  }

  /** STM outside an IT block; an empty list emits nothing. */
  method CrackStm(insn: nat) returns (us: seq<Uop>)
    ensures us == if StmList(insn) == [] then [] else StmUops(insn % 256, insn / 256 % 8 + 1)
  {
    var reglist := insn % 256;
    var rdn := insn / 256 % 8 + 1;
    var count := CountBits(reglist);
    StmCount(insn);
    if reglist < 1 {
      return [];
    }
    us := StmLoop(reglist, rdn, 8);
    us := us + [Uop(U32Add, rdn, 0, 4 * count, rdn)];
  }

  // ----- what it does -----

  lemma RunStmStore(r: nat, rdn: nat, first: bool, s: Machine)
    requires Valid(s) && r < 16 && 0 < rdn < 9
    ensures AllWellFormed(StmStore(r, rdn, first))
    ensures var a := if first then s.core.regs[rdn] else s.core.regs[TMP1];
            Run(StmStore(r, rdn, first), s).core == StoredWord(r, a, s.core)
  {
    var st := Uop(U32St, TMP1, r + 1, 0, 0);
    if first {
      var start := Uop(U32Add, rdn, 0, 0, TMP1);
      ExecCopy(rdn, s);
      ExecValid(start, s);
      ExecStore(r, Exec(start, s));
      RunTwo(start, st, s);
      assert StmStore(r, rdn, first) == [start, st];
    } else {
      ExecStore(r, s);
      RunOne(st, s);
      assert StmStore(r, rdn, first) == [st];
      assert s.core.regs[TMP1 := s.core.regs[TMP1]] == s.core.regs;
    }
  }

  /** Register r stored at a, which the address temporary keeps. */
  function StoredWord(r: nat, a: nat, c: Core): Core
    requires |c.regs| == NREGS && r < 16
  {
    WithReg(c, TMP1, a).(mem := Store32(c.mem, Masked(a), c.regs[r + 1]))
  }

  function Stepped(next: bool, c: Core): Core
    requires |c.regs| == NREGS
  {
    if next then WithReg(c, TMP1, (c.regs[TMP1] + 4) % W64) else c
  }

  lemma RunIncrement(next: bool, s: Machine)
    requires Valid(s)
    ensures AllWellFormed(StmIncrement(next))
    ensures Run(StmIncrement(next), s).core == Stepped(next, s.core)
  {
    if next {
      ExecStep(TMP1, s);
      RunOne(Uop(U64Add, TMP1, 0, 4, TMP1), s);
    }
  }

  /** The address temporary after the listed registers so far: stale until the first store. */
  function Temporary(stale: nat, base: nat, n: nat, next: bool): nat {
    if n == 0 then (if next then (stale + 4) % W64 else stale)
    else base + 4 * (n - 1) + (if next then 4 else 0)
  }

  function StmMidway(list: seq<nat>, next: bool, rdn: nat, c: Core): Core
    requires IsRegList(list) && |c.regs| == NREGS && rdn < NREGS
  {
    var base := c.regs[rdn];
    c.(mem := StoreAt(c.mem, WordAddrs(base, |list|), Values(list, c.regs)),
       regs := c.regs[TMP1 := Temporary(c.regs[TMP1], base, |list|, next)])
  }

  lemma MidwayStart(rdn: nat, c: Core)
    requires Ok(c) && 0 < rdn < 9
    ensures StmMidway([], false, rdn, c) == c
  {
    assert c.regs[TMP1 := c.regs[TMP1]] == c.regs;
  }

  lemma MidwayStep(list: seq<nat>, next: bool, rdn: nat, c: Core)
    requires Ok(c) && IsRegList(list) && 0 < rdn < 9
    ensures StmMidway(list, next, rdn, c) == Stepped(next, StmMidway(list, false, rdn, c))
  {
    var base, n, stale := c.regs[rdn], |list|, c.regs[TMP1];
    var t, t' := Temporary(stale, base, n, false), Temporary(stale, base, n, true);
    assert (t + 4) % W64 == t';
    StepTwice(c.regs, t, t');
  }

  lemma WordAfter(r: nat, a: nat, t: nat, c: Core, m: Memory)
    requires |c.regs| == NREGS && r < 16
    ensures StoredWord(r, a, c.(mem := m, regs := c.regs[TMP1 := t])) ==
            c.(mem := Store32(m, Masked(a), c.regs[r + 1]), regs := c.regs[TMP1 := a])
  {
    StepTwice(c.regs, t, a);
  }

  /** The first store does not see what the temporary held before. */
  lemma MidwayFirst(r: nat, t: nat, rdn: nat, c: Core)
    requires Ok(c) && r < 8 && 0 < rdn < 9
    ensures IsRegList([r])
    ensures StmMidway([r], false, rdn, c) == StoredWord(r, c.regs[rdn], WithReg(c, TMP1, t))
  {
    StoreOneMore(c.mem, c.regs[rdn], [], r, c.regs);
    assert [] + [r] == [r];
    WordAfter(r, c.regs[rdn], t, c, c.mem);
  }

  lemma MidwayLater(list: seq<nat>, r: nat, rdn: nat, c: Core)
    requires |c.regs| == NREGS && IsRegList(list) && list != [] && IsRegList(list + [r]) && r < 8 && 0 < rdn < 9
    ensures var c1 := StmMidway(list, true, rdn, c);
            StmMidway(list + [r], false, rdn, c) == StoredWord(r, c1.regs[TMP1], c1)
  {
    var base, n := c.regs[rdn], |list|;
    var m := StoreAt(c.mem, WordAddrs(base, n), Values(list, c.regs));
    StoreOneMore(c.mem, base, list, r, c.regs);
    WordAfter(r, base + 4 * n, base + 4 * n, c, m);
    assert StmMidway(list, true, rdn, c) == c.(mem := m, regs := c.regs[TMP1 := base + 4 * n]);
  }

  lemma RunFirstStore(i: nat, t: nat, rdn: nat, c: Core, s: Machine)
    requires Ok(c) && Valid(s) && i < 8 && 0 < rdn < 9 && s.core == WithReg(c, TMP1, t)
    ensures AllWellFormed(StmStore(i, rdn, true)) && IsRegList([i])
    ensures Run(StmStore(i, rdn, true), s).core == StmMidway([i], false, rdn, c)
  {
    RunStmStore(i, rdn, true, s);
    MidwayFirst(i, t, rdn, c);
  }

  lemma RunLaterStore(list: seq<nat>, i: nat, rdn: nat, c: Core, s: Machine)
    requires Ok(c) && Valid(s) && i < 8 && 0 < rdn < 9
    requires IsRegList(list) && list != [] && IsRegList(list + [i]) && s.core == StmMidway(list, true, rdn, c)
    ensures AllWellFormed(StmStore(i, rdn, false))
    ensures Run(StmStore(i, rdn, false), s).core == StmMidway(list + [i], false, rdn, c)
  {
    RunStmStore(i, rdn, false, s);
    MidwayLater(list, i, rdn, c);
  }

  /** Before the first store only the temporary may differ. */
  lemma OnlyStale(next: bool, rdn: nat, c: Core, d: Core) returns (t: nat)
    requires Ok(c) && 0 < rdn < 9 && (d == c || d == StmMidway([], next, rdn, c))
    ensures d == WithReg(c, TMP1, t)
  {
    t := d.regs[TMP1];
    assert c.regs[TMP1 := c.regs[TMP1]] == c.regs;
  }

  lemma RunTurnStore(mask: nat, rdn: nat, i: nat, c: Core, s: Machine)
    requires Ok(c) && Valid(s) && i < 8 && 0 < rdn < 9
    requires IsRegList(Listed(mask, i)) && |Listed(mask, i)| <= i && IsRegList(Listed(mask, i + 1))
    requires s.core == if i == 0 then c else StmMidway(Listed(mask, i), BitSet(mask, i), rdn, c)
    ensures AllWellFormed(TurnStore(mask, rdn, i))
    ensures Run(TurnStore(mask, rdn, i), s).core == StmMidway(Listed(mask, i + 1), false, rdn, c)
  {
    var list := Listed(mask, i);
    if !BitSet(mask, i) {
      MidwayStart(rdn, c);
      assert list + [] == list;
    } else if list == [] {
      var t := OnlyStale(true, rdn, c, s.core);
      RunFirstStore(i, t, rdn, c, s);
      assert list + [i] == [i];
    } else {
      RunLaterStore(list, i, rdn, c, s);
    }
  }

  lemma RunStmTurn(mask: nat, rdn: nat, i: nat, c: Core, s: Machine)
    requires Ok(c) && Valid(s) && i < 8 && 0 < rdn < 9
    requires IsRegList(Listed(mask, i)) && |Listed(mask, i)| <= i && IsRegList(Listed(mask, i + 1))
    requires s.core == if i == 0 then c else StmMidway(Listed(mask, i), BitSet(mask, i), rdn, c)
    ensures AllWellFormed(StmTurnUops(mask, rdn, i))
    ensures Run(StmTurnUops(mask, rdn, i), s).core == StmMidway(Listed(mask, i + 1), BitSet(mask, i + 1), rdn, c)
  {
    RunTurnStore(mask, rdn, i, c, s);
    var s1 := Run(TurnStore(mask, rdn, i), s);
    RunValid(TurnStore(mask, rdn, i), s);
    RunIncrement(BitSet(mask, i + 1), s1);
    MidwayStep(Listed(mask, i + 1), BitSet(mask, i + 1), rdn, c);
    RunJoin(TurnStore(mask, rdn, i), StmIncrement(BitSet(mask, i + 1)), s, s1);
  }

  lemma ListedIsRegList(mask: nat, n: nat)
    requires n <= 16
    ensures IsRegList(Listed(mask, n)) && |Listed(mask, n)| <= n
  {
    ListedShort(mask, n);
  }

  lemma {:induction false} StmBodyWellFormed(mask: nat, rdn: nat, n: nat)
    requires n <= 8 && rdn < 9
    ensures AllWellFormed(StmBody(mask, rdn, n))
  {
    if n > 0 {
      StmBodyWellFormed(mask, rdn, n - 1);
    }
  }

  lemma {:induction false} RunStmBody(mask: nat, rdn: nat, n: nat, s: Machine)
    requires Valid(s) && n <= 8 && 0 < rdn < 9 && IsRegList(Listed(mask, n))
    ensures AllWellFormed(StmBody(mask, rdn, n))
    ensures Run(StmBody(mask, rdn, n), s).core ==
            if n == 0 then s.core else StmMidway(Listed(mask, n), BitSet(mask, n), rdn, s.core)
  {
    StmBodyWellFormed(mask, rdn, n);
    if n > 0 {
      ListedIsRegList(mask, n - 1);
      RunStmBody(mask, rdn, n - 1, s);
      var s1 := Run(StmBody(mask, rdn, n - 1), s);
      RunValid(StmBody(mask, rdn, n - 1), s);
      RunStmTurn(mask, rdn, n - 1, s.core, s1);
      RunJoin(StmBody(mask, rdn, n - 1), StmTurnUops(mask, rdn, n - 1), s, s1);
    }
  }

  /** STM: the k-th listed register's value before the instruction goes to the word at
      base + 4k, then the base register grows by 4*count. The address temporary is scratch,
      and nothing depends on what it held before. */
  ghost predicate IsStm(list: seq<nat>, rdn: nat, c: Core, d: Core)
    requires IsRegList(list) && |c.regs| == NREGS && rdn < NREGS
  {
    && Ok(d) && d.jumps == c.jumps && SameRegs(c, d, {rdn, TMP1})
    && d.regs[rdn] == (c.regs[rdn] + 4 * |list|) % W32
    && d.mem == StoreAt(c.mem, WordAddrs(c.regs[rdn], |list|), Values(list, c.regs))
  }

  lemma MidwayIsStm(list: seq<nat>, next: bool, rdn: nat, c: Core, d: Core)
    requires IsRegList(list) && Ok(c) && Ok(d) && 0 < rdn < 9
    requires d == WithReg(StmMidway(list, next, rdn, c), rdn, (c.regs[rdn] + 4 * |list|) % W32)
    ensures IsStm(list, rdn, c, d)
  {
  }

  lemma RunWriteback(us: seq<Uop>, rdn: nat, n: nat, base: nat, s: Machine)
    requires Valid(s) && AllWellFormed(us) && 0 < rdn < 9 && n > 0 && Run(us, s).core.regs[rdn] == base
    ensures var vs := us + [Uop(U32Add, rdn, 0, n, rdn)];
            AllWellFormed(vs) && Valid(Run(vs, s)) &&
            Run(vs, s).core == WithReg(Run(us, s).core, rdn, (base + n) % W32)
  {
    var back, s1 := Uop(U32Add, rdn, 0, n, rdn), Run(us, s);
    RunValid(us, s);
    RunSnoc(us, back, s, s1);
    ExecRaise(rdn, n, s1);
    ExecValid(back, s1);
  }

  lemma StmFinish(us: seq<Uop>, list: seq<nat>, next: bool, rdn: nat, s: Machine)
    requires Valid(s) && AllWellFormed(us) && IsRegList(list) && list != [] && 0 < rdn < 9
    requires Run(us, s).core == StmMidway(list, next, rdn, s.core)
    ensures var vs := us + [Uop(U32Add, rdn, 0, 4 * |list|, rdn)];
            AllWellFormed(vs) && IsStm(list, rdn, s.core, Run(vs, s).core)
  {
    RunWriteback(us, rdn, 4 * |list|, s.core.regs[rdn], s);
    MidwayIsStm(list, next, rdn, s.core, Run(us + [Uop(U32Add, rdn, 0, 4 * |list|, rdn)], s).core);
  }

  lemma StmCorrect(mask: nat, rdn: nat, s: Machine)
    requires Valid(s) && 0 < rdn < 9 && Listed(mask, 8) != []
    ensures AllWellFormed(StmUops(mask, rdn)) && IsRegList(Listed(mask, 8))
    ensures IsStm(Listed(mask, 8), rdn, s.core, Run(StmUops(mask, rdn), s).core)
  {
    ListedIsRegList(mask, 8);
    RunStmBody(mask, rdn, 8, s);
    StmFinish(StmBody(mask, rdn, 8), Listed(mask, 8), BitSet(mask, 8), rdn, s);
  }
}
