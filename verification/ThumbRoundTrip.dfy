/** PUSH followed by POP, and the addresses of PUSH, POP and STM against the reference manual. */
module ThumbRoundTrip {
  import opened Bits
  import opened Uops
  import opened RegLists
  import opened ThumbMultiple
  import opened ThumbPop
  import opened ThumbStm

  predicate Distinct(list: seq<nat>) {
    forall i, j :: 0 <= i < j < |list| ==> list[i] != list[j]
  }

  // ----- matching instructions list the same registers -----

  lemma {:induction false} ListedDistinct(r: nat, n: nat)
    ensures Distinct(Listed(r, n))
  {
    if n > 0 {
      ListedDistinct(r, n - 1);
    }
  }

  lemma {:induction false} ListedSame(r: nat, r': nat, n: nat)
    requires forall i :: 0 <= i < n ==> BitSet(r, i) == BitSet(r', i)
    ensures Listed(r, n) == Listed(r', n)
  {
    if n > 0 {
      ListedSame(r, r', n - 1);
    }
  }

  /** The same nine bits name the registers of a PUSH and of a POP. */
  predicate SameRegisters(push: nat, pop: nat) {
    forall i :: 0 <= i <= 8 ==> BitSet(push, i) == BitSet(pop, i)
  }

  lemma {:induction false} LowListed(r: nat, n: nat)
    requires forall i :: 8 <= i < n ==> !BitSet(r, i)
    ensures forall i :: 0 <= i < |Listed(r, n)| ==> Listed(r, n)[i] < 8
  {
    if n > 0 {
      LowListed(r, n - 1);
    }
  }

  lemma PopLowsAreLow(pop: nat)
    ensures IsLowList(PopLows(pop)) && Distinct(PopLows(pop))
  {
    var m := FieldMask(pop, 15);
    forall i | 8 <= i < 15 ensures !BitSet(m, i) {
      FieldMaskBits(pop, 15, i);
    }
    LowListed(m, 15);
    ListedDistinct(m, 15);
    ListedTail(m, 8, 7);
    ListedShort(m, 8);
  }

  lemma {:induction false} ListedTail(r: nat, n: nat, k: nat)
    requires forall i :: n <= i < n + k ==> !BitSet(r, i)
    ensures Listed(r, n + k) == Listed(r, n)
  {
    if k > 0 {
      ListedTail(r, n, k - 1);
      assert !BitSet(r, n + k - 1);
    }
  }

  lemma PushListsPops(push: nat, pop: nat)
    requires SameRegisters(push, pop)
    ensures PushList(push) == PopLows(pop) + if PopsPC(pop) then [14] else []
  {
    var m, m' := FieldMask(push, 14), FieldMask(pop, 15);
    forall i | 0 <= i < 14 ensures BitSet(m, i) == BitSet(m', i) {
      FieldMaskBits(push, 14, i);
      FieldMaskBits(pop, 15, i);
    }
    ListedSame(m, m', 14);
    FieldMaskBits(push, 14, 14);
    FieldMaskBits(pop, 15, 14);
    assert Listed(m', 15) == Listed(m', 14) + [];
  }

  // ----- what comes back -----

  lemma {:induction false} LoadedAt(regs: seq<nat>, m: Memory, list: seq<nat>, base: nat, k: nat)
    requires IsLowList(list) && Distinct(list) && |regs| == NREGS && k < |list|
    ensures LoadAll(regs, m, list, base)[list[k] + 1] == Load32(m, Masked(base + 4 * k))
  {
    var n := |list| - 1;
    if k < n {
      LoadedAt(regs, m, list[..n], base, k);
    }
  }

  lemma SubThenAdd(sp: nat, d: nat)
    requires sp < W32
    ensures ((sp - d) % W32 + d) % W32 == sp
  {
    var q := (sp - d) / W32;
    DivModUnique((sp - d) % W32 + d, W32, -q, sp);
  }

  /** v has the listed registers, and the stack pointer, of s. */
  ghost predicate Restored(lows: seq<nat>, s: Core, v: Core) {
    && |s.regs| == |v.regs| == NREGS && v.regs[STACKPTR] == s.regs[STACKPTR]
    && forall k :: 0 <= k < |lows| && lows[k] < 8 ==> v.regs[lows[k] + 1] == s.regs[lows[k] + 1]
  }

  function StackWord(c: Core, k: nat): nat
    requires |c.regs| == NREGS
  {
    Load32(c.mem, Masked(c.regs[STACKPTR] + 4 * k))
  }

  /** u still has the stack pointer and the n stacked words of t. */
  ghost predicate StackKept(n: nat, t: Core, u: Core) {
    && |t.regs| == |u.regs| == NREGS && u.regs[STACKPTR] == t.regs[STACKPTR]
    && forall k :: 0 <= k < n ==> StackWord(u, k) == StackWord(t, k)
  }

  lemma WordBack(m: Memory, base: nat, vs: seq<nat>, k: nat, v: nat)
    requires k < |vs| <= 16 && vs[k] == v < W32
    ensures Load32(StoreAt(m, WordAddrs(base, |vs|), vs), Masked(base + 4 * k)) == v
  {
    LoadBack(m, base, vs, k);
    DivModUnique(v, W32, 0, v);
  }

  ghost predicate PushedOnto(m: Memory, vs: seq<nat>, t: Core) {
    |t.regs| == NREGS && t.mem == StoreAt(m, WordAddrs(t.regs[STACKPTR], |vs|), vs)
  }

  lemma PushedWord(m: Memory, vs: seq<nat>, t: Core, k: nat, v: nat)
    requires k < |vs| <= 16 && vs[k] == v < W32 && PushedOnto(m, vs, t)
    ensures StackWord(t, k) == v
  {
    WordBack(m, t.regs[STACKPTR], vs, k, v);
  }

  lemma PoppedWord(lows: seq<nat>, pc: bool, u: Core, v: Core, k: nat)
    requires IsLowList(lows) && Distinct(lows) && |u.regs| == NREGS && IsPop(lows, pc, u, v) && k < |lows|
    ensures v.regs[lows[k] + 1] == StackWord(u, k)
  {
    LoadedAt(u.regs, u.mem, lows, u.regs[STACKPTR], k);
  }

  /** v is u after a return through LR as s had it. */
  ghost predicate ReturnsTo(pc: bool, s: Core, u: Core, v: Core)
    requires |s.regs| == |u.regs| == |v.regs| == NREGS
  {
    var link := s.regs[LINK];
    && v.jumps == u.jumps + (if pc then [link - link % 2] else [])
    && v.regs[TTYPE] == if pc then Chosen(link, u.regs[TTYPE]) else u.regs[TTYPE]
  }

  /** Every word of the stack as the POP finds it. */
  lemma FoundWord(list: seq<nat>, s: Core, t: Core, u: Core, k: nat)
    requires IsRegList(list) && Ok(s) && IsPush(list, s, t) && StackKept(|list|, t, u) && k < |list|
    ensures StackWord(u, k) == s.regs[list[k] + 1]
  {
    var v := s.regs[list[k] + 1];
    assert v < W32;
    PushedWord(s.mem, Values(list, s.regs), t, k, v);
  }

  lemma StackBack(n: nat, s: Core, t: Core, u: Core, v: Core)
    requires |s.regs| == |t.regs| == |u.regs| == |v.regs| == NREGS && s.regs[STACKPTR] < W32
    requires t.regs[STACKPTR] == (s.regs[STACKPTR] - 4 * n) % W32 && u.regs[STACKPTR] == t.regs[STACKPTR]
    requires v.regs[STACKPTR] == (u.regs[STACKPTR] + 4 * n) % W32
    ensures v.regs[STACKPTR] == s.regs[STACKPTR]
  {
    SubThenAdd(s.regs[STACKPTR], 4 * n);
  }

  lemma ReturnBack(lows: seq<nat>, pc: bool, s: Core, u: Core, v: Core)
    requires IsLowList(lows) && |s.regs| == |u.regs| == NREGS && IsPop(lows, pc, u, v)
    requires pc ==> StackWord(u, |lows|) == s.regs[LINK]
    ensures ReturnsTo(pc, s, u, v)
  {
  }

  /** A PUSH of the low registers (and LR), anything that leaves the stacked words and the
      stack pointer alone, then a POP of the same registers (and the PC). */
  lemma RoundTrip(lows: seq<nat>, pc: bool, s: Core, t: Core, u: Core, v: Core)
    requires IsLowList(lows) && Distinct(lows) && Ok(s)
    requires var list := lows + if pc then [14] else []; IsPush(list, s, t) && StackKept(|list|, t, u)
    requires IsPop(lows, pc, u, v)
    ensures Restored(lows, s, v) && ReturnsTo(pc, s, u, v)
  {
    var list := lows + if pc then [14] else [];
    forall k | 0 <= k < |lows| ensures v.regs[lows[k] + 1] == s.regs[lows[k] + 1] {
      FoundWord(list, s, t, u, k);
      PoppedWord(lows, pc, u, v, k);
    }
    StackBack(|list|, s, t, u, v);
    if pc {
      FoundWord(list, s, t, u, |lows|);
    }
    ReturnBack(lows, pc, s, u, v);
  }

  /** The cracked POP from any state, whichever registers it lists. */
  lemma RunPop(pop: nat, u: Machine) returns (v: Machine)
    requires Valid(u) && (PopLows(pop) != [] || PopsPC(pop))
    ensures var us := PopUops(PopLows(pop), PopsPC(pop)); AllWellFormed(us) && Run(us, u) == v
    ensures Valid(v) && IsLowList(PopLows(pop)) && IsPop(PopLows(pop), PopsPC(pop), u.core, v.core)
  {
    PopLowsAreLow(pop);
    if PopsPC(pop) {
      PopReturns(PopLows(pop), u);
    } else {
      PopFallsThrough(PopLows(pop), u);
    }
    v := Run(PopUops(PopLows(pop), PopsPC(pop)), u);
  }

  /** The instruction-level round trip: running the uops of a PUSH from s, letting anything
      happen that keeps the stacked words and the stack pointer, and running the uops of the
      POP with the same register bits gives back every listed register and the stack pointer.
      With LR pushed it returns to LR: a jump to it with bit 0 cleared, that bit choosing the
      instruction set. No stack pointer is excepted. */
  lemma PushPopRoundTrip(push: nat, pop: nat, s: Machine, t: Machine, u: Machine) returns (v: Machine)
    requires SameRegisters(push, pop) && PushList(push) != [] && Valid(s) && Valid(u)
    requires AllWellFormed(PushUops(PushList(push))) && Run(PushUops(PushList(push)), s) == t
    requires StackKept(|PushList(push)|, t.core, u.core)
    ensures var us := PopUops(PopLows(pop), PopsPC(pop)); AllWellFormed(us) && Run(us, u) == v
    ensures Valid(v) && Restored(PopLows(pop), s.core, v.core) && ReturnsTo(PopsPC(pop), s.core, u.core, v.core)
  {
    PushListsPops(push, pop);
    PushCorrect(PushList(push), s);
    v := RunPop(pop, u);
    PopLowsAreLow(pop);
    RoundTrip(PopLows(pop), PopsPC(pop), s.core, t.core, u.core, v.core);
  }

  // ----- the manual's addresses -----

  lemma SameParity(sp: nat, n: nat)
    ensures (sp - 4 * n) % W32 % 2 == sp % 2
  {
    var q, r := (sp - 4 * n) / W32, (sp - 4 * n) % W32;
    assert sp == 2 * (q * (W32 / 2) + r / 2 + 2 * n) + r % 2;
    DivModUnique(sp, 2, q * (W32 / 2) + r / 2 + 2 * n, r % 2);
  }

  /** PUSH stores at the manual's addresses exactly when SP is even. */
  lemma PushAddressesIff(list: seq<nat>, c: Core, d: Core)
    requires IsRegList(list) && list != [] && |c.regs| == NREGS && IsPush(list, c, d)
    ensures var ads, manual := WordAddrs(PushBase(list, c), |list|), WrappedAddrs(PushBase(list, c), |list|);
            d.mem == StoreAt(c.mem, ads, Values(list, c.regs)) && (ads == manual <==> c.regs[STACKPTR] % 2 == 0)
  {
    AddrsAgreeIff(PushBase(list, c), |list|);
    SameParity(c.regs[STACKPTR], |list|);
  }

  /** Two registers pushed with SP at 9: stored at 0 and 4, where the manual has 1 and 5. */
  lemma PushFromOddStack(list: seq<nat>, c: Core)
    requires IsRegList(list) && |list| == 2 && |c.regs| == NREGS && c.regs[STACKPTR] == 9
    ensures WordAddrs(PushBase(list, c), 2) == [0, 4] && WrappedAddrs(PushBase(list, c), 2) == [1, 5]
  {
    assert PushBase(list, c) == 1;
  }

  /** STM stores at the manual's addresses exactly when the base register is even. */
  lemma StmAddressesIff(list: seq<nat>, rdn: nat, c: Core, d: Core)
    requires IsRegList(list) && list != [] && |c.regs| == NREGS && 0 < rdn < NREGS && IsStm(list, rdn, c, d)
    ensures var ads, manual := WordAddrs(c.regs[rdn], |list|), WrappedAddrs(c.regs[rdn], |list|);
            d.mem == StoreAt(c.mem, ads, Values(list, c.regs)) && (ads == manual <==> c.regs[rdn] % 2 == 0)
  {
    AddrsAgreeIff(c.regs[rdn], |list|);
  }

  /** POP reads at these addresses, the return address last. */
  lemma PopReadsAt(lows: seq<nat>, pc: bool, c: Core, d: Core, n: nat)
    requires IsLowList(lows) && Distinct(lows) && |c.regs| == NREGS && IsPop(lows, pc, c, d)
    requires n == |lows| + if pc then 1 else 0
    ensures var ads := WordAddrs(c.regs[STACKPTR], n);
            (forall k :: 0 <= k < |lows| ==> d.regs[lows[k] + 1] == Load32(c.mem, ads[k])) &&
            (pc ==> var w := Load32(c.mem, ads[n - 1]); d.jumps == c.jumps + [w - w % 2])
  {
    var ads := WordAddrs(c.regs[STACKPTR], n);
    forall k | 0 <= k < |lows| ensures d.regs[lows[k] + 1] == Load32(c.mem, ads[k]) {
      PoppedWord(lows, pc, c, d, k);
    }
  }

  /** POP reads at the manual's addresses exactly when SP is even. */
  lemma PopAddressesIff(lows: seq<nat>, pc: bool, c: Core, d: Core, n: nat)
    requires IsLowList(lows) && Distinct(lows) && |c.regs| == NREGS && IsPop(lows, pc, c, d)
    requires n == |lows| + (if pc then 1 else 0) && n > 0
    ensures var ads, manual := WordAddrs(c.regs[STACKPTR], n), WrappedAddrs(c.regs[STACKPTR], n);
            (forall k :: 0 <= k < |lows| ==> d.regs[lows[k] + 1] == Load32(c.mem, ads[k])) &&
            (pc ==> var w := Load32(c.mem, ads[n - 1]); d.jumps == c.jumps + [w - w % 2]) &&
            (ads == manual <==> c.regs[STACKPTR] % 2 == 0)
  {
    PopReadsAt(lows, pc, c, d, n);
    AddrsAgreeIff(c.regs[STACKPTR], n);
  }
}
