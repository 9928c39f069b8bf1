/** How an instruction of one GPU lane is told from the same instruction of another: the lane
    travels in the upper half of the 64-bit address, and the cracker renames registers by it. */
module LaneIsolation {
  import opened Bits

  const W16: nat := 0x1_0000
  const WORD: nat := 0x1_0000_0000

  // Bounds of the register enumeration.
  const NO_DEPENDENCE: nat := 0
  const INVALID_OUTPUT: nat := 1698
  const LREG_MAX: nat := 1699

  // ----- packing -----

  /** A left shift of a 64-bit word, by the power of two it multiplies with. */
  function ShiftedBy(x: nat, power: nat): nat {
    (x * power) % (WORD * WORD)
  }

  /** `((pe << 16) | warp) << 32 | addr` in 64 bits; warp is the local warp times the PE count. */
  function Pack(pe: nat, warp: nat, addr: nat): nat {
    Or(ShiftedBy(Or(ShiftedBy(pe, W16), warp), WORD), addr)
  }

  /** The upper 32 bits, as the cracker takes them out of the address. */
  function Upper(a: nat): nat {
    (a / WORD) % WORD
  }

  function WarpOf(a: nat): nat {
    And(Upper(a), 0xFFFF)
  }

  function PeOf(a: nat): nat {
    And(Upper(a) / W16, 0xFFFF)
  }

  lemma Powers()
    ensures Pow2(16) == W16 && Pow2(32) == WORD
  {
    assert Pow2(4) == 16;
    Pow2Add(4, 4);
    Pow2Add(8, 8);
    Pow2Add(16, 16);
  }

  lemma MaskLow(x: nat)
    ensures And(x, 0xFFFF) == x % W16
  {
    Powers();
    Pow2IsPow2(16);
    MaskIsMod(x, W16);
  }

  lemma OrBelow16(a: nat, b: nat)
    requires b < W16
    ensures Or(a * W16, b) == a * W16 + b
  {
    Powers();
    OrDisjoint(a, b, 16);
  }

  lemma OrBelow32(a: nat, b: nat)
    requires b < WORD
    ensures Or(a * WORD, b) == a * WORD + b
  {
    Powers();
    OrDisjoint(a, b, 32);
  }

  lemma ShiftFits(x: nat, power: nat)
    requires x * power < WORD * WORD
    ensures ShiftedBy(x, power) == x * power
  {
    DivModUnique(x * power, WORD * WORD, 0, x * power);
  }

  /** With both lane numbers below 2^16 the three parts do not overlap. */
  lemma PackIsSum(pe: nat, warp: nat, addr: nat)
    requires pe < W16 && warp < W16 && addr < WORD
    ensures Pack(pe, warp, addr) == (pe * W16 + warp) * WORD + addr
  {
    var high := pe * W16 + warp;
    ShiftFits(pe, W16);
    OrBelow16(pe, warp);
    ShiftFits(high, WORD);
    OrBelow32(high, addr);
  }

  lemma UpperIs(high: nat, addr: nat)
    requires high < WORD && addr < WORD
    ensures Upper(high * WORD + addr) == high && (high * WORD + addr) % WORD == addr
  {
    DivModUnique(high * WORD + addr, WORD, high, addr);
  }

  lemma UnpackSum(pe: nat, warp: nat, addr: nat)
    requires pe < W16 && warp < W16 && addr < WORD
    ensures var a := (pe * W16 + warp) * WORD + addr; PeOf(a) == pe && WarpOf(a) == warp && a % WORD == addr
  {
    var high := pe * W16 + warp;
    UpperIs(high, addr);
    DivModUnique(high, W16, pe, warp);
    MaskLow(high);
    MaskLow(pe);
  }

  /** Unpacking gives the lane back exactly when both of its numbers fit in 16 bits, and then
      the low half is still the address. */
  lemma PackRoundTripIff(pe: nat, warp: nat, addr: nat)
    requires addr < WORD
    ensures var a := Pack(pe, warp, addr);
            (PeOf(a) == pe && WarpOf(a) == warp <==> pe < W16 && warp < W16) &&
            (pe < W16 && warp < W16 ==> a % WORD == addr)
  {
    var a := Pack(pe, warp, addr);
    MaskLow(Upper(a));
    MaskLow(Upper(a) / W16);
    if pe < W16 && warp < W16 {
      PackIsSum(pe, warp, addr);
      UnpackSum(pe, warp, addr);
    }
  }

  // ----- renaming -----

  /** The lane's own copy of a register, in 32-bit arithmetic. */
  function Renamed(warp: nat, pe: nat, reg: nat): nat {
    (warp * LREG_MAX + pe * LREG_MAX + reg) % WORD
  }

  /** A source operand of the instruction at the packed address. */
  function Source(a: nat, reg: nat): nat {
    if reg != NO_DEPENDENCE then Renamed(WarpOf(a), PeOf(a), reg) else NO_DEPENDENCE
  }

  function Destination(a: nat, reg: nat): nat {
    if reg != INVALID_OUTPUT then Renamed(WarpOf(a), PeOf(a), reg) else INVALID_OUTPUT
  }

  lemma RenamedIs(warp: nat, pe: nat, reg: nat)
    requires warp < W16 && pe < W16 && reg < LREG_MAX
    ensures Renamed(warp, pe, reg) == (warp + pe) * LREG_MAX + reg
    ensures Renamed(warp, pe, reg) / LREG_MAX == warp + pe && Renamed(warp, pe, reg) % LREG_MAX == reg
  {
    var x := (warp + pe) * LREG_MAX + reg;
    DivModUnique(x, WORD, 0, x);
    DivModUnique(x, LREG_MAX, warp + pe, reg);
  }

  /** One lane of an SM with n PEs: local warp, PE and what the packing needs to be lossless. */
  predicate IsLane(n: nat, warp: nat, pe: nat) {
    pe < n && pe < W16 && warp * n < W16
  }

  predicate IsPacked(a: nat, pe: nat, warp: nat, addr: nat) {
    addr < WORD && a == Pack(pe, warp, addr)
  }

  ghost predicate Packed(a: nat, pe: nat, warp: nat) {
    exists addr: nat :: IsPacked(a, pe, warp, addr)
  }

  /** a is an address the given lane queued. */
  ghost predicate Queued(a: nat, n: nat, warp: nat, pe: nat) {
    IsLane(n, warp, pe) && Packed(a, pe, warp * n)
  }

  lemma Unpacked(a: nat, pe: nat, warp: nat)
    requires Packed(a, pe, warp) && pe < W16 && warp < W16
    ensures PeOf(a) == pe && WarpOf(a) == warp
  {
    var addr: nat :| IsPacked(a, pe, warp, addr);
    PackRoundTripIff(pe, warp, addr);
  }

  lemma RenamingInjective(n: nat, warp: nat, pe: nat, reg: nat, warp': nat, pe': nat, reg': nat)
    requires IsLane(n, warp, pe) && IsLane(n, warp', pe') && reg < LREG_MAX && reg' < LREG_MAX
    ensures Renamed(warp * n, pe, reg) == Renamed(warp' * n, pe', reg') <==> warp == warp' && pe == pe' && reg == reg'
  {
    RenamedIs(warp * n, pe, reg);
    RenamedIs(warp' * n, pe', reg');
    DivModUnique(warp * n + pe, n, warp, pe);
    DivModUnique(warp' * n + pe', n, warp', pe');
  }

  lemma OperandIs(n: nat, a: nat, warp: nat, pe: nat, reg: nat)
    requires Queued(a, n, warp, pe)
    ensures reg != NO_DEPENDENCE ==> Source(a, reg) == Renamed(warp * n, pe, reg)
    ensures reg != INVALID_OUTPUT ==> Destination(a, reg) == Renamed(warp * n, pe, reg)
  {
    Unpacked(a, pe, warp * n);
  }

  /** Two operands of two lanes, whatever their addresses, name the same register exactly when
      they are the same register of the same lane. */
  lemma LanesIsolated(n: nat, a: nat, warp: nat, pe: nat, reg: nat, a': nat, warp': nat, pe': nat, reg': nat)
    requires Queued(a, n, warp, pe) && Queued(a', n, warp', pe')
    requires 0 < reg < INVALID_OUTPUT && 0 < reg' < INVALID_OUTPUT
    ensures Source(a, reg) == Source(a', reg') <==> warp == warp' && pe == pe' && reg == reg'
    ensures Source(a, reg) == Destination(a', reg') <==> warp == warp' && pe == pe' && reg == reg'
    ensures Destination(a, reg) == Destination(a', reg') <==> warp == warp' && pe == pe' && reg == reg'
  {
    OperandIs(n, a, warp, pe, reg);
    OperandIs(n, a', warp', pe', reg');
    RenamingInjective(n, warp, pe, reg, warp', pe', reg');
  }

  /** Renaming produces a reserved number only from that number itself; the two unguarded
      pairings (a source that reads InvalidOutput, a destination that is NoDependence) keep it
      only in lane 0 of warp 0. */
  lemma ReservedIff(n: nat, a: nat, warp: nat, pe: nat, reg: nat)
    requires Queued(a, n, warp, pe) && reg < LREG_MAX
    ensures Source(a, reg) == NO_DEPENDENCE <==> reg == NO_DEPENDENCE
    ensures Destination(a, reg) == INVALID_OUTPUT <==> reg == INVALID_OUTPUT
    ensures Source(a, reg) == INVALID_OUTPUT <==> reg == INVALID_OUTPUT && warp == 0 && pe == 0
    ensures Destination(a, reg) == NO_DEPENDENCE <==> reg == NO_DEPENDENCE && warp == 0 && pe == 0
  {
    OperandIs(n, a, warp, pe, reg);
    RenamedIs(warp * n, pe, reg);
    NonZero(warp, n);
  }

  lemma NonZero(warp: nat, n: nat)
    requires n > 0
    ensures warp * n == 0 <==> warp == 0
  {
  }
}
