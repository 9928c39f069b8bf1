/** The micro-operations the modelled cracks emit, and what the executor (Sccore) makes of them.

    Registers are 64 bits wide, register 0 reads as zero, and those below 32 are the
    program's and keep 32 bits. Each register carries condition flags; only Z matters here.
    Memory is a map of bytes, and a word is four consecutive ones. */
module Uops {
  import opened Bits

  const W32: nat := 0x1_0000_0000
  const W64: nat := 0x1_0000_0000_0000_0000

  const NREGS: nat := 86
  const VISIBLE: nat := 32

  // Logical registers; ARM register i is i + 1 here.
  const STACKPTR: nat := 14
  const LINK: nat := 15
  const TMP1: nat := 76
  const TMP2: nat := 77
  const TTYPE: nat := 85

  datatype Code = U32Add | U32Sub | U64Add | U32St | U32Ld | S64And | CopyIcc | CmovNe | JmpReg

  datatype Uop = Uop(op: Code, src1: nat, src2: nat, imm: int, dst: nat)

  type byte = x: nat | x < 256

  type Memory = map<nat, byte>

  datatype Core = Core(regs: seq<nat>, mem: Memory, jumps: seq<nat>)

  /** zero[r] is the Z flag kept with register r. */
  datatype Machine = Machine(core: Core, zero: seq<bool>)

  predicate Shaped(s: Machine) {
    |s.core.regs| == |s.zero| == NREGS
  }

  ghost predicate Ok(c: Core) {
    && |c.regs| == NREGS && c.regs[0] == 0
    && (forall r :: 0 <= r < NREGS ==> c.regs[r] < W64)
    && (forall r :: 0 <= r < VISIBLE ==> c.regs[r] < W32)
  }

  ghost predicate Valid(s: Machine) {
    Shaped(s) && Ok(s.core)
  }

  predicate WellFormed(u: Uop) {
    u.src1 < NREGS && u.src2 < NREGS && u.dst < NREGS
  }

  predicate AllWellFormed(us: seq<Uop>) {
    forall i :: 0 <= i < |us| ==> WellFormed(us[i])
  }

  // ----- little-endian words -----

  function Byte(m: Memory, a: nat): byte {
    if a in m then m[a] else 0
  }

  function Load32(m: Memory, a: nat): nat {
    Byte(m, a) + 256 * Byte(m, a + 1) + 65536 * Byte(m, a + 2) + 16777216 * Byte(m, a + 3)
  }

  function Store32(m: Memory, a: nat, v: nat): Memory {
    m[a := v % 256][a + 1 := v / 256 % 256][a + 2 := v / 256 / 256 % 256][a + 3 := v / 256 / 256 / 256 % 256]
  }

  lemma LoadStored(m: Memory, a: nat, v: nat)
    ensures Load32(Store32(m, a, v), a) == v % W32
  {
    var b0, b1, b2, b3 := v % 256, v / 256 % 256, v / 256 / 256 % 256, v / 256 / 256 / 256 % 256;
    var q := v / 256 / 256 / 256 / 256;
    DivModUnique(v, W32, q, b0 + 256 * b1 + 65536 * b2 + 16777216 * b3);
  }

  lemma LoadElsewhere(m: Memory, a: nat, v: nat, b: nat)
    requires b + 4 <= a || a + 4 <= b
    ensures Load32(Store32(m, a, v), b) == Load32(m, b)
  {
  }

  /** The address of a word access: `a & 0xFFFFFFFE`. */
  function Masked(a: nat): nat {
    a % W32 - a % W32 % 2
  }

  lemma MaskedIsAnd(a: nat)
    ensures Masked(a) == And(a, 0xFFFF_FFFE)
  {
    var half := 0x8000_0000;
    assert And(a, 0xFFFF_FFFE) == 2 * And(a / 2, half - 1) by {
      if a == 0 {
        AndZero(0);
      }
    }
    HalfIsPow2();
    MaskIsMod(a / 2, half);
    ModDouble(a, half);
    OddHalf(a, half);
  }

  lemma OddHalf(a: nat, half: nat)
    requires half > 0 && a % (2 * half) == 2 * (a / 2 % half) + a % 2
    ensures a % (2 * half) - a % (2 * half) % 2 == 2 * (a / 2 % half)
  {
    var x := a / 2 % half;
    DivModUnique(2 * x + a % 2, 2, x, a % 2);
  }

  lemma HalfIsPow2()
    ensures IsPow2(0x8000_0000)
  {
    assert Pow2(4) == 16;
    Pow2Add(4, 4);
    Pow2Add(8, 8);
    Pow2Add(16, 8);
    assert Pow2(7) == 128;
    Pow2Add(24, 7);
    Pow2IsPow2(31);
  }

  // ----- execution -----

  /** A destination below 32 keeps 32 bits. */
  function Kept(dst: nat, v: nat): nat {
    if dst < VISIBLE then v % W32 else v
  }

  function SetDst(s: Machine, dst: nat, v: nat, z: bool): Machine
    requires Shaped(s) && dst < NREGS
  {
    if dst == 0 then s
    else Machine(s.core.(regs := s.core.regs[dst := Kept(dst, v)]), s.zero[dst := z])
  }

  /** 32-bit arithmetic on both halves of a register; an immediate goes to each half. */
  function AddHalves(a: nat, b: nat, imm: int): nat {
    var lo, hi := if imm != 0 then imm else b % W32, if imm != 0 then imm else b / W32;
    (a / W32 + hi) % W32 * W32 + (a % W32 + lo) % W32
  }

  function SubHalves(a: nat, b: nat, imm: int): nat {
    var lo, hi := if imm != 0 then imm else b % W32, if imm != 0 then imm else b / W32;
    (a / W32 - hi) % W32 * W32 + (a % W32 - lo) % W32
  }

  /** Masking with a sign-extended immediate: a negative one keeps all but its complement. */
  function AndSigned(a: nat, imm: int): int {
    if imm >= 0 then And(a, imm) else a - And(a, -imm - 1)
  }

  lemma AndSignedIsNat(a: nat, imm: int)
    ensures AndSigned(a, imm) >= 0
  {
    if imm < 0 {
      AndAtMost(a, -imm - 1);
    }
  }

  lemma {:induction false} AndAtMost(a: nat, b: nat)
    ensures And(a, b) <= a
  {
    if a > 0 {
      AndAtMost(a / 2, b / 2);
    }
  }

  function Exec(u: Uop, s: Machine): (r: Machine)
    requires WellFormed(u) && Shaped(s)
    ensures Shaped(r)
  {
    var a, b := s.core.regs[u.src1], s.core.regs[u.src2];
    match u.op
    case U32Add => var v := AddHalves(a, b, u.imm); SetDst(s, u.dst, v, v % W32 == 0)
    case U32Sub => var v := SubHalves(a, b, u.imm); SetDst(s, u.dst, v, v % W32 == 0)
    case U64Add => var v := (a + if u.imm != 0 then u.imm else b) % W64; SetDst(s, u.dst, v, v == 0)
    case U32St => s.(core := s.core.(mem := Store32(s.core.mem, Masked(a), if u.imm != 0 then u.imm % W32 else b % W32)))
    case U32Ld => SetDst(s, u.dst, Load32(s.core.mem, Masked(a)), false)
    case S64And =>
      AndSignedIsNat(a, u.imm);
      var v: nat := if u.imm != 0 then AndSigned(a, u.imm) else And(a, b);
      SetDst(s, u.dst, v, v == 0)
    case CopyIcc => SetDst(s, u.dst, b, s.zero[u.src1])
    case CmovNe =>
      if !s.zero[u.src1] then SetDst(s, u.dst, a, s.zero[u.src1])
      else SetDst(s, u.dst, if u.imm != 0 then u.imm % W64 else b, s.zero[u.src2])
    case JmpReg => s.(core := s.core.(jumps := s.core.jumps + [a]))
  }

  /** The executor stops at a jump; the lists modelled here have none before their last uop. */
  function Run(us: seq<Uop>, s: Machine): (r: Machine)
    requires AllWellFormed(us) && Shaped(s)
    ensures Shaped(r)
  {
    if us == [] then s else Run(us[1..], Exec(us[0], s))
  }

  lemma {:induction false} RunConcat(a: seq<Uop>, b: seq<Uop>, s: Machine)
    requires AllWellFormed(a) && AllWellFormed(b) && Shaped(s)
    ensures Run(a + b, s) == Run(b, Run(a, s))
  {
    if a == [] {
      assert a + b == b;
    } else {
      assert (a + b)[1..] == a[1..] + b;
      RunConcat(a[1..], b, Exec(a[0], s));
    }
  }

  // ----- the register file stays in range -----

  lemma SetDstValid(s: Machine, dst: nat, v: nat, z: bool)
    requires Valid(s) && dst < NREGS && v < W64
    ensures Valid(SetDst(s, dst, v, z))
  {
  }

  /** No uop leaves a value a register cannot hold: register 0 stays zero, the program's
      registers stay within 32 bits and the others within 64. */
  lemma ExecValid(u: Uop, s: Machine)
    requires WellFormed(u) && Valid(s)
    ensures Valid(Exec(u, s))
  {
    var a, b, imm := s.core.regs[u.src1], s.core.regs[u.src2], u.imm;
    match u.op
    case U32Add => SetDstValid(s, u.dst, AddHalves(a, b, imm), AddHalves(a, b, imm) % W32 == 0);
    case U32Sub => SetDstValid(s, u.dst, SubHalves(a, b, imm), SubHalves(a, b, imm) % W32 == 0);
    case U64Add =>
    case U32St =>
    case U32Ld => SetDstValid(s, u.dst, Load32(s.core.mem, Masked(a)), false);
    case S64And =>
      AndSignedIsNat(a, imm);
      AndSignedAtMost(a, imm);
      AndAtMost(a, b);
    case CopyIcc =>
    case CmovNe =>
    case JmpReg =>
  }

  lemma AndSignedAtMost(a: nat, imm: int)
    ensures AndSigned(a, imm) <= a
  {
    if imm >= 0 {
      AndAtMost(a, imm);
    }
  }

  lemma {:induction false} RunValid(us: seq<Uop>, s: Machine)
    requires AllWellFormed(us) && Valid(s)
    ensures Valid(Run(us, s))
  {
    if us != [] {
      ExecValid(us[0], s);
      RunValid(us[1..], Exec(us[0], s));
    }
  }
}
