/** Register lists of the multiple load and store instructions: which bits are set, how many,
    and the addresses that go with them. */
module RegLists {
  import opened Bits
  import opened Uops

  predicate BitSet(r: nat, k: nat) {
    Shr(r, k) % 2 == 1
  }

  /** The set bits among the lowest n, ascending. */
  function Listed(r: nat, n: nat): (l: seq<nat>)
    ensures forall i :: 0 <= i < |l| ==> l[i] < n
  {
    if n == 0 then [] else Listed(r, n - 1) + (if BitSet(r, n - 1) then [n - 1] else [])
  }

  lemma {:induction false} ShrNext(r: nat, k: nat)
    ensures Shr(r, k + 1) == Shr(r, k) / 2
  {
    if k > 0 {
      ShrNext(r / 2, k - 1);
    }
  }

  lemma {:induction false} ListedCounts(r: nat, n: nat)
    ensures |Listed(r, n)| + PopCount(Shr(r, n)) == PopCount(r)
  {
    if n > 0 {
      ListedCounts(r, n - 1);
      ShrNext(r, n - 1);
    }
  }

  lemma {:induction false} ShrSmall(r: nat, n: nat)
    requires r < Pow2(n)
    ensures Shr(r, n) == 0
  {
    if n > 0 {
      ShrSmall(r / 2, n - 1);
    }
  }

  lemma {:induction false} ListedIff(r: nat, n: nat, i: nat)
    ensures i in Listed(r, n) <==> i < n && BitSet(r, i)
  {
    if n > 0 {
      ListedIff(r, n - 1, i);
    }
  }

  // ----- bits of the operators -----

  lemma {:induction false} BitOfAnd(a: nat, b: nat, i: nat)
    ensures BitSet(And(a, b), i) <==> BitSet(a, i) && BitSet(b, i)
  {
    if a == 0 {
      ShrOfZero(i);
    } else if i > 0 {
      assert And(a, b) / 2 == And(a / 2, b / 2);
      BitOfAnd(a / 2, b / 2, i - 1);
    }
  }

  lemma {:induction false} BitOfOr(a: nat, b: nat, i: nat)
    ensures BitSet(Or(a, b), i) <==> BitSet(a, i) || BitSet(b, i)
  {
    if a == 0 && b == 0 {
      ShrOfZero(i);
    } else if i > 0 {
      assert Or(a, b) / 2 == Or(a / 2, b / 2);
      BitOfOr(a / 2, b / 2, i - 1);
    }
  }

  lemma {:induction false} BitOfPow2(k: nat, i: nat)
    ensures BitSet(Pow2(k), i) <==> i == k
  {
    if i > 0 {
      if k == 0 {
        ShrOfZero(i - 1);
      } else {
        BitOfPow2(k - 1, i - 1);
      }
    }
  }

  lemma {:induction false} BitOfOnes(k: nat, i: nat)
    ensures BitSet(Pow2(k) - 1, i) <==> i < k
  {
    if k == 0 {
      ShrOfZero(i);
    } else {
      assert (Pow2(k) - 1) / 2 == Pow2(k - 1) - 1;
      if i > 0 {
        BitOfOnes(k - 1, i - 1);
      }
    }
  }

  lemma {:induction false} ShrOfZero(k: nat)
    ensures Shr(0, k) == 0
  {
    if k > 0 {
      ShrOfZero(k - 1);
    }
  }

  lemma {:induction false} OrBelow(a: nat, b: nat, n: nat)
    requires a < Pow2(n) && b < Pow2(n)
    ensures Or(a, b) < Pow2(n)
  {
    if n > 0 {
      OrBelow(a / 2, b / 2, n - 1);
    }
  }

  lemma {:induction false} AndBelow(a: nat, b: nat)
    ensures And(a, b) <= b
  {
    if a > 0 {
      AndBelow(a / 2, b / 2);
    }
  }

  /** `(b8 << k) | (insn & 0xFF)`: the register mask of PUSH (k = 14) and POP (k = 15). */
  function FieldMask(insn: nat, k: nat): nat {
    Or(if BitSet(insn, 8) then Pow2(k) else 0, And(insn, 0xFF))
  }

  lemma FieldMaskBelow(insn: nat, k: nat)
    requires k >= 8
    ensures FieldMask(insn, k) < Pow2(k + 1)
  {
    AndBelow(insn, 0xFF);
    assert Pow2(8) == 256;
    Pow2Monotone(8, k + 1);
    OrBelow(if BitSet(insn, 8) then Pow2(k) else 0, And(insn, 0xFF), k + 1);
  }

  lemma {:induction false} Pow2Monotone(j: nat, k: nat)
    requires j <= k
    ensures Pow2(j) <= Pow2(k)
  {
    if j < k {
      Pow2Monotone(j, k - 1);
    }
  }

  /** Bits 0 to 7 of the mask are those of the instruction, bit k is its bit 8, no other is set. */
  lemma FieldMaskBits(insn: nat, k: nat, i: nat)
    ensures BitSet(FieldMask(insn, k), i) <==> (i < 8 && BitSet(insn, i)) || (i == k && BitSet(insn, 8))
  {
    var high := if BitSet(insn, 8) then Pow2(k) else 0;
    BitOfOr(high, And(insn, 0xFF), i);
    BitOfAnd(insn, 0xFF, i);
    assert Pow2(8) == 256;
    BitOfOnes(8, i);
    BitOfPow2(k, i);
    ShrOfZero(i);
  }

  /** `for (count = 0; reglist2; count++) reglist2 &= reglist2 - 1` counts the set bits. */
  method CountBits(reglist: nat) returns (count: nat)
    ensures count == PopCount(reglist)
  {
    var reglist2 := reglist;
    count := 0;
    while reglist2 != 0
      invariant count + PopCount(reglist2) == PopCount(reglist)
      decreases reglist2
    {
      ClearLowestBit(reglist2);
      reglist2 := And(reglist2, reglist2 - 1);
      count := count + 1;
    }
  }

  // ----- consecutive words -----

  /** The addresses the executor uses for c words from a base. */
  function WordAddrs(base: nat, c: nat): (ads: seq<nat>)
    ensures |ads| == c && forall k :: 0 <= k < c ==> ads[k] == Masked(base + 4 * k)
  {
    seq(c, k requires 0 <= k < c => Masked(base + 4 * k))
  }

  /** The manual's addresses: 32-bit registers, so they wrap. */
  function WrappedAddrs(base: nat, c: nat): (ads: seq<nat>)
    ensures |ads| == c && forall k :: 0 <= k < c ==> ads[k] == (base + 4 * k) % W32
  {
    seq(c, k requires 0 <= k < c => (base + 4 * k) % W32)
  }

  lemma MaskedIff(base: nat, k: nat)
    ensures Masked(base + 4 * k) == (base + 4 * k) % W32 <==> base % 2 == 0
  {
    DivModUnique(base + 4 * k, 2, base / 2 + 2 * k, base % 2);
    EvenLow(base + 4 * k);
  }

  lemma EvenLow(x: nat)
    ensures x % W32 % 2 == x % 2
  {
  }

  /** The executor's word addresses are the manual's exactly when the base is even. */
  lemma AddrsAgreeIff(base: nat, c: nat)
    requires c > 0
    ensures WordAddrs(base, c) == WrappedAddrs(base, c) <==> base % 2 == 0
  {
    var ads, manual := WordAddrs(base, c), WrappedAddrs(base, c);
    forall k | 0 <= k < c ensures ads[k] == manual[k] <==> base % 2 == 0 {
      MaskedIff(base, k);
    }
    assert ads[0] == manual[0] <==> base % 2 == 0;
  }

  /** The address temporary is 64 bits wide; an access sees its low half. */
  lemma MaskedWraps(x: nat)
    ensures Masked(x % W64) == Masked(x)
  {
    var low := x % W64;
    assert x == x / W64 * W32 * W32 + low;
    DivModUnique(x, W32, x / W64 * W32 + low / W32, low % W32);
  }

  lemma MaskedOf(x: nat, q: nat, half: nat, bit: nat)
    requires bit < 2 && 2 * half + bit < W32 && x == q * W32 + (2 * half + bit)
    ensures Masked(x) == 2 * half
  {
    DivModUnique(x, W32, q, 2 * half + bit);
    DivModUnique(2 * half + bit, 2, half, bit);
  }

  lemma MaskedStep(x: nat, d: nat)
    requires d % 4 == 0 && d <= W32 - 4
    ensures Masked(x + d) == if Masked(x) + d < W32 then Masked(x) + d else Masked(x) + d - W32
  {
    var q, half, bit, e := x / W32, x % W32 / 2, x % W32 % 2, d / 2;
    MaskedOf(x, q, half, bit);
    if 2 * half + d < W32 {
      MaskedOf(x + d, q, half + e, bit);
    } else {
      MaskedOf(x + d, q + 1, half + e - W32 / 2, bit);
    }
  }

  /** Different words do not share a byte, even where the addresses go around. */
  lemma WordsApart(base: nat, j: nat, k: nat)
    requires j < k <= W32 / 4 - 1
    ensures var a, b := Masked(base + 4 * j), Masked(base + 4 * k); a + 4 <= b || b + 4 <= a
  {
    MaskedStep(base + 4 * j, 4 * (k - j));
  }

  function StoreAt(m: Memory, ads: seq<nat>, vs: seq<nat>): Memory
    requires |ads| == |vs|
  {
    if ads == [] then m
    else Store32(StoreAt(m, ads[..|ads| - 1], vs[..|vs| - 1]), ads[|ads| - 1], vs[|vs| - 1])
  }

  lemma StoreAtLast(m: Memory, base: nat, vs: seq<nat>, v: nat)
    ensures StoreAt(m, WordAddrs(base, |vs| + 1), vs + [v]) ==
            Store32(StoreAt(m, WordAddrs(base, |vs|), vs), Masked(base + 4 * |vs|), v)
  {
    assert WordAddrs(base, |vs| + 1)[..|vs|] == WordAddrs(base, |vs|);
    assert (vs + [v])[..|vs|] == vs;
  }

  /** Reading the k-th stored word back, wherever the words lie. */
  lemma {:induction false} LoadBack(m: Memory, base: nat, vs: seq<nat>, k: nat)
    requires k < |vs| <= W32 / 4
    ensures Load32(StoreAt(m, WordAddrs(base, |vs|), vs), Masked(base + 4 * k)) == vs[k] % W32
  {
    var n := |vs| - 1;
    StoreAtLast(m, base, vs[..n], vs[n]);
    assert vs[..n] + [vs[n]] == vs;
    LoadBackStep(StoreAt(m, WordAddrs(base, n), vs[..n]), base, vs[n], n, k);
    if k < n {
      LoadBack(m, base, vs[..n], k);
    }
  }

  lemma LoadBackStep(before: Memory, base: nat, v: nat, n: nat, k: nat)
    requires k <= n < W32 / 4
    ensures Load32(Store32(before, Masked(base + 4 * n), v), Masked(base + 4 * k)) ==
            if k == n then v % W32 else Load32(before, Masked(base + 4 * k))
  {
    if k == n {
      LoadStored(before, Masked(base + 4 * n), v);
    } else {
      WordsApart(base, k, n);
      LoadElsewhere(before, Masked(base + 4 * n), v, Masked(base + 4 * k));
    }
  }

  /** Bytes outside the words keep their values. */
  lemma {:induction false} StoreAtElsewhere(m: Memory, base: nat, vs: seq<nat>, a: nat)
    requires forall k :: 0 <= k < |vs| ==> !(WordAddrs(base, |vs|)[k] <= a < WordAddrs(base, |vs|)[k] + 4)
    ensures Byte(StoreAt(m, WordAddrs(base, |vs|), vs), a) == Byte(m, a)
  {
    if vs != [] {
      var n := |vs| - 1;
      StoreAtLast(m, base, vs[..n], vs[n]);
      assert vs[..n] + [vs[n]] == vs;
      assert WordAddrs(base, n + 1)[n] == Masked(base + 4 * n);
      forall k | 0 <= k < n ensures !(WordAddrs(base, n)[k] <= a < WordAddrs(base, n)[k] + 4) {
        assert WordAddrs(base, n)[k] == WordAddrs(base, n + 1)[k];
      }
      StoreAtElsewhere(m, base, vs[..n], a);
    }
  }

  /** The immediate 0xFFFFFFFE is -2 in a uop; as a mask it clears bit 0. */
  lemma ClearBitZero(x: nat)
    ensures AndSigned(x, -2) == x - x % 2
  {
    AndZero(x / 2);
  }
}
