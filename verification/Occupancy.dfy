/** How many thread blocks an SM runs at once, and what a launch makes of that number. */
module Occupancy {
  import opened Bits

  datatype Limits = Limits(blocks: nat, warps: nat, shmem: nat, regs: nat)

  /** What one block takes of an SM. */
  datatype Demand = Demand(warps: nat, shmem: nat, regs: nat)

  datatype Launch = CannotLaunch | Launch(concWarps: nat, blocksPerSm: nat, threadsPerSm: nat)

  predicate Fits(l: Limits, d: Demand, n: nat) {
    d.warps * n <= l.warps && d.shmem * n <= l.shmem && d.regs * n <= l.regs
  }

  /** n is the greatest block count within every limit. */
  ghost predicate Greatest(l: Limits, d: Demand, n: nat) {
    n <= l.blocks && Fits(l, d, n) && forall m :: 0 <= m <= l.blocks && Fits(l, d, m) ==> m <= n
  }

  lemma FitsFewer(l: Limits, d: Demand, m: nat, n: nat)
    requires m <= n && Fits(l, d, n)
    ensures Fits(l, d, m)
  {
    MulMonotone(d.warps, m, n);
    MulMonotone(d.shmem, m, n);
    MulMonotone(d.regs, m, n);
  }

  lemma MulMonotone(a: nat, m: nat, n: nat)
    requires m <= n
    ensures a * m <= a * n
  {
  }

  lemma FirstMisfit(l: Limits, d: Demand, n: nat, i: nat)
    requires i == n + 1 && i <= l.blocks && Fits(l, d, n) && !Fits(l, d, i)
    ensures Greatest(l, d, n)
  {
    forall m | 0 <= m <= l.blocks && Fits(l, d, m) ensures m <= n {
      if m >= i {
        FitsFewer(l, d, i, m);
      }
    }
  }

  /** The least multiple from x on; nothing to round to leaves x alone. */
  function RoundUp(x: nat, multiple: nat): (r: nat)
    ensures multiple == 0 ==> r == x
    ensures multiple > 0 ==> r % multiple == 0 && x <= r < x + multiple
  {
    if multiple == 0 then x
    else
      var remainder := x % multiple;
      NextMultiple(x, multiple);
      if remainder == 0 then x else x + multiple - remainder
  }

  lemma NextMultiple(x: nat, n: nat)
    requires n > 0
    ensures (x + n - x % n) % n == 0
  {
    DivModUnique(x + n - x % n, n, x / n + 1, 0);
  }

  /** A block of threads, and what its kernel asks for before rounding. */
  datatype Kernel = Kernel(blockSize: nat, warpSize: nat, regsPerThread: nat, regGranularity: nat,
                           shmem: nat, shmemGranularity: nat)

  function WarpsPerBlock(k: Kernel): (w: nat)
    requires k.warpSize > 0
    ensures k.blockSize <= w * k.warpSize && (w == 0 || (w - 1) * k.warpSize < k.blockSize)
    ensures w == 0 <==> k.blockSize == 0
  {
    var q, r := k.blockSize / k.warpSize, k.blockSize % k.warpSize;
    CeilingBounds(k.blockSize, k.warpSize, q, r);
    if r > 0 then q + 1 else q
  }

  lemma CeilingBounds(x: nat, n: nat, q: nat, r: nat)
    requires n > 0 && q == x / n && r == x % n
    ensures x == q * n + r && (q + 1) * n == q * n + n && (q - 1) * n == q * n - n
  {
  }

  function DemandOf(k: Kernel): Demand
    requires k.warpSize > 0
  {
    Demand(WarpsPerBlock(k), RoundUp(k.shmem, k.shmemGranularity),
           RoundUp(k.regsPerThread * k.warpSize, k.regGranularity) * WarpsPerBlock(k))
  }

  /** A value x rounded to a granularity: nothing less, and no more than needed. */
  ghost predicate IsRounded(r: nat, x: nat, granularity: nat) {
    if granularity == 0 then r == x else r % granularity == 0 && x <= r < x + granularity
  }

  /** A block takes its warps' registers, each warp's rounded for all its threads, and its shared
      memory rounded. */
  lemma DemandMeaning(k: Kernel) returns (regs: nat)
    requires k.warpSize > 0
    ensures DemandOf(k).warps == WarpsPerBlock(k) && DemandOf(k).regs == regs * WarpsPerBlock(k)
    ensures IsRounded(regs, k.regsPerThread * k.warpSize, k.regGranularity)
    ensures IsRounded(DemandOf(k).shmem, k.shmem, k.shmemGranularity)
    ensures DemandOf(k).regs >= k.regsPerThread * k.warpSize * WarpsPerBlock(k)
  {
    regs := RoundUp(k.regsPerThread * k.warpSize, k.regGranularity);
    MulMonotone(WarpsPerBlock(k), k.regsPerThread * k.warpSize, regs);
  }

  /** The search loop: n * warps-per-block for the greatest n. */
  method CalcOccupancy(l: Limits, k: Kernel) returns (concWarps: nat)
    requires k.warpSize > 0
    ensures exists n: nat :: Greatest(l, DemandOf(k), n) && concWarps == n * WarpsPerBlock(k)
  {
    var d := DemandOf(k);
    var i := 1;
    ghost var n := 0;
    while i <= l.blocks
      invariant i == n + 1 && n <= l.blocks && Fits(l, d, n)
    {
      if d.warps * i > l.warps {
        FirstMisfit(l, d, n, i);
        return (i - 1) * d.warps;
      }
      if d.shmem * i > l.shmem {
        FirstMisfit(l, d, n, i);
        return (i - 1) * d.warps;
      }
      if d.regs * i > l.regs {
        FirstMisfit(l, d, n, i);
        return (i - 1) * d.warps;
      }
      n := i;
      i := i + 1;
    }
    assert Greatest(l, d, n);
    return (i - 1) * d.warps;
  }

  /** Dividing the warp count by the warps of a block gives the block count back. */
  lemma DivisionRecovers(n: nat, w: nat)
    requires w > 0
    ensures n * w / w == n
  {
    DivModUnique(n * w, w, n, 0);
  }

  lemma GreatestIsPositiveIff(l: Limits, d: Demand, n: nat)
    requires Greatest(l, d, n)
    ensures n > 0 <==> l.blocks > 0 && Fits(l, d, 1)
  {
    if n > 0 {
      FitsFewer(l, d, 1, n);
    }
  }

  /** The launch plan: refused exactly when not even one block fits; otherwise the greatest
      block count, recovered by division, and the threads it stands for. */
  method Plan(l: Limits, k: Kernel) returns (p: Launch)
    requires k.warpSize > 0
    ensures p == CannotLaunch <==> k.blockSize == 0 || l.blocks == 0 || !Fits(l, DemandOf(k), 1)
    ensures p.Launch? ==> Greatest(l, DemandOf(k), p.blocksPerSm) && p.blocksPerSm > 0
    ensures p.Launch? ==> p.concWarps == p.blocksPerSm * WarpsPerBlock(k)
    ensures p.Launch? ==> p.threadsPerSm == p.blocksPerSm * k.blockSize
  {
    var concWarps := CalcOccupancy(l, k);
    ghost var n: nat :| Greatest(l, DemandOf(k), n) && concWarps == n * WarpsPerBlock(k);
    GreatestIsPositiveIff(l, DemandOf(k), n);
    var w := WarpsPerBlock(k);
    if concWarps == 0 {
      return CannotLaunch;
    }
    DivisionRecovers(n, w);
    var blocksPerSm := concWarps / w;
    return Launch(concWarps, blocksPerSm, blocksPerSm * k.blockSize);
  }
}
