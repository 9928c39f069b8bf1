/** Which SM, row and PE every thread of a launch lands in (the loop of reOrganize). */
module Distribution {
  import opened Bits
  import opened ThreadLayout
  import opened StreamingMP

  /** n threads in blocks of blockSize, dealt to numSM SMs of numSP PEs in chunks of
      blocksPerSm blocks. */
  datatype Deal = Deal(n: nat, blockSize: nat, blocksPerSm: nat, numSM: nat, numSP: nat) {
    predicate Ok() {
      blockSize > 0 && blocksPerSm > 0 && numSM > 0 && numSP > 0
    }

    function Chunk(): (k: nat)
      requires Ok()
      ensures k > 0
    {
      PositiveProduct(blocksPerSm, blockSize);
      blocksPerSm * blockSize
    }

    function Start(c: nat): nat
      requires Ok()
    {
      c * Chunk()
    }

    function Count(c: nat): nat
      requires Ok() && Start(c) < n
    {
      if Chunk() > n - Start(c) then n - Start(c) else Chunk()
    }

    /** j chunks have been dealt, and each of them had a thread. */
    predicate Reached(j: nat)
      requires Ok()
    {
      j == 0 || Start(j - 1) < n
    }
  }

  lemma PositiveProduct(a: nat, b: nat)
    requires a > 0 && b > 0
    ensures a * b > 0
  {
  }

  lemma Starts(d: Deal, c: nat, c': nat)
    requires d.Ok() && c < c'
    ensures d.Start(c) + d.Chunk() <= d.Start(c')
    ensures d.Start(c + 1) == d.Start(c) + d.Chunk()
  {
    RowsApart(d.Chunk(), c, c');
    MulDistributes(c, 1, d.Chunk());
  }

  function ChunkRows(d: Deal, c: nat): seq<Run>
    requires d.Ok() && d.Start(c) < d.n
  {
    Layout(d.Start(c), d.Count(c), d.blockSize, d.numSP)
  }

  /** The rows of SM sm after j chunks: those of every numSM-th chunk. */
  function Dealt(d: Deal, j: nat, sm: nat): seq<Run>
    requires d.Ok() && d.Reached(j)
  {
    if j == 0 then []
    else
      ReachedBefore(d, j);
      Dealt(d, j - 1, sm) + if (j - 1) % d.numSM == sm then ChunkRows(d, j - 1) else []
  }

  lemma ReachedBefore(d: Deal, j: nat)
    requires d.Ok() && d.Reached(j) && j > 0
    ensures d.Reached(j - 1)
  {
    if j > 1 {
      Starts(d, j - 2, j - 1);
    }
  }

  function Total(d: Deal, j: nat, sm: nat): nat
    requires d.Ok() && d.Reached(j)
  {
    if j == 0 then 0
    else
      ReachedBefore(d, j);
      Total(d, j - 1, sm) + if (j - 1) % d.numSM == sm then d.Count(j - 1) else 0
  }

  // ----- where a row comes from -----

  lemma {:induction false} RowOrigin(d: Deal, j: nat, sm: nat, r: nat) returns (c: nat, i: nat)
    requires d.Ok() && d.Reached(j) && r < |Dealt(d, j, sm)|
    ensures c < j && c % d.numSM == sm && d.Start(c) < d.n
    ensures i < |ChunkRows(d, c)| && Dealt(d, j, sm)[r] == ChunkRows(d, c)[i]
  {
    ReachedBefore(d, j);
    var before := Dealt(d, j - 1, sm);
    if r < |before| {
      c, i := RowOrigin(d, j - 1, sm, r);
    } else {
      c, i := j - 1, r - |before|;
    }
  }

  lemma ChunkHolds(d: Deal, c: nat)
    requires d.Ok() && d.Start(c) < d.n
    ensures Holds(ChunkRows(d, c), d.Start(c), d.Start(c) + d.Count(c), d.numSP)
    ensures d.Start(c) + d.Count(c) <= d.n && d.Count(c) <= d.Chunk()
  {
    LayoutHolds(d.Start(c), d.Count(c), d.blockSize, d.numSP);
  }

  lemma ChunkRowBounds(d: Deal, c: nat, i: nat)
    requires d.Ok() && d.Start(c) < d.n && i < |ChunkRows(d, c)|
    ensures var u := ChunkRows(d, c)[i];
            d.Start(c) <= u.first && u.first + u.len <= d.Start(c) + d.Chunk() && u.first + u.len <= d.n &&
            0 < u.len <= d.numSP
  {
    ChunkHolds(d, c);
    RowBounds(ChunkRows(d, c), d.Start(c), d.Start(c) + d.Count(c), d.numSP, i);
  }

  lemma InChunk(d: Deal, c: nat, t: nat)
    requires d.Ok() && d.Start(c) <= t < d.Start(c) + d.Chunk()
    ensures t / d.Chunk() == c
  {
    DivModUnique(t, d.Chunk(), c, t - d.Start(c));
  }

  /** The SM a thread goes to. */
  function SmOf(d: Deal, t: nat): (sm: nat)
    requires d.Ok()
    ensures sm < d.numSM
  {
    (t / d.Chunk()) % d.numSM
  }

  /** A row holds between one and numSP threads of the launch, all of them this SM's. */
  lemma RowIsOurs(d: Deal, j: nat, sm: nat, r: nat, p: nat)
    requires d.Ok() && d.Reached(j) && r < |Dealt(d, j, sm)|
    ensures 0 < Dealt(d, j, sm)[r].len <= d.numSP
    ensures p < Dealt(d, j, sm)[r].len ==> CellAt(Dealt(d, j, sm)[r], p) < d.n
    ensures p < Dealt(d, j, sm)[r].len ==> SmOf(d, Dealt(d, j, sm)[r].first + p) == sm
  {
    var c, i := RowOrigin(d, j, sm, r);
    ChunkRowBounds(d, c, i);
    if p < Dealt(d, j, sm)[r].len {
      InChunk(d, c, Dealt(d, j, sm)[r].first + p);
    }
  }

  lemma {:induction false} DealtIncreases(d: Deal, j: nat, sm: nat, r: nat, r': nat)
    requires d.Ok() && d.Reached(j) && r < r' < |Dealt(d, j, sm)|
    ensures Dealt(d, j, sm)[r].first + Dealt(d, j, sm)[r].len <= Dealt(d, j, sm)[r'].first
  {
    ReachedBefore(d, j);
    var before := Dealt(d, j - 1, sm);
    if r' < |before| {
      DealtIncreases(d, j - 1, sm, r, r');
    } else if r < |before| {
      var c, i := RowOrigin(d, j - 1, sm, r);
      ChunkRowBounds(d, c, i);
      Starts(d, c, j - 1);
      ChunkRowBounds(d, j - 1, r' - |before|);
    } else {
      ChunkHolds(d, j - 1);
      RowsIncrease(ChunkRows(d, j - 1), d.Start(j - 1), d.Start(j - 1) + d.Count(j - 1), d.numSP,
                   r - |before|, r' - |before|);
    }
  }

  lemma {:induction false} FindThread(d: Deal, j: nat, c: nat, t: nat) returns (r: nat, p: nat)
    requires d.Ok() && d.Reached(j) && c < j && d.Start(c) <= t < d.n && t < d.Start(c) + d.Chunk()
    ensures r < |Dealt(d, j, c % d.numSM)| && p < d.numSP && CellAt(Dealt(d, j, c % d.numSM)[r], p) == t
  {
    ReachedBefore(d, j);
    if c == j - 1 {
      ChunkHolds(d, c);
      r, p := FindCell(ChunkRows(d, c), d.Start(c), d.Start(c) + d.Count(c), d.numSP, t);
      r := r + |Dealt(d, j - 1, c % d.numSM)|;
    } else {
      r, p := FindThread(d, j - 1, c, t);
    }
  }

  // ----- the whole launch -----

  /** All chunks have been dealt. */
  predicate Done(d: Deal, j: nat)
    requires d.Ok()
  {
    d.Reached(j) && d.n <= d.Start(j)
  }

  lemma ChunkIndex(d: Deal, j: nat, t: nat)
    requires d.Ok() && Done(d, j) && t < d.n
    ensures var c := t / d.Chunk(); c < j && d.Start(c) <= t < d.Start(c) + d.Chunk()
  {
    var k := d.Chunk();
    var c := t / k;
    assert t == c * k + t % k;
    if c >= j {
      StartMonotone(d, j, c);
    }
  }

  lemma StartMonotone(d: Deal, c: nat, c': nat)
    requires d.Ok() && c <= c'
    ensures d.Start(c) <= d.Start(c')
  {
    if c < c' {
      Starts(d, c, c');
    }
  }

  /** Every thread of the launch has a cell ... */
  lemma EveryThreadPlaced(d: Deal, j: nat, t: nat) returns (r: nat, p: nat)
    requires d.Ok() && Done(d, j) && t < d.n
    ensures r < |Dealt(d, j, SmOf(d, t))| && p < d.numSP && CellAt(Dealt(d, j, SmOf(d, t))[r], p) == t
  {
    ChunkIndex(d, j, t);
    r, p := FindThread(d, j, t / d.Chunk(), t);
  }

  /** ... no thread has two, and no other number appears. */
  lemma NoThreadTwice(d: Deal, j: nat, sm: nat, r: nat, p: nat, sm': nat, r': nat, p': nat)
    requires d.Ok() && d.Reached(j) && r < |Dealt(d, j, sm)| && r' < |Dealt(d, j, sm')|
    requires CellAt(Dealt(d, j, sm)[r], p) == CellAt(Dealt(d, j, sm')[r'], p') != PAD
    ensures sm == sm' && r == r' && p == p'
    ensures CellAt(Dealt(d, j, sm)[r], p) < d.n
  {
    RowIsOurs(d, j, sm, r, p);
    RowIsOurs(d, j, sm', r', p');
    if r < r' {
      DealtIncreases(d, j, sm, r, r');
    } else if r' < r {
      DealtIncreases(d, j, sm, r', r);
    }
  }

  /** Blocks go to the SMs in turn, blocksPerSm at a time; no block is split. */
  lemma BlockStaysTogether(d: Deal, t: nat)
    requires d.Ok()
    ensures SmOf(d, t) == t / d.blockSize / d.blocksPerSm % d.numSM
  {
    DivDiv(t, d.blocksPerSm, d.blockSize);
  }

  lemma DivDiv(t: nat, a: nat, b: nat)
    requires a > 0 && b > 0 && a * b > 0
    ensures t / (a * b) == t / b / a
  {
    var q, r := t / b / a, t / b % a;
    assert t == t / b * b + t % b && t / b == q * a + r;
    assert (q * a + r) * b == q * (a * b) + r * b;
    assert r * b + t % b < a * b by {
      assert r * b <= (a - 1) * b;
    }
    DivModUnique(t, a * b, q, r * b + t % b);
  }

  lemma StartIsBlockStart(d: Deal, c: nat)
    requires d.Ok()
    ensures d.Start(c) == c * d.blocksPerSm * d.blockSize
  {
  }

  /** The block recorded for a row is the block of every thread in it. */
  lemma RowIsOneBlock(d: Deal, j: nat, sm: nat, r: nat, p: nat)
    requires d.Ok() && d.Reached(j) && r < |Dealt(d, j, sm)|
    ensures CellAt(Dealt(d, j, sm)[r], 0) != PAD
    ensures CellAt(Dealt(d, j, sm)[r], p) != PAD ==>
              CellAt(Dealt(d, j, sm)[r], p) / d.blockSize == CellAt(Dealt(d, j, sm)[r], 0) / d.blockSize
  {
    RowIsOurs(d, j, sm, r, p);
    var c, i := RowOrigin(d, j, sm, r);
    StartIsBlockStart(d, c);
    LayoutOneBlock(c * d.blocksPerSm, d.Count(c), d.blockSize, d.numSP, i);
  }

  lemma ChunkEnd(d: Deal, c: nat)
    requires d.Ok() && d.Start(c) < d.n
    ensures (d.Start(c) + d.Count(c)) % d.blockSize == 0 || d.Start(c) + d.Count(c) == d.n
  {
    if d.Count(c) == d.Chunk() {
      Starts(d, c, c + 1);
      StartIsBlockStart(d, c + 1);
      DivModUnique(d.Start(c + 1), d.blockSize, (c + 1) * d.blocksPerSm, 0);
    }
  }

  /** A row leaves PEs unused only where a block, or the launch, ends. */
  lemma RowIsFull(d: Deal, j: nat, sm: nat, r: nat)
    requires d.Ok() && d.Reached(j) && r < |Dealt(d, j, sm)|
    ensures var u := Dealt(d, j, sm)[r];
            u.len == d.numSP || (u.first + u.len) % d.blockSize == 0 || u.first + u.len == d.n
  {
    var c, i := RowOrigin(d, j, sm, r);
    StartIsBlockStart(d, c);
    LayoutFull(c * d.blocksPerSm, d.Count(c), d.blockSize, d.numSP, i);
    ChunkEnd(d, c);
  }

  /** warp_block_map: one entry per row, from the thread on PE 0. */
  method WarpBlockMap(column: seq<int>, blockSize: nat) returns (m: seq<int>)
    requires column != [] && blockSize > 0
    ensures |m| == |column| && forall w :: 0 <= w < |m| ==> m[w] == column[w] / blockSize
  {
    var nWarps := |column|;
    var numWarps := nWarps;
    m := [column[nWarps - numWarps] / blockSize];
    numWarps := numWarps - 1;
    while numWarps > 0
      invariant |m| == nWarps - numWarps && numWarps >= 0
      invariant forall w :: 0 <= w < |m| ==> m[w] == column[w] / blockSize
    {
      m := m + [column[nWarps - numWarps] / blockSize];
      numWarps := numWarps - 1;
    }
  }

  /** In the tables of an SM that got its share, the map names the block of every valid thread. */
  lemma MapNamesBlocks(d: Deal, j: nat, sm: nat, t: Tables, m: seq<int>, w: nat, p: nat)
    requires d.Ok() && d.Reached(j) && Shows(t, d.numSP, Dealt(d, j, sm)) && HasColumns(t, d.numSP)
    requires |m| == |t.threads[0]| && forall i :: 0 <= i < |m| ==> m[i] == t.threads[0][i] / d.blockSize
    requires w < |m| && p < d.numSP
    ensures w < |t.threads[p]| && (t.threads[p][w] != PAD ==> t.threads[p][w] / d.blockSize == m[w])
  {
    ShownCell(t, d.numSP, Dealt(d, j, sm), w, p);
    ShownCell(t, d.numSP, Dealt(d, j, sm), w, 0);
    RowIsOneBlock(d, j, sm, w, p);
  }

  /** No row is longer than the SM's thread count. */
  lemma {:induction false} RowWithinTotal(d: Deal, j: nat, sm: nat, r: nat)
    requires d.Ok() && d.Reached(j) && r < |Dealt(d, j, sm)|
    ensures Dealt(d, j, sm)[r].len <= Total(d, j, sm)
  {
    ReachedBefore(d, j);
    var before := Dealt(d, j - 1, sm);
    if r < |before| {
      RowWithinTotal(d, j - 1, sm, r);
    } else {
      assert (j - 1) % d.numSM == sm;
      ChunkRowWithin(d, j - 1, r - |before|);
    }
  }

  lemma ChunkRowWithin(d: Deal, c: nat, i: nat)
    requires d.Ok() && d.Start(c) < d.n && i < |ChunkRows(d, c)|
    ensures ChunkRows(d, c)[i].len <= d.Count(c)
  {
    ChunkHolds(d, c);
    RowBounds(ChunkRows(d, c), d.Start(c), d.Start(c) + d.Count(c), d.numSP, i);
  }

  // ----- conservation -----

  function SumTotals(d: Deal, j: nat, m: nat): nat
    requires d.Ok() && d.Reached(j)
  {
    if m == 0 then 0 else SumTotals(d, j, m - 1) + Total(d, j, m - 1)
  }

  lemma {:induction false} SumStep(d: Deal, j: nat, m: nat)
    requires d.Ok() && d.Reached(j) && j > 0
    ensures d.Reached(j - 1)
    ensures SumTotals(d, j, m) == SumTotals(d, j - 1, m) + if (j - 1) % d.numSM < m then d.Count(j - 1) else 0
  {
    ReachedBefore(d, j);
    if m > 0 {
      SumStep(d, j, m - 1);
    }
  }

  lemma {:induction false} SumNothing(d: Deal, m: nat)
    requires d.Ok()
    ensures SumTotals(d, 0, m) == 0
  {
    if m > 0 {
      SumNothing(d, m - 1);
    }
  }

  /** Every dealt thread is counted once over all SMs. */
  lemma {:induction false} TotalsAddUp(d: Deal, j: nat)
    requires d.Ok() && d.Reached(j)
    ensures SumTotals(d, j, d.numSM) == if d.Start(j) <= d.n then d.Start(j) else d.n
  {
    if j == 0 {
      SumNothing(d, d.numSM);
    } else {
      SumStep(d, j, d.numSM);
      TotalsAddUp(d, j - 1);
      Starts(d, j - 1, j);
    }
  }

  // ----- the loop -----

  ghost predicate Distinct(sms: seq<SM>) {
    forall s, s' :: 0 <= s < s' < |sms| ==> sms[s] != sms[s']
  }

  /** SM s shows its share of the first j chunks. */
  ghost predicate Share(d: Deal, j: nat, s: nat, t: Tables, total: nat)
    requires d.Ok() && d.Reached(j)
  {
    Shows(t, d.numSP, Dealt(d, j, s)) && total == Total(d, j, s)
  }

  lemma ShareTaken(d: Deal, c: nat, s: nat, was: Tables, total: nat, now: Tables)
    requires d.Ok() && d.Reached(c) && d.Start(c) < d.n && c % d.numSM == s && Share(d, c, s, was, total)
    requires Grew(was, now, ChunkRows(d, c), NO_ROW, 0)
    ensures Share(d, c + 1, s, now, total + d.Count(c))
  {
    GrewTwice(Empty(d.numSP), was, now, Dealt(d, c, s), ChunkRows(d, c), NO_ROW);
  }

  lemma ShareSkipped(d: Deal, c: nat, s: nat, t: Tables, total: nat)
    requires d.Ok() && d.Reached(c) && d.Start(c) < d.n && c % d.numSM != s && Share(d, c, s, t, total)
    ensures Share(d, c + 1, s, t, total)
  {
    assert Dealt(d, c + 1, s) == Dealt(d, c, s) + [];
  }

  /** A full chunk, or what is left of the threads. */
  method Give(d: Deal, sm: SM, tmp: nat, ghost c: nat, ghost s: nat)
    requires d.Ok() && sm.numSP == d.numSP && tmp == d.Start(c) < d.n && d.Reached(c) && c % d.numSM == s
    requires Share(d, c, s, sm.tables, sm.totalThreads)
    modifies sm`tables, sm`totalThreads
    ensures Share(d, c + 1, s, sm.tables, sm.totalThreads)
  {
    ghost var was, total := sm.tables, sm.totalThreads;
    ShownCell(was, d.numSP, Dealt(d, c, s), 0, 0);
    if d.Chunk() > d.n - tmp {
      sm.AddThreads(tmp, d.n - tmp, d.blockSize);
    } else {
      sm.AddThreads(tmp, d.Chunk(), d.blockSize);
    }
    ShareTaken(d, c, s, was, total, sm.tables);
  }

  /** One chunk goes to SM (c mod numSM). */
  method DealChunk(d: Deal, sms: seq<SM>, tmp: nat, ghost c: nat)
    requires d.Ok() && |sms| == d.numSM && Distinct(sms) && tmp == d.Start(c) < d.n && d.Reached(c)
    requires forall s :: 0 <= s < |sms| ==> sms[s].numSP == d.numSP
    requires forall s :: 0 <= s < |sms| ==> Share(d, c, s, sms[s].tables, sms[s].totalThreads)
    modifies sms`tables, sms`totalThreads
    ensures forall s :: 0 <= s < |sms| ==> Share(d, c + 1, s, sms[s].tables, sms[s].totalThreads)
  {
    DivModUnique(tmp, d.Chunk(), c, 0);
    var blockid := tmp / d.Chunk();
    var losmid := blockid % d.numSM;
    forall s | 0 <= s < |sms| && s != losmid
      ensures Share(d, c + 1, s, sms[s].tables, sms[s].totalThreads)
    {
      ShareSkipped(d, c, s, sms[s].tables, sms[s].totalThreads);
    }
    Give(d, sms[losmid], tmp, c, losmid);
  }

  lemma NextChunk(d: Deal, c: nat)
    requires d.Ok() && d.Start(c) < d.n
    ensures d.Start(c + 1) == d.Start(c) + d.Chunk() && d.Reached(c + 1)
  {
    Starts(d, c, c + 1);
  }

  lemma NothingDealt(d: Deal, s: nat, t: Tables)
    requires d.Ok() && Shows(t, d.numSP, [])
    ensures d.Reached(0) && d.Start(0) == 0 && Share(d, 0, s, t, 0)
  {
  }

  /** The distribution loop: every SM ends up with its share of all chunks. */
  method Distribute(d: Deal, sms: seq<SM>) returns (ghost j: nat)
    requires d.Ok() && |sms| == d.numSM && Distinct(sms)
    requires forall s :: 0 <= s < |sms| ==> sms[s].numSP == d.numSP && Shows(sms[s].tables, d.numSP, [])
    requires forall s :: 0 <= s < |sms| ==> sms[s].totalThreads == 0
    modifies sms`tables, sms`totalThreads
    ensures Done(d, j)
    ensures forall s :: 0 <= s < |sms| ==> Share(d, j, s, sms[s].tables, sms[s].totalThreads)
  {
    var tmp := 0;
    j := 0;
    forall s | 0 <= s < |sms| ensures Share(d, 0, s, sms[s].tables, sms[s].totalThreads) {
      NothingDealt(d, s, sms[s].tables);
    }
    while tmp < d.n
      invariant tmp == d.Start(j) && d.Reached(j)
      invariant forall s :: 0 <= s < |sms| ==> Share(d, j, s, sms[s].tables, sms[s].totalThreads)
      decreases d.n - tmp
    {
      NextChunk(d, j);
      DealChunk(d, sms, tmp, j);
      tmp := tmp + d.Chunk();
      j := j + 1;
    }
  }
}
