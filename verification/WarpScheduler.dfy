/** Which warp of an SM runs next (switch2nextwarp), as a function of the warp states. */
module WarpScheduler {
  import opened Bits

  datatype WarpStatus = TraceReady | WaitingTSFIFO | WaitingBarrier | WaitingMemory | RelaunchReady | WarpComplete

  /** currentwarpid, currentwarpset, concurrent_warp_count and warpsets of an SM. */
  datatype Cursor = Cursor(id: nat, warpSet: nat, conc: nat, sets: nat)

  function Current(c: Cursor): nat {
    c.warpSet * c.conc + c.id
  }

  /** The cursor is inside its sets and every warp of the sets exists. */
  predicate InRange(c: Cursor, rows: nat) {
    c.id < c.conc && c.warpSet < c.sets && c.sets * c.conc <= rows
  }

  /** Warp i of the cursor's set. */
  function AtId(c: Cursor, i: nat): nat {
    c.warpSet * c.conc + i
  }

  lemma SetFits(c: Cursor, rows: nat, i: nat)
    requires InRange(c, rows) && i < c.conc
    ensures AtId(c, i) < rows
  {
    RowsApart(c.conc, c.warpSet, c.sets);
  }

  /** The indices the cursor can reach exist exactly when all sets fit in the rows. */
  lemma SetsFitIff(conc: nat, sets: nat, rows: nat)
    requires conc > 0 && sets > 0
    ensures (forall s: nat, i: nat :: s < sets && i < conc ==> Current(Cursor(i, s, conc, sets)) < rows) <==>
            sets * conc <= rows
  {
    if sets * conc <= rows {
      forall s: nat, i: nat | s < sets && i < conc ensures Current(Cursor(i, s, conc, sets)) < rows {
        SetFits(Cursor(i, s, conc, sets), rows, i);
      }
    } else {
      assert (sets - 1) * conc + conc == sets * conc;
      assert Current(Cursor(conc - 1, sets - 1, conc, sets)) >= rows;
    }
  }

  /** updateCurrentWarps and the warp sets of reOrganize: concWarps warps at once, or all rows if
      there are fewer, and as many sets of concWarps as the timing warps need. */
  function Launched(concWarps: nat, rows: nat, timing: nat): Cursor
    requires concWarps > 0
  {
    Cursor(0, 0, if concWarps > rows then rows else concWarps,
           timing / concWarps + if timing % concWarps != 0 then 1 else 0)
  }

  /** What a launch has to meet: a single set holds all rows and all timing warps, or the sets,
      counted in full, fit in the rows. */
  predicate Fits(concWarps: nat, rows: nat, timing: nat)
    requires concWarps > 0
  {
    rows > 0 && if rows <= concWarps then timing <= concWarps else Launched(concWarps, rows, timing).sets * concWarps <= rows
  }

  lemma LaunchedFitsIff(concWarps: nat, rows: nat, timing: nat)
    requires concWarps > 0
    ensures InRange(Launched(concWarps, rows, timing), rows) <==> timing > 0 && Fits(concWarps, rows, timing)
  {
    var sets := Launched(concWarps, rows, timing).sets;
    SetsNeeded(timing, concWarps);
    if 0 < rows <= concWarps {
      if sets >= 2 {
        RowsApart(rows, 1, sets);
      }
    }
  }

  lemma SetsNeeded(timing: nat, concWarps: nat)
    requires concWarps > 0
    ensures var sets := timing / concWarps + if timing % concWarps != 0 then 1 else 0;
            (sets == 0 <==> timing == 0) && (sets <= 1 <==> timing <= concWarps)
  {
    var q, r := timing / concWarps, timing % concWarps;
    assert timing == q * concWarps + r;
    if q >= 1 {
      RowsApart(concWarps, 0, q);
      if q >= 2 {
        RowsApart(concWarps, 1, q);
      }
    }
  }

  /** A launch starts at the first warp of the first set, with as many warps at once as there are
      rows for, and the least number of sets that holds the timing warps. */
  lemma LaunchedMeaning(concWarps: nat, rows: nat, timing: nat)
    requires concWarps > 0
    ensures var c := Launched(concWarps, rows, timing);
            && Current(c) == 0 && c.conc <= concWarps && c.conc <= rows && (c.conc == concWarps || c.conc == rows)
            && timing <= c.sets * concWarps && (c.sets > 0 ==> (c.sets - 1) * concWarps < timing)
  {
    var q, r := timing / concWarps, timing % concWarps;
    assert timing == q * concWarps + r;
    MulDistributes(q, 1, concWarps);
    MulDistributes(q, -1, concWarps);
  }

  // ----- moving -----

  function NextId(c: Cursor): nat {
    if c.id + 1 >= c.conc then 0 else c.id + 1
  }

  /** The warp k moves ahead, for at most one round. */
  function Ahead(c: Cursor, k: nat): (i: nat)
    requires c.id < c.conc && k <= c.conc
    ensures i < c.conc
  {
    if c.id + k < c.conc then c.id + k else c.id + k - c.conc
  }

  predicate Skips(st: WarpStatus, barrier: bool) {
    st == WarpComplete || (barrier && st == WaitingBarrier)
  }

  predicate SkipsAhead(ws: seq<WarpStatus>, c: Cursor, barrier: bool, k: nat)
    requires InRange(c, |ws|) && k <= c.conc
  {
    SetFits(c, |ws|, Ahead(c, k));
    Skips(ws[AtId(c, Ahead(c, k))], barrier)
  }

  /** How many moves a search makes when k have been made: to the next warp not skipped, or once
      around. */
  function Moves(ws: seq<WarpStatus>, c: Cursor, barrier: bool, k: nat): (m: nat)
    requires InRange(c, |ws|) && k <= c.conc
    ensures k <= m <= c.conc && (k < c.conc ==> k < m)
    decreases c.conc - k
  {
    if k == c.conc then k
    else if !SkipsAhead(ws, c, barrier, k + 1) then k + 1
    else Moves(ws, c, barrier, k + 1)
  }

  lemma {:induction false} MovesIsFirst(ws: seq<WarpStatus>, c: Cursor, barrier: bool, k: nat)
    requires InRange(c, |ws|) && k <= c.conc
    ensures var m := Moves(ws, c, barrier, k);
            (forall i :: k < i < m ==> SkipsAhead(ws, c, barrier, i)) &&
            (m < c.conc && k < m ==> !SkipsAhead(ws, c, barrier, m))
    decreases c.conc - k
  {
    if k < c.conc && SkipsAhead(ws, c, barrier, k + 1) {
      MovesIsFirst(ws, c, barrier, k + 1);
    }
  }

  /** The whole decision: the cursor afterwards and whether a warp was found. */
  function Switch(ws: seq<WarpStatus>, c: Cursor): (r: (Cursor, bool))
    requires InRange(c, |ws|)
    ensures InRange(r.0, |ws|) && r.0.conc == c.conc && r.0.sets == c.sets
  {
    SetFits(c, |ws|, c.id);
    var m := Moves(ws, c, true, 0);
    if m < c.conc then (c.(id := Ahead(c, m)), true)
    else if ws[Current(c)] != WarpComplete then (c, true)
    else
      var m2 := Moves(ws, c, false, 0);
      if m2 < c.conc then (c.(id := Ahead(c, m2)), true)
      else if c.warpSet + 1 >= c.sets then (c, false)
      else
        var c' := c.(id := 0, warpSet := c.warpSet + 1);
        SetFits(c', |ws|, 0);
        (c', ws[Current(c')] != WarpComplete)
  }

  // ----- what it decides -----

  /** Every warp of the cursor's set is skipped. */
  ghost predicate AllSkipped(ws: seq<WarpStatus>, c: Cursor, barrier: bool)
    requires InRange(c, |ws|)
  {
    forall i: nat :: i < c.conc ==> IsSkipped(ws, c, barrier, i)
  }

  /** Warp i of the set is complete or, if that counts, at a barrier. */
  predicate IsSkipped(ws: seq<WarpStatus>, c: Cursor, barrier: bool, i: nat)
    requires InRange(c, |ws|) && i < c.conc
  {
    SetFits(c, |ws|, i);
    ws[AtId(c, i)] == WarpComplete || (barrier && ws[AtId(c, i)] == WaitingBarrier)
  }

  /** A search that goes all the way round has seen every warp but the one it started from. */
  lemma RoundTrip(ws: seq<WarpStatus>, c: Cursor, barrier: bool, i: nat)
    requires InRange(c, |ws|) && Moves(ws, c, barrier, 0) == c.conc && i < c.conc && i != c.id
    ensures IsSkipped(ws, c, barrier, i)
  {
    MovesIsFirst(ws, c, barrier, 0);
    var k := if i > c.id then i - c.id else i + c.conc - c.id;
    assert Ahead(c, k) == i;
    assert SkipsAhead(ws, c, barrier, k);
  }

  /** Without a usable warp the search ends where it began. */
  lemma AllSkippedGoesRound(ws: seq<WarpStatus>, c: Cursor, barrier: bool)
    requires InRange(c, |ws|) && AllSkipped(ws, c, barrier)
    ensures Moves(ws, c, barrier, 0) == c.conc
  {
    MovesIsFirst(ws, c, barrier, 0);
    assert IsSkipped(ws, c, barrier, Ahead(c, Moves(ws, c, barrier, 0)));
  }

  /** On true the chosen warp is not complete, and if the set had a warp neither complete nor
      waiting at a barrier, the chosen one is such a warp of that set. */
  lemma FoundIsUsable(ws: seq<WarpStatus>, c: Cursor)
    requires InRange(c, |ws|) && Switch(ws, c).1
    ensures var c' := Switch(ws, c).0; Current(c') < |ws| && ws[Current(c')] != WarpComplete
    ensures !AllSkipped(ws, c, true) ==>
              var c' := Switch(ws, c).0; c'.warpSet == c.warpSet && ws[Current(c')] != WaitingBarrier
    ensures !AllSkipped(ws, c, false) ==> Switch(ws, c).0.warpSet == c.warpSet
    ensures Switch(ws, c).0.warpSet != c.warpSet ==>
              Switch(ws, c).0 == c.(id := 0, warpSet := c.warpSet + 1)
  {
    SetFits(c, |ws|, c.id);
    SetFits(Switch(ws, c).0, |ws|, Switch(ws, c).0.id);
    MovesIsFirst(ws, c, true, 0);
    MovesIsFirst(ws, c, false, 0);
    if Moves(ws, c, true, 0) == c.conc {
      OnlyOldCanBeUsable(ws, c, true);
      if Moves(ws, c, false, 0) == c.conc {
        OnlyOldCanBeUsable(ws, c, false);
      }
    }
  }

  lemma OnlyOldCanBeUsable(ws: seq<WarpStatus>, c: Cursor, barrier: bool)
    requires InRange(c, |ws|) && Moves(ws, c, barrier, 0) == c.conc
    ensures AllSkipped(ws, c, barrier) <==> IsSkipped(ws, c, barrier, c.id)
  {
    forall i: nat | i < c.conc && i != c.id ensures IsSkipped(ws, c, barrier, i) {
      RoundTrip(ws, c, barrier, i);
    }
  }

  lemma AheadIsModulo(c: Cursor, k: nat)
    requires c.id < c.conc && k <= c.conc
    ensures Ahead(c, k) == (c.id + k) % c.conc
  {
    if c.id + k < c.conc {
      DivModUnique(c.id + k, c.conc, 0, c.id + k);
    } else {
      DivModUnique(c.id + k, c.conc, 1, c.id + k - c.conc);
    }
  }

  /** The search is fair: a usable warp is passed over only for one that comes earlier in the
      round that starts behind the old warp. */
  lemma FirstInRound(ws: seq<WarpStatus>, c: Cursor, k: nat)
    requires InRange(c, |ws|) && 0 < k <= c.conc && !IsSkipped(ws, c, true, Ahead(c, k))
    ensures exists m :: 0 < m <= k && !IsSkipped(ws, c, true, Ahead(c, m)) &&
                        Switch(ws, c) == (c.(id := Ahead(c, m)), true)
  {
    assert !SkipsAhead(ws, c, true, k);
    MovesIsFirst(ws, c, true, 0);
    var m := Moves(ws, c, true, 0);
    if m < c.conc {
      assert !SkipsAhead(ws, c, true, m);
      assert m <= k;
    } else {
      assert k == m;
      assert Ahead(c, m) == c.id;
      assert c.(id := Ahead(c, m)) == c;
    }
    assert !IsSkipped(ws, c, true, Ahead(c, m));
  }

  /** False exactly when every warp of the starting set is complete, and there is no next set or
      its first warp is complete already. */
  lemma NotFoundMeansDone(ws: seq<WarpStatus>, c: Cursor)
    requires InRange(c, |ws|)
    ensures var next := (c.warpSet + 1) * c.conc;
            !Switch(ws, c).1 <==>
              AllSkipped(ws, c, false) && (c.warpSet + 1 < c.sets ==> next < |ws| && ws[next] == WarpComplete)
  {
    SetFits(c, |ws|, c.id);
    if c.warpSet + 1 < c.sets {
      SetFits(c.(id := 0, warpSet := c.warpSet + 1), |ws|, 0);
    }
    MovesIsFirst(ws, c, true, 0);
    MovesIsFirst(ws, c, false, 0);
    if AllSkipped(ws, c, false) {
      AllSkippedIsStronger(ws, c);
      AllSkippedGoesRound(ws, c, false);
      AllSkippedGoesRound(ws, c, true);
      assert IsSkipped(ws, c, false, c.id);
    } else if Moves(ws, c, false, 0) == c.conc {
      OnlyOldCanBeUsable(ws, c, false);
    }
  }

  lemma AllSkippedIsStronger(ws: seq<WarpStatus>, c: Cursor)
    requires InRange(c, |ws|) && AllSkipped(ws, c, false)
    ensures AllSkipped(ws, c, true)
  {
    forall i: nat | i < c.conc ensures IsSkipped(ws, c, true, i) {
      assert IsSkipped(ws, c, false, i);
    }
  }

  // ----- reads -----

  /** A search over warps that may not exist: the moves it made, or the first missing warp it read. */
  datatype Scan = Stopped(moves: nat) | NoSuchWarp(index: nat)

  /** What a switch comes to: a cursor and whether a warp was found, or a read past the states. */
  datatype Outcome = Chosen(cursor: Cursor, found: bool) | Overrun(index: nat)

  predicate Placed(c: Cursor) {
    c.id == 0 || c.id < c.conc
  }

  function MovedBy(c: Cursor, k: nat): (c': Cursor)
    requires Placed(c) && k <= c.conc
    ensures Placed(c')
  {
    if k == 0 then c else c.(id := Ahead(c, k))
  }

  function ScanFrom(ws: seq<WarpStatus>, c: Cursor, barrier: bool, k: nat): (r: Scan)
    requires Placed(c) && k <= c.conc
    ensures r.Stopped? ==> k <= r.moves <= c.conc
    ensures r.NoSuchWarp? ==> r.index >= |ws|
    decreases c.conc - k
  {
    if k == c.conc then Stopped(k)
    else
      var i := AtId(c, Ahead(c, k + 1));
      if i >= |ws| then NoSuchWarp(i)
      else if !Skips(ws[i], barrier) then Stopped(k + 1)
      else ScanFrom(ws, c, barrier, k + 1)
  }

  function TrySwitch(ws: seq<WarpStatus>, c: Cursor): (r: Outcome)
    requires Placed(c)
    ensures r.Chosen? ==> Placed(r.cursor) && r.cursor.conc == c.conc && r.cursor.sets == c.sets
    ensures r.Overrun? ==> r.index >= |ws|
  {
    match ScanFrom(ws, c, true, 0)
    case NoSuchWarp(i) => Overrun(i)
    case Stopped(m) =>
      if m < c.conc then Chosen(MovedBy(c, m), true)
      else if Current(c) >= |ws| then Overrun(Current(c))
      else if ws[Current(c)] != WarpComplete then Chosen(c, true)
      else AfterFirst(ws, c)
  }

  /** The second search, and the next set after it. */
  function AfterFirst(ws: seq<WarpStatus>, c: Cursor): (r: Outcome)
    requires Placed(c)
    ensures r.Chosen? ==> Placed(r.cursor) && r.cursor.conc == c.conc && r.cursor.sets == c.sets
    ensures r.Overrun? ==> r.index >= |ws|
  {
    match ScanFrom(ws, c, false, 0)
    case NoSuchWarp(i) => Overrun(i)
    case Stopped(m) =>
      if m < c.conc then Chosen(MovedBy(c, m), true)
      else if c.warpSet + 1 >= c.sets then Chosen(c, false)
      else
        var c' := c.(id := 0, warpSet := c.warpSet + 1);
        if Current(c') >= |ws| then Overrun(Current(c')) else Chosen(c', ws[Current(c')] != WarpComplete)
  }

  lemma {:induction false} ScanIsMoves(ws: seq<WarpStatus>, c: Cursor, barrier: bool, k: nat)
    requires InRange(c, |ws|) && k <= c.conc
    ensures ScanFrom(ws, c, barrier, k) == Stopped(Moves(ws, c, barrier, k))
    decreases c.conc - k
  {
    if k < c.conc {
      SetFits(c, |ws|, Ahead(c, k + 1));
      if SkipsAhead(ws, c, barrier, k + 1) {
        ScanIsMoves(ws, c, barrier, k + 1);
      }
    }
  }

  /** Where the sets fit, a switch reads existing warps only and does what Switch says. */
  lemma InRangeNeverOverruns(ws: seq<WarpStatus>, c: Cursor)
    requires InRange(c, |ws|)
    ensures TrySwitch(ws, c) == Chosen(Switch(ws, c).0, Switch(ws, c).1)
  {
    SetFits(c, |ws|, c.id);
    ScanIsMoves(ws, c, true, 0);
    ScanIsMoves(ws, c, false, 0);
    if c.warpSet + 1 < c.sets {
      SetFits(c.(id := 0, warpSet := c.warpSet + 1), |ws|, 0);
    }
  }

  // ----- sequences of switches -----

  /** Successful switches one after the other; the states of the rows are any at each of them. */
  ghost predicate IsSwitchRun(rows: nat, wss: seq<seq<WarpStatus>>, cs: seq<Cursor>) {
    && |cs| == |wss| + 1
    && forall i :: 0 <= i < |wss| ==>
         |wss[i]| == rows && Placed(cs[i]) && TrySwitch(wss[i], cs[i]) == Chosen(cs[i + 1], true)
  }

  /** A sequence of switches from c whose next switch, on the states ws, reads a missing warp. */
  ghost predicate Overruns(c: Cursor, rows: nat, wss: seq<seq<WarpStatus>>, cs: seq<Cursor>, ws: seq<WarpStatus>) {
    && IsSwitchRun(rows, wss, cs) && cs[0] == c && |ws| == rows
    && Placed(cs[|wss|]) && TrySwitch(ws, cs[|wss|]).Overrun?
  }

  lemma {:induction false} RunStaysInRange(rows: nat, wss: seq<seq<WarpStatus>>, cs: seq<Cursor>, i: nat)
    requires IsSwitchRun(rows, wss, cs) && InRange(cs[0], rows) && i <= |wss|
    ensures InRange(cs[i], rows)
  {
    if i > 0 {
      RunStaysInRange(rows, wss, cs, i - 1);
      InRangeNeverOverruns(wss[i - 1], cs[i - 1]);
    }
  }

  /** The first k of the rows are complete, the others are ready. */
  function Completed(rows: nat, k: nat): (ws: seq<WarpStatus>)
    ensures |ws| == rows && forall i :: 0 <= i < rows ==> ws[i] == if i < k then WarpComplete else TraceReady
  {
    seq(rows, i => if i < k then WarpComplete else TraceReady)
  }

  lemma {:induction false} CompleteSetGoesRound(ws: seq<WarpStatus>, c: Cursor, barrier: bool, k: nat)
    requires Placed(c) && k <= c.conc && (forall i :: 0 <= i < c.conc ==> AtId(c, i) < |ws| && ws[AtId(c, i)] == WarpComplete)
    ensures ScanFrom(ws, c, barrier, k) == Stopped(c.conc)
    decreases c.conc - k
  {
    if k < c.conc {
      assert AtId(c, Ahead(c, k + 1)) < |ws|;
      CompleteSetGoesRound(ws, c, barrier, k + 1);
    }
  }

  /** A complete set is left for the next one, if that is there. */
  lemma CompleteSetMovesOn(ws: seq<WarpStatus>, c: Cursor)
    requires c.id == 0 && c.conc > 0 && c.warpSet + 1 < c.sets
    requires forall i :: 0 <= i < c.conc ==> AtId(c, i) < |ws| && ws[AtId(c, i)] == WarpComplete
    ensures var c' := c.(warpSet := c.warpSet + 1);
            TrySwitch(ws, c) ==
            if Current(c') >= |ws| then Overrun(Current(c')) else Chosen(c', ws[Current(c')] != WarpComplete)
  {
    CompleteSetGoesRound(ws, c, true, 0);
    CompleteSetGoesRound(ws, c, false, 0);
    assert AtId(c, 0) < |ws|;
  }

  lemma SetIsComplete(rows: nat, c: Cursor)
    requires (c.warpSet + 1) * c.conc <= rows
    ensures forall i :: 0 <= i < c.conc ==>
              AtId(c, i) < rows && Completed(rows, (c.warpSet + 1) * c.conc)[AtId(c, i)] == WarpComplete
  {
    MulDistributes(c.warpSet, 1, c.conc);
  }

  /** Every set that begins in the rows is reached when the ones before it complete in turn. */
  lemma {:induction false} ReachSet(c: Cursor, rows: nat, q: nat) returns (wss: seq<seq<WarpStatus>>, cs: seq<Cursor>)
    requires c.id == 0 && c.warpSet == 0 && c.conc > 0 && q < c.sets && q * c.conc < rows
    ensures IsSwitchRun(rows, wss, cs) && cs[0] == c && cs[|wss|] == c.(warpSet := q)
  {
    if q == 0 {
      wss, cs := [], [c];
    } else {
      RowsApart(c.conc, q - 1, q);
      wss, cs := ReachSet(c, rows, q - 1);
      var here, ws := cs[|wss|], Completed(rows, q * c.conc);
      SetIsComplete(rows, here);
      CompleteSetMovesOn(ws, here);
      wss, cs := wss + [ws], cs + [c.(warpSet := q)];
    }
  }

  /** In a set that runs past the rows, a search that finds nothing before reads a missing warp. */
  lemma {:induction false} SearchLeavesRows(ws: seq<WarpStatus>, c: Cursor, k: nat)
    requires c.id == 0 && k + 1 < c.conc && AtId(c, c.conc - 1) >= |ws|
    requires forall i :: 0 <= i < |ws| ==> ws[i] == WarpComplete
    ensures ScanFrom(ws, c, true, k).NoSuchWarp?
    decreases c.conc - k
  {
    if AtId(c, k + 1) < |ws| {
      SearchLeavesRows(ws, c, k + 1);
    }
  }

  lemma LastStart(rows: nat, conc: nat, sets: nat) returns (q: nat)
    requires 0 < conc <= rows < sets * conc
    ensures q < sets && q * conc < rows <= q * conc + conc
  {
    q := (rows - 1) / conc;
    assert rows - 1 == q * conc + (rows - 1) % conc;
    if q >= sets {
      MulDistributes(sets, q - sets, conc);
      MulNonNegative(q - sets, conc);
    }
  }

  lemma FindOverrun(c: Cursor, rows: nat) returns (wss: seq<seq<WarpStatus>>, cs: seq<Cursor>, ws: seq<WarpStatus>)
    requires c.id == 0 && c.warpSet == 0 && 0 < c.conc <= rows < c.sets * c.conc
    ensures Overruns(c, rows, wss, cs, ws)
  {
    var q := LastStart(rows, c.conc, c.sets);
    wss, cs := ReachSet(c, rows, q);
    ws := Completed(rows, rows);
    var here := cs[|wss|];
    MulDistributes(q, 1, c.conc);
    if rows < q * c.conc + c.conc {
      SearchLeavesRows(ws, here, 0);
    } else {
      NextSetExists(c, rows, q);
      SetIsComplete(rows, here);
      CompleteSetMovesOn(ws, here);
    }
  }

  lemma NextSetExists(c: Cursor, rows: nat, q: nat)
    requires q < c.sets && (q + 1) * c.conc == rows < c.sets * c.conc
    ensures q + 1 < c.sets
  {
  }

  /** From a launched cursor, every warp that any sequence of switches reads exists if and only if
      the launch fits. */
  lemma NoOverrunIff(concWarps: nat, rows: nat, timing: nat)
    requires concWarps > 0 && timing > 0
    ensures (exists wss, cs, ws :: Overruns(Launched(concWarps, rows, timing), rows, wss, cs, ws)) <==>
            !Fits(concWarps, rows, timing)
  {
    var c := Launched(concWarps, rows, timing);
    LaunchedFitsIff(concWarps, rows, timing);
    SetsNeeded(timing, concWarps);
    if InRange(c, rows) {
      forall wss, cs, ws ensures !Overruns(c, rows, wss, cs, ws) {
        FitsNeverOverruns(c, rows, wss, cs, ws);
      }
    } else if rows == 0 {
      assert Overruns(c, rows, [], [c], []);
    } else {
      var wss, cs, ws := FindOverrun(c, rows);
      assert Overruns(c, rows, wss, cs, ws);
    }
  }

  lemma FitsNeverOverruns(c: Cursor, rows: nat, wss: seq<seq<WarpStatus>>, cs: seq<Cursor>, ws: seq<WarpStatus>)
    requires InRange(c, rows)
    ensures !Overruns(c, rows, wss, cs, ws)
  {
    if IsSwitchRun(rows, wss, cs) && cs[0] == c && |ws| == rows {
      RunStaysInRange(rows, wss, cs, |wss|);
      InRangeNeverOverruns(ws, cs[|wss|]);
    }
  }

  lemma FirstReadMisses(ws: seq<WarpStatus>, c: Cursor)
    requires c.id < c.conc && AtId(c, Ahead(c, 1)) >= |ws|
    ensures TrySwitch(ws, c) == Overrun(AtId(c, Ahead(c, 1)))
  {
  }

  /** Three rows in sets of two, all timed: when the first set is complete the switch goes to
      warp 2 ... */
  lemma IncompleteSetIsReached(ws: seq<WarpStatus>, c: Cursor)
    requires c == Launched(2, 3, 3) && |ws| == 3 && ws[0] == ws[1] == WarpComplete != ws[2]
    ensures TrySwitch(ws, c) == Chosen(c.(warpSet := 1), true)
  {
    forall i | 0 <= i < c.conc ensures AtId(c, i) < |ws| && ws[AtId(c, i)] == WarpComplete {
      assert AtId(c, i) == i;
    }
    CompleteSetMovesOn(ws, c);
  }

  /** ... and the next switch reads warp 3, which does not exist, whatever the states are. */
  lemma IncompleteSetOverruns(ws: seq<WarpStatus>, c: Cursor)
    requires c == Launched(2, 3, 3).(warpSet := 1) && |ws| == 3
    ensures Current(c) == 2 && TrySwitch(ws, c) == Overrun(3)
  {
    SecondOfTwo(c);
    FirstReadMisses(ws, c);
  }

  lemma SecondOfTwo(c: Cursor)
    requires c == Launched(2, 3, 3).(warpSet := 1)
    ensures c.id < c.conc && Current(c) == 2 && AtId(c, Ahead(c, 1)) == 3
  {
  }
}
