/** What the distribution of a launch leaves behind is what the timing phase starts from. */
module LaunchedTables {
  import opened ThreadLayout
  import opened StreamingMP
  import opened TimingPhase
  import opened Distribution
  import opened GpuManager
  import opened Relaunch
  import WarpScheduler

  /** Every cell of a dealt table is sound: a thread of the launch or invalid padding. */
  lemma DealtTablesOk(d: Deal, j: nat, s: nat, t: Tables)
    requires d.Ok() && d.Reached(j) && Shows(t, d.numSP, Dealt(d, j, s))
    ensures TablesOk(t, d.n) && |t.threads| == d.numSP
    ensures forall p :: 0 <= p < d.numSP ==> |t.threads[p]| == |Dealt(d, j, s)|
  {
    var us := Dealt(d, j, s);
    ShownCell(t, d.numSP, us, 0, 0);
    forall p: nat | p < d.numSP ensures |t.threads[p]| == |t.status[p]| == |us| {
      ShownCell(t, d.numSP, us, 0, p);
    }
    forall p: nat, w: nat | p < d.numSP && w < |t.threads[p]| ensures CellOk(t, p, w, d.n) {
      ShownCell(t, d.numSP, us, w, p);
      RowIsOurs(d, j, s, w, p);
    }
  }

  lemma MemberIsDealt(d: Deal, j: nat, s: nat, t: Tables, w: nat, x: int) returns (p: nat)
    requires d.Ok() && d.Reached(j) && Shows(t, d.numSP, Dealt(d, j, s)) && w < |Dealt(d, j, s)|
    requires x in Members(t.threads, w, d.numSP)
    ensures x >= 0 && p < d.numSP && CellAt(Dealt(d, j, s)[w], p) == x
  {
    MemberIff(t.threads, w, d.numSP, x);
    var q :| 0 <= q < d.numSP && ValidCell(t.threads, q, w) && t.threads[q][w] == x;
    ShownCell(t, d.numSP, Dealt(d, j, s), w, q);
    p := q;
  }

  /** No thread is in two rows, of one SM or of two. */
  lemma DealtApart(d: Deal, j: nat, s: nat, t: Tables, w: nat, s': nat, t': Tables, w': nat, x: int)
    requires d.Ok() && d.Reached(j) && Shows(t, d.numSP, Dealt(d, j, s)) && Shows(t', d.numSP, Dealt(d, j, s'))
    requires w < |Dealt(d, j, s)| && w' < |Dealt(d, j, s')|
    requires x in Members(t.threads, w, d.numSP) && x in Members(t'.threads, w', d.numSP)
    ensures s == s' && w == w'
  {
    var p := MemberIsDealt(d, j, s, t, w, x);
    var p' := MemberIsDealt(d, j, s', t', w', x);
    NoThreadTwice(d, j, s, w, p, s', w', p');
  }

  lemma DealtCovered(d: Deal, j: nat, s: nat, t: Tables, p: nat, w: nat)
    requires d.Ok() && d.Reached(j) && Shows(t, d.numSP, Dealt(d, j, s)) && p < d.numSP && ValidCell(t.threads, p, w)
    ensures p < Total(d, j, s)
  {
    ShownCell(t, d.numSP, Dealt(d, j, s), w, p);
    RowWithinTotal(d, j, s, w);
  }

  /** A launched SM: its share of the threads and one warp state per row. */
  ghost predicate Launched(d: Deal, j: nat, s: nat, sm: SM)
    requires d.Ok() && d.Reached(j)
    reads sm
  {
    && sm.numSP == d.numSP && Share(d, j, s, sm.tables, sm.totalThreads) && |sm.warpStatus| == |Dealt(d, j, s)|
  }

  lemma {:induction false} NoThreadsNoRows(d: Deal, j: nat, s: nat)
    requires d.Ok() && d.Reached(j) && Total(d, j, s) == 0
    ensures Dealt(d, j, s) == []
  {
    if |Dealt(d, j, s)| > 0 {
      RowIsOurs(d, j, s, 0, 0);
      RowWithinTotal(d, j, s, 0);
    }
  }

  lemma ViewShown(d: Deal, j: nat, s: nat, t: Tables, ws: seq<WarpScheduler.WarpStatus>, c: WarpScheduler.Cursor, timing: nat)
    requires d.Ok() && d.Reached(j) && Shows(t, d.numSP, Dealt(d, j, s)) && |ws| == |Dealt(d, j, s)|
    ensures Shown(View(t, ws, c, timing), t.threads, |ws|)
  {
    DealtTablesOk(d, j, s, t);
    var m := View(t, ws, c, timing);
    forall w, w', x | 0 <= w < |ws| && 0 <= w' < |ws| && x in m.warps[w] && x in m.warps[w'] ensures w == w' {
      DealtApart(d, j, s, t, w, s, t, w', x);
    }
  }

  /** A launched SM has sound tables whose rows are apart. */
  lemma LaunchedIsReady(d: Deal, j: nat, s: nat, sm: SM)
    requires d.Ok() && d.Reached(j) && Launched(d, j, s, sm)
    ensures SmReady(sm, d.n)
  {
    var t := sm.tables;
    DealtTablesOk(d, j, s, t);
    ViewShown(d, j, s, t, sm.warpStatus, sm.cursor, sm.timingWarps);
    forall p: nat, w: nat | p < d.numSP && ValidCell(t.threads, p, w) ensures p < sm.totalThreads {
      DealtCovered(d, j, s, t, p, w);
    }
    if sm.totalThreads == 0 {
      NoThreadsNoRows(d, j, s);
    }
  }

  /** ... and the SMs of a launch share no thread. */
  lemma LaunchedDisjoint(d: Deal, j: nat, sms: seq<SM>)
    requires d.Ok() && d.Reached(j) && forall s :: 0 <= s < |sms| ==> Launched(d, j, s, sms[s])
    ensures Disjoint(Views(sms))
  {
    var v := Views(sms);
    forall s: nat | s < |sms| ensures RowsApart(v[s]) {
      ViewShown(d, j, s, sms[s].tables, sms[s].warpStatus, sms[s].cursor, sms[s].timingWarps);
    }
    forall s: nat, s': nat | s < |sms| && s' < |sms| && s != s' ensures SmsApart(v[s], v[s']) {
      LaunchedApart(d, j, s, sms[s], s', sms[s']);
    }
  }

  lemma LaunchedApart(d: Deal, j: nat, s: nat, a: SM, s': nat, b: SM)
    requires d.Ok() && d.Reached(j) && s != s' && Launched(d, j, s, a) && Launched(d, j, s', b)
    ensures SmsApart(ViewOf(a), ViewOf(b))
  {
    var m, m' := ViewOf(a), ViewOf(b);
    DealtTablesOk(d, j, s, a.tables);
    DealtTablesOk(d, j, s', b.tables);
    forall w, w', x | 0 <= w < |m.warps| && 0 <= w' < |m'.warps| && x in m.warps[w] ensures x !in m'.warps[w'] {
      if x in m'.warps[w'] {
        DealtApart(d, j, s, a.tables, w, s', b.tables, w', x);
      }
    }
  }

  lemma DealtSameShape(d: Deal, j: nat, s: nat, t: Tables)
    requires d.Ok() && d.Reached(j) && Shows(t, d.numSP, Dealt(d, j, s))
    ensures SameShape(t)
  {
    ShownCell(t, d.numSP, Dealt(d, j, s), 0, 0);
    forall p: nat | p < d.numSP ensures |t.threads[p]| == |t.inst[p]| == |t.trace[p]| == |t.status[p]| {
      ShownCell(t, d.numSP, Dealt(d, j, s), 0, p);
    }
  }

  // ----- the whole of reOrganize -----

  /** An SM that has its share of the launch and the cursor for it. */
  ghost predicate Organized(d: Deal, j: nat, s: nat, sm: SM, concWarps: nat, timing: nat)
    requires d.Ok() && d.Reached(j) && concWarps > 0
    reads sm
  {
    && Launched(d, j, s, sm) && sm.timingWarps == timing
    && sm.cursor == WarpScheduler.Launched(concWarps, |sm.warpStatus|, timing)
  }

  /** It is what init_trace asks for, and the timing phase is sound on it exactly when no warp is
      timed or the launch fits. */
  lemma OrganizedIsLaunching(d: Deal, j: nat, s: nat, sm: SM, concWarps: nat, timing: nat)
    requires d.Ok() && d.Reached(j) && concWarps > 0 && Organized(d, j, s, sm, concWarps, timing)
    requires Dealt(d, j, s) == [] ==> timing == 0
    ensures Launching(sm, d.n) && SameShape(sm.tables)
    ensures SmOk(ViewOf(sm)) <==> timing == 0 || WarpScheduler.Fits(concWarps, |sm.warpStatus|, timing)
  {
    LaunchedIsReady(d, j, s, sm);
    DealtSameShape(d, j, s, sm.tables);
    WarpScheduler.LaunchedFitsIff(concWarps, |sm.warpStatus|, timing);
  }

  lemma RowsIffThreads(d: Deal, j: nat, s: nat, t: Tables, total: nat)
    requires d.Ok() && d.Reached(j) && Share(d, j, s, t, total)
    ensures |t.threads| == d.numSP && |t.threads[0]| == |Dealt(d, j, s)| && (total > 0 <==> t.threads[0] != [])
  {
    DealtTablesOk(d, j, s, t);
    if total == 0 {
      NoThreadsNoRows(d, j, s);
    } else {
      ThreadsMeanRows(d, j, s);
    }
  }

  lemma {:induction false} ThreadsMeanRows(d: Deal, j: nat, s: nat)
    requires d.Ok() && d.Reached(j) && Total(d, j, s) > 0
    ensures Dealt(d, j, s) != []
  {
    ReachedBefore(d, j);
    if (j - 1) % d.numSM == s {
      ChunkHolds(d, j - 1);
    } else {
      ThreadsMeanRows(d, j - 1, s);
    }
  }

  method OrganizeOne(d: Deal, ghost j: nat, ghost s: nat, sm: SM, concWarps: nat, maxWarps: nat, timing: nat)
    requires d.Ok() && d.Reached(j) && 0 < concWarps <= maxWarps && sm.numSP == d.numSP && sm.warpStatus == []
    requires Share(d, j, s, sm.tables, sm.totalThreads)
    modifies sm`warpStatus, sm`cursor, sm`timingWarps
    ensures Organized(d, j, s, sm, concWarps, timing)
  {
    RowsIffThreads(d, j, s, sm.tables, sm.totalThreads);
    sm.Organize(concWarps, maxWarps, timing);
  }

  /** reOrganize: threads dealt to cleared SMs, then every SM made ready. How many warps of each
      SM are timed is given. */
  method ReOrganize(d: Deal, sms: seq<SM>, concWarps: nat, maxWarps: nat, timings: seq<nat>) returns (ghost j: nat)
    requires d.Ok() && |sms| == d.numSM == |timings| && Distribution.Distinct(sms) && 0 < concWarps <= maxWarps
    requires forall s :: 0 <= s < |sms| ==> sms[s].numSP == d.numSP && Shows(sms[s].tables, d.numSP, [])
    requires forall s :: 0 <= s < |sms| ==> sms[s].totalThreads == 0 && sms[s].warpStatus == []
    modifies sms
    ensures Done(d, j)
    ensures forall s :: 0 <= s < |sms| ==> Organized(d, j, s, sms[s], concWarps, timings[s])
  {
    j := Distribute(d, sms);
    for i := 0 to |sms|
      modifies sms`warpStatus, sms`cursor, sms`timingWarps
      invariant forall s :: i <= s < |sms| ==> sms[s].warpStatus == []
      invariant forall s :: 0 <= s < i ==> Organized(d, j, s, sms[s], concWarps, timings[s])
    {
      OrganizeOne(d, j, i, sms[i], concWarps, maxWarps, timings[i]);
    }
  }
}
