/** How threads are laid out in the rows (warps) of an SM.

    A row is filled from the left by consecutive thread numbers and padded on the right, so it
    is given by the first thread and their number. Layout is the reference: block by block, each
    block in as few rows as possible. Rest is what the loop of addThreads still has to append. */
module ThreadLayout {
  import opened Bits

  const PAD: int := -1

  /** A row with threads first .. first + len - 1. */
  datatype Run = Run(first: nat, len: nat)

  function CellAt(u: Run, p: nat): int {
    if p < u.len then u.first + p else PAD
  }

  /** The rows of one block of c threads on n PEs. */
  function BlockRows(start: nat, c: nat, n: nat): seq<Run>
    requires n > 0
    decreases c
  {
    if c == 0 then []
    else if c <= n then [Run(start, c)]
    else [Run(start, n)] + BlockRows(start + n, c - n, n)
  }

  function Layout(start: nat, count: nat, bs: nat, n: nat): seq<Run>
    requires n > 0 && bs > 0
    decreases count
  {
    if count <= bs then BlockRows(start, count, n)
    else BlockRows(start, bs, n) + Layout(start + bs, count - bs, bs, n)
  }

  // ----- the loop -----

  /** The rows still to come when `pe` threads are in the open row, `count` threads are left and
      `left` of them still fit in the current block. */
  function Rest(pe: nat, start: nat, count: nat, left: nat, bs: nat, n: nat): seq<Run>
    requires pe < n && pe <= start && 0 < left <= bs
    decreases count
  {
    if count == 0 then (if pe == 0 then [] else [Run(start - pe, pe)])
    else
      var left' := if left == 1 then bs else left - 1;
      if left == 1 || pe + 1 == n then [Run(start - pe, pe + 1)] + Rest(0, start + 1, count - 1, left', bs, n)
      else Rest(pe + 1, start + 1, count - 1, left', bs, n)
  }

  /** One thread, as the loop places it, leaves the total unchanged. */
  lemma RestStep(us: seq<Run>, pe: nat, start: nat, count: nat, left: nat, bs: nat, n: nat)
    requires pe < n && pe <= start && 0 < left <= bs && count > 0
    ensures var closes := left == 1 || pe + 1 == n;
            us + Rest(pe, start, count, left, bs, n) ==
            us + (if closes then [Run(start - pe, pe + 1)] else []) +
            Rest(if closes then 0 else pe + 1, start + 1, count - 1, if left == 1 then bs else left - 1, bs, n)
  {
  }

  /** Continuing a block with an open row is the block's rows from that row on. */
  lemma {:induction false} RestOfBlock(pe: nat, start: nat, count: nat, left: nat, bs: nat, n: nat)
    requires pe < n && pe <= start && 0 < left <= bs
    ensures Rest(pe, start, count, left, bs, n) ==
            if count <= left then BlockRows(start - pe, pe + count, n)
            else BlockRows(start - pe, pe + left, n) + Rest(0, start + left, count - left, bs, bs, n)
    decreases count
  {
    if count > 0 {
      var left' := if left == 1 then bs else left - 1;
      if left == 1 {
        RestOfBlock(0, start + 1, count - 1, bs, bs, n);
      } else if pe + 1 == n {
        RestOfBlock(0, start + 1, count - 1, left', bs, n);
      } else {
        RestOfBlock(pe + 1, start + 1, count - 1, left', bs, n);
      }
    }
  }

  lemma {:induction false} RestIsLayout(start: nat, count: nat, bs: nat, n: nat)
    requires n > 0 && bs > 0
    ensures Rest(0, start, count, bs, bs, n) == Layout(start, count, bs, n)
    decreases count
  {
    RestOfBlock(0, start, count, bs, bs, n);
    if count > bs {
      RestIsLayout(start + bs, count - bs, bs, n);
    }
  }

  // ----- what a layout holds -----

  /** Consecutive non-empty rows of at most n threads that together hold lo .. hi - 1. */
  ghost predicate Holds(us: seq<Run>, lo: nat, hi: nat, n: nat) {
    && (if us == [] then lo == hi else us[0].first == lo && us[|us| - 1].first + us[|us| - 1].len == hi)
    && (forall i :: 0 <= i < |us| ==> 0 < us[i].len <= n)
    && (forall i :: 0 < i < |us| ==> us[i].first == us[i - 1].first + us[i - 1].len)
  }

  lemma HoldsConcat(us: seq<Run>, vs: seq<Run>, lo: nat, mid: nat, hi: nat, n: nat)
    requires Holds(us, lo, mid, n) && Holds(vs, mid, hi, n)
    ensures Holds(us + vs, lo, hi, n)
  {
    var ws := us + vs;
    forall i | 0 < i < |ws| ensures ws[i].first == ws[i - 1].first + ws[i - 1].len {
      if i == |us| {
        assert ws[i] == vs[0];
      } else if i > |us| {
        assert ws[i] == vs[i - |us|] && ws[i - 1] == vs[i - |us| - 1];
      }
    }
  }

  lemma {:induction false} BlockHolds(start: nat, c: nat, n: nat)
    requires n > 0
    ensures Holds(BlockRows(start, c, n), start, start + c, n)
    decreases c
  {
    if c > n {
      BlockHolds(start + n, c - n, n);
      HoldsConcat([Run(start, n)], BlockRows(start + n, c - n, n), start, start + n, start + c, n);
    }
  }

  lemma {:induction false} LayoutHolds(start: nat, count: nat, bs: nat, n: nat)
    requires n > 0 && bs > 0
    ensures Holds(Layout(start, count, bs, n), start, start + count, n)
    decreases count
  {
    if count <= bs {
      BlockHolds(start, count, n);
    } else {
      var a, b := BlockRows(start, bs, n), Layout(start + bs, count - bs, bs, n);
      BlockHolds(start, bs, n);
      LayoutHolds(start + bs, count - bs, bs, n);
      HoldsConcat(a, b, start, start + bs, start + count, n);
      assert Layout(start, count, bs, n) == a + b;
    }
  }

  /** Rows come in increasing thread order. */
  lemma {:induction false} RowsIncrease(us: seq<Run>, lo: nat, hi: nat, n: nat, i: nat, j: nat)
    requires Holds(us, lo, hi, n) && i < j < |us|
    ensures us[i].first + us[i].len <= us[j].first
    decreases j
  {
    assert us[j].first == us[j - 1].first + us[j - 1].len;
    if i < j - 1 {
      RowsIncrease(us, lo, hi, n, i, j - 1);
    }
  }

  lemma RowBounds(us: seq<Run>, lo: nat, hi: nat, n: nat, i: nat)
    requires Holds(us, lo, hi, n) && i < |us|
    ensures lo <= us[i].first && us[i].first + us[i].len <= hi
  {
    if i > 0 {
      RowsIncrease(us, lo, hi, n, 0, i);
    }
    if i < |us| - 1 {
      RowsIncrease(us, lo, hi, n, i, |us| - 1);
    }
  }

  /** Every thread has a cell ... */
  lemma {:induction false} FindCell(us: seq<Run>, lo: nat, hi: nat, n: nat, t: nat) returns (r: nat, p: nat)
    requires Holds(us, lo, hi, n) && lo <= t < hi
    ensures r < |us| && p < n && CellAt(us[r], p) == t
  {
    var last := us[|us| - 1];
    if t >= last.first {
      r, p := |us| - 1, t - last.first;
    } else {
      var init := us[..|us| - 1];
      assert |init| > 0 && init[|init| - 1] == us[|us| - 2];
      assert us[|us| - 1].first == us[|us| - 2].first + us[|us| - 2].len;
      r, p := FindCell(init, lo, last.first, n, t);
    }
  }

  /** ... and only one, and reading row by row gives the threads in order. */
  lemma RowMajor(us: seq<Run>, lo: nat, hi: nat, n: nat, r: nat, p: nat, r': nat, p': nat)
    requires Holds(us, lo, hi, n) && r < |us| && r' < |us| && CellAt(us[r], p) != PAD && CellAt(us[r'], p') != PAD
    ensures lo <= CellAt(us[r], p) < hi
    ensures CellAt(us[r], p) < CellAt(us[r'], p') <==> r < r' || (r == r' && p < p')
    ensures CellAt(us[r], p) == CellAt(us[r'], p') <==> r == r' && p == p'
  {
    RowBounds(us, lo, hi, n, r);
    if r < r' {
      RowsIncrease(us, lo, hi, n, r, r');
    } else if r' < r {
      RowsIncrease(us, lo, hi, n, r', r);
    }
  }

  // ----- blocks -----

  /** All threads of a row belong to the block of its first thread. */
  predicate OneBlock(u: Run, bs: nat)
    requires bs > 0
  {
    forall p :: 0 <= p < u.len ==> CellAt(u, p) / bs == u.first / bs
  }

  lemma BlockOf(k: nat, bs: nat, x: nat)
    requires bs > 0 && k * bs <= x < k * bs + bs
    ensures x / bs == k
  {
    DivModUnique(x, bs, k, x - k * bs);
  }

  lemma WithinBlock(u: Run, k: nat, bs: nat)
    requires bs > 0 && k * bs <= u.first && u.first + u.len <= k * bs + bs && u.len > 0
    ensures OneBlock(u, bs)
  {
    BlockOf(k, bs, u.first);
    forall p | 0 <= p < u.len ensures CellAt(u, p) / bs == u.first / bs {
      BlockOf(k, bs, u.first + p);
    }
  }

  lemma BlockRowsOneBlock(k: nat, c: nat, bs: nat, n: nat, i: nat)
    requires bs > 0 && n > 0 && c <= bs && i < |BlockRows(k * bs, c, n)|
    ensures OneBlock(BlockRows(k * bs, c, n)[i], bs)
  {
    BlockHolds(k * bs, c, n);
    RowBounds(BlockRows(k * bs, c, n), k * bs, k * bs + c, n, i);
    WithinBlock(BlockRows(k * bs, c, n)[i], k, bs);
  }

  /** A layout that starts at a block boundary never mixes two blocks in a row. */
  lemma {:induction false} LayoutOneBlock(k: nat, count: nat, bs: nat, n: nat, i: nat)
    requires bs > 0 && n > 0 && i < |Layout(k * bs, count, bs, n)|
    ensures OneBlock(Layout(k * bs, count, bs, n)[i], bs)
    decreases count
  {
    if count <= bs {
      BlockRowsOneBlock(k, count, bs, n, i);
    } else {
      var block := BlockRows(k * bs, bs, n);
      if i < |block| {
        BlockRowsOneBlock(k, bs, bs, n, i);
      } else {
        assert (k + 1) * bs == k * bs + bs;
        LayoutOneBlock(k + 1, count - bs, bs, n, i - |block|);
      }
    }
  }

  // ----- no PE is left out without need -----

  lemma {:induction false} BlockRowsFull(start: nat, c: nat, n: nat, i: nat)
    requires n > 0 && i < |BlockRows(start, c, n)|
    ensures var u := BlockRows(start, c, n)[i]; u.len == n || u.first + u.len == start + c
    decreases c
  {
    if c > n && i > 0 {
      BlockRowsFull(start + n, c - n, n, i - 1);
    }
  }

  /** A row is padded only where a block, or the threads, end. */
  lemma {:induction false} LayoutFull(k: nat, count: nat, bs: nat, n: nat, i: nat)
    requires bs > 0 && n > 0 && i < |Layout(k * bs, count, bs, n)|
    ensures var u := Layout(k * bs, count, bs, n)[i];
            u.len == n || (u.first + u.len) % bs == 0 || u.first + u.len == k * bs + count
    decreases count
  {
    if count <= bs {
      BlockRowsFull(k * bs, count, n, i);
    } else {
      var block := BlockRows(k * bs, bs, n);
      assert (k + 1) * bs == k * bs + bs;
      DivModUnique((k + 1) * bs, bs, k + 1, 0);
      if i < |block| {
        BlockRowsFull(k * bs, bs, n, i);
      } else {
        LayoutFull(k + 1, count - bs, bs, n, i - |block|);
      }
    }
  }
}
