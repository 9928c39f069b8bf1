/** The flat trace array: traceSize words per thread, word 4 the pause flag. */
module TraceBuffer {
  import opened Bits

  const FIRST_BB: nat := 0
  const SKIP_INST: nat := 2
  const PAUSE: nat := 4
  const RUN_AHEAD: nat := 9

  // ----- flags as a sequence -----

  /** The flags with those of the threads in S set to v. */
  function Put(flags: seq<nat>, S: set<int>, v: nat): (r: seq<nat>)
    ensures |r| == |flags|
    ensures forall t :: 0 <= t < |r| ==> r[t] == if t in S then v else flags[t]
  {
    seq(|flags|, t requires 0 <= t < |flags| => if t in S then v else flags[t])
  }

  function Const(n: nat, v: nat): (r: seq<nat>)
    ensures |r| == n && forall t :: 0 <= t < n ==> r[t] == v
  {
    seq(n, _ => v)
  }

  // ----- the buffer as fields -----

  /** The four fields the manager writes, one entry per thread, and all others. */
  datatype Words = Words(first: seq<nat>, skip: seq<nat>, pause: seq<nat>, ahead: seq<nat>, rest: seq<seq<nat>>)

  /** The threads in S paused (1) or resumed (0). */
  function Pausing(x: Words, S: set<int>, v: nat): Words {
    x.(pause := Put(x.pause, S, v))
  }

  /** The threads in S released into rabbit mode. */
  function Releasing(x: Words, S: set<int>): Words {
    x.(skip := Put(x.skip, S, 32767), pause := Put(x.pause, S, 0), ahead := Put(x.ahead, S, 0))
  }

  /** The threads in S marked at launch: first basic block, the skip count of a rabbit thread,
      and the pause flag. */
  function Marking(x: Words, S: set<int>, rabbit: bool, v: nat): Words {
    x.(first := Put(x.first, S, 1), skip := if rabbit then Put(x.skip, S, 32760) else x.skip, pause := Put(x.pause, S, v))
  }

  lemma PutNothing(flags: seq<nat>, v: nat)
    ensures Put(flags, {}, v) == flags
  {
  }

  lemma PutTwice(flags: seq<nat>, A: set<int>, B: set<int>, v: nat)
    ensures Put(Put(flags, A, v), B, v) == Put(flags, A + B, v)
  {
  }

  lemma Nobody(x: Words, rabbit: bool, v: nat)
    ensures Pausing(x, {}, v) == x && Releasing(x, {}) == x && Marking(x, {}, rabbit, v) == x
  {
    PutNothing(x.first, 1);
    PutNothing(x.skip, 32767);
    PutNothing(x.skip, 32760);
    PutNothing(x.pause, v);
    PutNothing(x.pause, 0);
    PutNothing(x.ahead, 0);
  }

  lemma PausingTwice(x: Words, A: set<int>, B: set<int>, v: nat)
    ensures Pausing(Pausing(x, A, v), B, v) == Pausing(x, A + B, v)
  {
    PutTwice(x.pause, A, B, v);
  }

  lemma ReleasingTwice(x: Words, A: set<int>, B: set<int>)
    ensures Releasing(Releasing(x, A), B) == Releasing(x, A + B)
  {
    PutTwice(x.skip, A, B, 32767);
    PutTwice(x.pause, A, B, 0);
    PutTwice(x.ahead, A, B, 0);
  }

  lemma MarkingTwice(x: Words, A: set<int>, B: set<int>, rabbit: bool, v: nat)
    ensures Marking(Marking(x, A, rabbit, v), B, rabbit, v) == Marking(x, A + B, rabbit, v)
  {
    PutTwice(x.first, A, B, 1);
    PutTwice(x.skip, A, B, 32760);
    PutTwice(x.pause, A, B, v);
  }

  /** Pausing A' after releasing B does not undo it when the two are disjoint. */
  lemma PausingPast(x: Words, B: set<int>, A': set<int>)
    requires A' !! B
    ensures Pausing(Releasing(x, B), A', 1) == Releasing(Pausing(x, A', 1), B)
  {
    assert Put(Put(x.pause, B, 0), A', 1) == Put(Put(x.pause, A', 1), B, 0);
  }

  /** Threads 0 .. n - 1. */
  function FirstThreads(n: nat): (S: set<int>)
    ensures forall t :: t in S <==> 0 <= t < n
  {
    if n == 0 then {} else FirstThreads(n - 1) + {n - 1}
  }

  // ----- slots -----

  function Slot(size: nat, t: nat, k: nat): nat {
    t * size + k
  }

  lemma SlotInRange(n: nat, size: nat, t: nat, k: nat)
    requires t < n && k < size
    ensures Slot(size, t, k) < n * size
  {
    RowsApart(size, t, n);
  }

  /** No two words of the buffer share a slot. */
  lemma SlotsDiffer(size: nat, t: nat, k: nat, t': nat, k': nat)
    requires k < size && k' < size && (t, k) != (t', k')
    ensures Slot(size, t, k) != Slot(size, t', k')
  {
    if t < t' {
      RowsApart(size, t, t');
    } else if t' < t {
      RowsApart(size, t', t);
    }
  }

  /** Where each field of thread t lies in the words. */
  ghost predicate Holds(words: seq<nat>, size: nat, n: nat, x: Words, t: nat)
    requires t < n && size > RUN_AHEAD && |words| == n * size && Shaped(x, size, n)
  {
    forall k {:trigger Slot(size, t, k)} :: 0 <= k < size ==> Slot(size, t, k) < |words| && words[Slot(size, t, k)] == WordOf(x, t, k)
  }

  ghost predicate Shaped(x: Words, size: nat, n: nat) {
    |x.first| == |x.skip| == |x.pause| == |x.ahead| == n && |x.rest| == size && forall k :: 0 <= k < size ==> |x.rest[k]| == n
  }

  ghost function WordOf(x: Words, t: nat, k: nat): nat
    requires k < |x.rest| && Shaped(x, |x.rest|, |x.pause|) && t < |x.pause|
  {
    if k == FIRST_BB then x.first[t]
    else if k == SKIP_INST then x.skip[t]
    else if k == PAUSE then x.pause[t]
    else if k == RUN_AHEAD then x.ahead[t]
    else x.rest[k][t]
  }

  /** The words of the buffer are those of the fields. */
  ghost predicate Represents(words: seq<nat>, size: nat, n: nat, x: Words) {
    && size > RUN_AHEAD && |words| == n * size && Shaped(x, size, n)
    && forall t {:trigger Holds(words, size, n, x, t)} :: 0 <= t < n ==> Holds(words, size, n, x, t)
  }

  /** The words of thread t: 0 the first basic block, 2 the skip count, 4 the pause flag, 9 the
      run-ahead word. */
  lemma FieldsAt(words: seq<nat>, size: nat, n: nat, x: Words, t: nat)
    requires Represents(words, size, n, x) && t < n
    ensures t * size + 9 < |words|
    ensures words[t * size] == x.first[t] && words[t * size + 2] == x.skip[t]
    ensures words[t * size + 4] == x.pause[t] && words[t * size + 9] == x.ahead[t]
  {
    assert Holds(words, size, n, x, t);
    assert Slot(size, t, 0) == t * size && Slot(size, t, 2) == t * size + 2;
    assert Slot(size, t, 4) == t * size + 4 && Slot(size, t, 9) == t * size + 9;
  }

  function WithField(x: Words, k: nat, S: set<int>, v: nat): Words {
    if k == FIRST_BB then x.(first := Put(x.first, S, v))
    else if k == SKIP_INST then x.(skip := Put(x.skip, S, v))
    else if k == PAUSE then x.(pause := Put(x.pause, S, v))
    else x.(ahead := Put(x.ahead, S, v))
  }

  lemma WriteWord(words: seq<nat>, size: nat, n: nat, x: Words, t: nat, k: nat, v: nat)
    requires Represents(words, size, n, x) && t < n && k in {FIRST_BB, SKIP_INST, PAUSE, RUN_AHEAD}
    ensures Slot(size, t, k) < |words|
    ensures Represents(words[Slot(size, t, k) := v], size, n, WithField(x, k, {t}, v))
  {
    SlotInRange(n, size, t, k);
    var words', x' := words[Slot(size, t, k) := v], WithField(x, k, {t}, v);
    forall t': nat | t' < n ensures Holds(words', size, n, x', t') {
      assert Holds(words, size, n, x, t');
      forall k': nat | k' < size
        ensures Slot(size, t', k') < |words'| && words'[Slot(size, t', k')] == WordOf(x', t', k')
      {
        if (t', k') != (t, k) {
          SlotsDiffer(size, t, k, t', k');
        }
      }
    }
  }

  function Zeroed(size: nat, n: nat): Words {
    Words(Const(n, 0), Const(n, 0), Const(n, 0), Const(n, 0), seq(size, _ => Const(n, 0)))
  }

  lemma ZerosAreZeroed(words: seq<nat>, size: nat, n: nat)
    requires size > RUN_AHEAD && |words| == n * size && forall i :: 0 <= i < |words| ==> words[i] == 0
    ensures Represents(words, size, n, Zeroed(size, n))
  {
    forall t: nat | t < n ensures Holds(words, size, n, Zeroed(size, n), t) {
      forall k: nat | k < size ensures Slot(size, t, k) < |words| && words[Slot(size, t, k)] == 0 {
        SlotInRange(n, size, t, k);
      }
    }
  }

  class Trace {
    const size: nat
    const n: nat
    const words: array<nat>
    ghost var view: Words

    ghost predicate Valid()
      reads this, words
    {
      Represents(words[..], size, n, view)
    }

    /** A buffer of the right length, whatever it holds. */
    predicate Sized() {
      size > RUN_AHEAD && words.Length == n * size
    }

    constructor (size: nat, n: nat)
      requires size > RUN_AHEAD
      ensures this.size == size && this.n == n && fresh(words)
      ensures Valid() && Sized() && view == Zeroed(size, n)
    {
      this.size, this.n := size, n;
      words := new nat[n * size](_ => 0);
      view := Zeroed(size, n);
      new;
      ZerosAreZeroed(words[..], size, n);
    }

    /** memset of the whole buffer. */
    method Clear()
      requires Sized()
      modifies this`view, words
      ensures Valid() && view == Zeroed(size, n)
    {
      forall i | 0 <= i < words.Length {
        words[i] := 0;
      }
      view := Zeroed(size, n);
      ZerosAreZeroed(words[..], size, n);
    }

    /** One field of one thread. */
    method Set(t: nat, k: nat, v: nat)
      requires Valid() && t < n && k in {FIRST_BB, SKIP_INST, PAUSE, RUN_AHEAD}
      modifies this`view, words
      ensures Valid() && view == WithField(old(view), k, {t}, v)
    {
      ghost var was := words[..];
      WriteWord(was, size, n, view, t, k, v);
      words[t * size + k] := v;
      assert words[..] == was[Slot(size, t, k) := v];
      view := WithField(view, k, {t}, v);
    }

    method SetPause(t: nat, v: nat)
      requires Valid() && t < n
      modifies this`view, words
      ensures Valid() && view == Pausing(old(view), {t}, v)
    {
      Set(t, PAUSE, v);
    }

    method Release(t: nat)
      requires Valid() && t < n
      modifies this`view, words
      ensures Valid() && view == Releasing(old(view), {t})
    {
      Set(t, PAUSE, 0);
      Set(t, SKIP_INST, 32767);
      Set(t, RUN_AHEAD, 0);
    }

    method Mark(t: nat, rabbit: bool, pause: nat)
      requires Valid() && t < n
      modifies this`view, words
      ensures Valid() && view == Marking(old(view), {t}, rabbit, pause)
    {
      Set(t, FIRST_BB, 1);
      if rabbit {
        Set(t, SKIP_INST, 32760);
      }
      Set(t, PAUSE, pause);
    }

    /** pauseAllThreads and resumeAllThreads at launch. */
    method MarkAll(rabbit: bool, pause: nat)
      requires Valid()
      modifies this`view, words
      ensures Valid() && view == Marking(old(view), FirstThreads(n), rabbit, pause)
    {
      ghost var x := view;
      Nobody(x, rabbit, pause);
      for t := 0 to n
        invariant Valid() && view == Marking(x, FirstThreads(t), rabbit, pause)
      {
        MarkingTwice(x, FirstThreads(t), {t}, rabbit, pause);
        Mark(t, rabbit, pause);
      }
    }
  }
}
