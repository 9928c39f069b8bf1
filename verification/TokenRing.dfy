/** The token ring of thread_migrate: main plus n threads passing a counter through n mutexes,
    each hop adding to a shared array. Every interleaving is a run of the step relation below;
    a mutex is a binary semaphore that any thread may release, and the shared update is two
    steps, a load and a store. */
module TokenRing {
  import Bits

  datatype Pc =
    | AtLock                             // pthread_mutex_lock(mutex + l)
    | AtRead                             // token = data[l]
    | AtLoad(token: int, i: nat)         // head of the for loop: load shared_rdwr[i], or leave the loop
    | AtStore(token: int, i: nat, v: int)
    | AtUnlock(token: int)               // pthread_mutex_unlock(mutex + r)
    | AtPrint                            // printf, exit

  datatype MainPc =
    | Initing(i: nat)                    // pthread_mutex_init(mutex + i)
    | Locking(i: nat)
    | Creating(i: nat)
    | Releasing                          // pthread_mutex_unlock(mutex + 0)
    | Joining

  /** num_threads, the ping count and ASIZE. */
  datatype Config = Config(n: nat, pings: int, size: nat)

  datatype State = State(
    main: MainPc,
    created: nat,
    threads: seq<Pc>,
    locked: seq<bool>,
    data: seq<int>,
    rdwr: seq<int>,
    printed: seq<int>,   // what printf has written; the process exits with the first line
    hops: nat)           // auxiliary: completed unlocks of the next thread

  datatype Actor = Main | Thread(l: nat)

  function Init(c: Config): State {
    State(Initing(0), 0, seq(c.n, _ => AtLock), seq(c.n, _ => false),
          seq(c.n, i => if i == 0 then c.pings else 0), seq(c.size, i => i), [], 0)
  }

  predicate Shape(c: Config, s: State) {
    c.n > 0 && |s.threads| == |s.locked| == |s.data| == c.n && |s.rdwr| == c.size && s.created <= c.n
  }

  predicate Exited(s: State) {
    s.printed != []
  }

  predicate MainEnabled(c: Config, s: State)
    requires Shape(c, s)
  {
    match s.main
    case Initing(_) => true
    case Locking(i) => i < c.n && !s.locked[i]
    case Creating(_) => true
    case Releasing => true
    case Joining => false
  }

  predicate Enabled(c: Config, s: State, a: Actor)
    requires Shape(c, s)
  {
    !Exited(s) &&
    match a
    case Main => MainEnabled(c, s)
    case Thread(l) => l < s.created && (s.threads[l].AtLock? ==> !s.locked[l])
  }

  function MainStep(c: Config, s: State): State
    requires Shape(c, s) && MainEnabled(c, s)
  {
    match s.main
    case Initing(i) =>
      if i < c.n then s.(main := Locking(i), locked := s.locked[i := false]) else s.(main := Releasing)
    case Locking(i) => s.(main := Creating(i), locked := s.locked[i := true])
    case Creating(i) => s.(main := Initing(i + 1), created := if s.created < c.n then s.created + 1 else s.created)
    case Releasing => s.(main := Joining, locked := s.locked[0 := false])
  }

  function ThreadStep(c: Config, s: State, l: nat): State
    requires Shape(c, s) && l < s.created && (s.threads[l].AtLock? ==> !s.locked[l])
  {
    var r := (l + 1) % c.n;
    match s.threads[l]
    case AtLock => s.(threads := s.threads[l := AtRead], locked := s.locked[l := true])
    case AtRead =>
      s.(threads := s.threads[l := if s.data[l] != 0 then AtLoad(s.data[l], 0) else AtPrint])
    case AtLoad(token, i) =>
      if i < c.size then s.(threads := s.threads[l := AtStore(token, i, s.rdwr[i] + (i + token))])
      else s.(threads := s.threads[l := AtUnlock(token)], data := s.data[r := token - 1])
    case AtStore(token, i, v) =>
      s.(threads := s.threads[l := AtLoad(token, i + 1)], rdwr := if i < c.size then s.rdwr[i := v] else s.rdwr)
    case AtUnlock(token) =>
      s.(threads := s.threads[l := AtLock], locked := s.locked[r := false], hops := s.hops + 1)
    case AtPrint => s.(printed := s.printed + [l + 1])
  }

  ghost predicate Next(c: Config, s: State, a: Actor, s': State) {
    Shape(c, s) && Enabled(c, s, a) &&
    s' == match a case Main => MainStep(c, s) case Thread(l) => ThreadStep(c, s, l)
  }

  ghost predicate IsRun(c: Config, who: seq<Actor>, ss: seq<State>) {
    && |ss| == |who| + 1
    && ss[0] == Init(c)
    && forall k :: 0 <= k < |who| ==> Next(c, ss[k], who[k], ss[k + 1])
  }

  // ----- the invariant -----

  /** shared_rdwr[i] after k hops. */
  function Value(c: Config, i: int, k: int): int {
    i * (k + 1) + k * c.pings - k * (k - 1) / 2
  }

  ghost predicate Filled(c: Config, s: State, upTo: nat, k: nat)
    requires |s.rdwr| == c.size
  {
    forall x :: 0 <= x < c.size ==> s.rdwr[x] == Value(c, x, if x < upTo then k + 1 else k)
  }

  /** The thread whose turn it is after the completed hops. */
  function Turn(c: Config, k: nat): nat
    requires c.n > 0
  {
    k % c.n
  }

  ghost predicate OthersWait(s: State, j: nat) {
    forall l :: 0 <= l < |s.threads| && l != j ==> s.threads[l] == AtLock
  }

  ghost predicate OthersLocked(s: State, j: nat) {
    forall l :: 0 <= l < |s.locked| && l != j ==> s.locked[l]
  }

  /** Before main releases mutex 0: nothing has moved. */
  ghost predicate Starting(c: Config, s: State)
    requires Shape(c, s)
  {
    && s.hops == 0 && s.printed == [] && Filled(c, s, 0, 0) && s.data[0] == c.pings
    && (forall l :: 0 <= l < c.n ==> s.threads[l] == AtLock)
    && (forall l :: 0 <= l < s.created ==> s.locked[l])
    && match s.main
       case Initing(i) => i == s.created
       case Locking(i) => i == s.created < c.n && !s.locked[i]
       case Creating(i) => i == s.created < c.n && s.locked[i]
       case Releasing => s.created == c.n
       case Joining => false
  }

  /** Afterwards: only the thread whose turn it is can be past its lock. */
  ghost predicate Passing(c: Config, s: State)
    requires Shape(c, s)
  {
    var j, t := Turn(c, s.hops), c.pings - s.hops;
    && s.main == Joining && s.created == c.n
    && (c.pings >= 0 ==> t >= 0)
    && OthersWait(s, j) && OthersLocked(s, j)
    && (Exited(s) ==> s.threads[j] == AtPrint && s.printed == [j + 1])
    && (s.threads[j].AtLock? <==> !s.locked[j])
    && (!s.threads[j].AtUnlock? ==> s.data[j] == t)
    && match s.threads[j]
       case AtLock => Filled(c, s, 0, s.hops)
       case AtRead => Filled(c, s, 0, s.hops)
       case AtPrint => Filled(c, s, 0, s.hops) && t == 0
       case AtLoad(token, i) => token == t != 0 && i <= c.size && Filled(c, s, i, s.hops)
       case AtStore(token, i, v) =>
         token == t != 0 && i < c.size && Filled(c, s, i, s.hops) && v == Value(c, i, s.hops + 1)
       case AtUnlock(token) =>
         token == t != 0 && Filled(c, s, c.size, s.hops) && s.data[Turn(c, s.hops + 1)] == t - 1
  }

  ghost predicate Inv(c: Config, s: State) {
    Shape(c, s) && (Starting(c, s) || Passing(c, s))
  }

  lemma ValueStep(c: Config, i: int, k: nat)
    ensures Value(c, i, k + 1) == Value(c, i, k) + (i + (c.pings - k))
  {
    assert (k + 1) * k == k * (k - 1) + 2 * k;
    assert i * (k + 2) == i * (k + 1) + i;
    assert (k + 1) * c.pings == k * c.pings + c.pings;
  }

  lemma ValueStart(c: Config, i: int)
    ensures Value(c, i, 0) == i
  {
  }

  lemma {:induction false} TurnNext(c: Config, k: nat)
    requires c.n > 0
    ensures (Turn(c, k) + 1) % c.n == Turn(c, k + 1)
  {
    var q, j := k / c.n, k % c.n;
    assert k == q * c.n + j;
    if j + 1 < c.n {
      DivMod(k + 1, c.n, q, j + 1);
      DivMod(j + 1, c.n, 0, j + 1);
    } else {
      assert (q + 1) * c.n == q * c.n + c.n;
      DivMod(k + 1, c.n, q + 1, 0);
      DivMod(j + 1, c.n, 1, 0);
    }
  }

  lemma DivMod(x: nat, n: nat, q: nat, r: nat)
    requires n > 0 && r < n && x == q * n + r
    ensures x % n == r
  {
    Bits.DivModUnique(x, n, q, r);
  }

  lemma InitInv(c: Config)
    requires c.n > 0
    ensures Inv(c, Init(c))
  {
    forall x | 0 <= x < c.size ensures Init(c).rdwr[x] == Value(c, x, 0) {
      ValueStart(c, x);
    }
  }

  lemma MainStepInv(c: Config, s: State)
    requires Shape(c, s) && Starting(c, s) && MainEnabled(c, s)
    ensures Inv(c, MainStep(c, s))
  {
  }

  lemma LockStepInv(c: Config, s: State)
    requires Shape(c, s) && Passing(c, s) && !Exited(s)
    requires var pc := s.threads[Turn(c, s.hops)]; pc.AtLock? || pc.AtRead? || pc.AtPrint?
    ensures Passing(c, ThreadStep(c, s, Turn(c, s.hops)))
  {
  }

  lemma LoopStepInv(c: Config, s: State)
    requires Shape(c, s) && Passing(c, s) && !Exited(s)
    requires var pc := s.threads[Turn(c, s.hops)]; pc.AtLoad? || pc.AtStore?
    ensures Passing(c, ThreadStep(c, s, Turn(c, s.hops)))
  {
    var j := Turn(c, s.hops);
    TurnNext(c, s.hops);
    var i := s.threads[j].i;
    if i < c.size {
      ValueStep(c, i, s.hops);
    }
  }

  lemma UnlockStepInv(c: Config, s: State)
    requires Shape(c, s) && Passing(c, s) && !Exited(s)
    requires s.threads[Turn(c, s.hops)].AtUnlock?
    ensures Passing(c, ThreadStep(c, s, Turn(c, s.hops)))
  {
    TurnNext(c, s.hops);
  }

  lemma NextInv(c: Config, s: State, a: Actor, s': State)
    requires Inv(c, s) && Next(c, s, a, s')
    ensures Inv(c, s')
  {
    if Starting(c, s) {
      MainStepInv(c, s);
    } else {
      var pc := s.threads[Turn(c, s.hops)];
      if pc.AtUnlock? {
        UnlockStepInv(c, s);
      } else if pc.AtLoad? || pc.AtStore? {
        LoopStepInv(c, s);
      } else {
        LockStepInv(c, s);
      }
    }
  }

  lemma {:induction false} EveryState(c: Config, who: seq<Actor>, ss: seq<State>, k: nat)
    requires c.n > 0 && IsRun(c, who, ss) && k <= |who|
    ensures Inv(c, ss[k])
  {
    if k == 0 {
      InitInv(c);
    } else {
      EveryState(c, who, ss, k - 1);
      assert Next(c, ss[k - 1], who[k - 1], ss[k]);
      NextInv(c, ss[k - 1], who[k - 1], ss[k]);
    }
  }

  // ----- what every interleaving does -----

  /** Between its lock and the neighbour's unlock. */
  predicate Inside(s: State, l: nat) {
    l < |s.threads| && !s.threads[l].AtLock?
  }

  /** At most one thread holds the token. */
  lemma MutualExclusion(c: Config, who: seq<Actor>, ss: seq<State>, k: nat, a: nat, b: nat)
    requires c.n > 0 && IsRun(c, who, ss) && k <= |who|
    ensures Inside(ss[k], a) && Inside(ss[k], b) ==> a == b
  {
    EveryState(c, who, ss, k);
  }

  /** While a thread is inside, a step of anyone else leaves data[], shared_rdwr[] and that
      thread alone, so what it loaded is still there when it stores. */
  lemma NoInterference(c: Config, who: seq<Actor>, ss: seq<State>, k: nat, a: nat)
    requires c.n > 0 && IsRun(c, who, ss) && k < |who| && Inside(ss[k], a) && who[k] != Thread(a)
    ensures ss[k + 1].data == ss[k].data && ss[k + 1].rdwr == ss[k].rdwr
    ensures a < |ss[k + 1].threads| && ss[k + 1].threads[a] == ss[k].threads[a]
  {
    assert Next(c, ss[k], who[k], ss[k + 1]);
    if who[k].Thread? {
      MutualExclusion(c, who, ss, k, a, who[k].l);
    }
  }

  /** No state before the exit is stuck: main or the thread whose turn it is can move. */
  lemma NeverStuck(c: Config, who: seq<Actor>, ss: seq<State>, k: nat)
    requires c.n > 0 && IsRun(c, who, ss) && k <= |who| && !Exited(ss[k])
    ensures Shape(c, ss[k]) && exists a :: Enabled(c, ss[k], a)
  {
    EveryState(c, who, ss, k);
    var s := ss[k];
    assert Enabled(c, s, if Starting(c, s) then Main else Thread(Turn(c, s.hops)));
  }

  /** The winner: whatever the schedule, the line printed is (pings mod n) + 1, after exactly
      `pings` hops, and the shared array then holds its closed form. */
  lemma Winner(c: Config, who: seq<Actor>, ss: seq<State>, k: nat)
    requires c.n > 0 && IsRun(c, who, ss) && k <= |who| && Exited(ss[k])
    ensures c.pings >= 0 && ss[k].hops == c.pings && ss[k].printed == [c.pings % c.n + 1]
    ensures |ss[k].rdwr| == c.size
    ensures forall x :: 0 <= x < c.size ==>
              ss[k].rdwr[x] == x * (c.pings + 1) + c.pings * (c.pings + 1) / 2
  {
    EveryState(c, who, ss, k);
    forall x | 0 <= x < c.size
      ensures Value(c, x, c.pings) == x * (c.pings + 1) + c.pings * (c.pings + 1) / 2
    {
      ClosedForm(c, x);
    }
  }

  lemma ClosedForm(c: Config, x: int)
    ensures Value(c, x, c.pings) == x * (c.pings + 1) + c.pings * (c.pings + 1) / 2
  {
    var p := c.pings;
    assert p * (p + 1) == 2 * (p * p) - p * (p - 1);
    assert p * (p - 1) % 2 == 0 by {
      EvenProduct(p);
    }
  }

  lemma EvenProduct(p: int)
    ensures p * (p - 1) % 2 == 0
  {
    var h := p / 2;
    var m := if p % 2 == 0 then h * (p - 1) else p * h;
    if p % 2 == 0 {
      assert p * (p - 1) == (2 * h) * (p - 1);
    } else {
      assert p * (p - 1) == p * (2 * h);
    }
    assert p * (p - 1) == m * 2 + 0;
    Bits.DivModUnique(p * (p - 1), 2, m, 0);
  }

  // ----- termination -----

  function MainRank(c: Config, m: MainPc): int {
    match m
    case Initing(i) => 3 * (c.n - i) + 2
    case Locking(i) => 3 * (c.n - i) + 1
    case Creating(i) => 3 * (c.n - i)
    case Releasing => 1
    case Joining => 0
  }

  function PcRank(c: Config, pc: Pc): int {
    match pc
    case AtLock => 2 * c.size + 5
    case AtRead => 2 * c.size + 4
    case AtLoad(_, i) => 2 * (c.size - i) + 3
    case AtStore(_, i, _) => 2 * (c.size - i) + 2
    case AtUnlock(_) => 1
    case AtPrint => 1
  }

  /** Steps that are left at most. */
  ghost function Rank(c: Config, s: State): int
    requires Inv(c, s)
  {
    if Exited(s) then 0
    else MainRank(c, s.main) + PcRank(c, s.threads[Turn(c, s.hops)]) + (c.pings - s.hops) * (2 * c.size + 6)
  }

  lemma RankIsNat(c: Config, s: State)
    requires Inv(c, s) && c.pings >= 0
    ensures Rank(c, s) >= 0
    ensures !Exited(s) ==> Rank(c, s) > 0
  {
    assert c.pings - s.hops >= 0;
    assert (c.pings - s.hops) * (2 * c.size + 6) >= 0;
  }

  lemma StepLowersRank(c: Config, s: State, a: Actor, s': State)
    requires Inv(c, s) && Inv(c, s') && Next(c, s, a, s') && c.pings >= 0
    ensures Rank(c, s') < Rank(c, s)
  {
    RankIsNat(c, s);
    if s'.hops != s.hops {
      assert (c.pings - s.hops) * (2 * c.size + 6) == (c.pings - s'.hops) * (2 * c.size + 6) + (2 * c.size + 6);
      TurnNext(c, s.hops);
    }
  }

  /** With a non-negative count every run is finite, with an explicit bound; with `NeverStuck`
      this means that every schedule that keeps going reaches the winner's exit. */
  lemma {:induction false} RunsAreBounded(c: Config, who: seq<Actor>, ss: seq<State>, k: nat)
    requires c.n > 0 && c.pings >= 0 && IsRun(c, who, ss) && k <= |who|
    ensures Inv(c, ss[k]) && Rank(c, ss[k]) >= 0
    ensures k + Rank(c, ss[k]) <= 3 * c.n + 2 * c.size + 7 + c.pings * (2 * c.size + 6)
  {
    EveryState(c, who, ss, k);
    RankIsNat(c, ss[k]);
    if k > 0 {
      RunsAreBounded(c, who, ss, k - 1);
      assert Next(c, ss[k - 1], who[k - 1], ss[k]);
      StepLowersRank(c, ss[k - 1], who[k - 1], ss[k]);
    }
  }

  /** The count decides: the program can exit exactly when it is not negative. */
  lemma ExitsIffNonNegative(c: Config)
    requires c.n > 0
    ensures c.pings >= 0 <==> exists who, ss :: IsRun(c, who, ss) && Exited(ss[|who|])
  {
    if c.pings >= 0 {
      var who, ss := RunToExit(c, [], [Init(c)]);
      assert IsRun(c, who, ss) && Exited(ss[|who|]);
    }
    forall who, ss | IsRun(c, who, ss) && Exited(ss[|who|]) ensures c.pings >= 0 {
      Winner(c, who, ss, |who|);
    }
  }

  lemma RunToExit(c: Config, who: seq<Actor>, ss: seq<State>) returns (who': seq<Actor>, ss': seq<State>)
    requires c.n > 0 && c.pings >= 0 && IsRun(c, who, ss)
    ensures IsRun(c, who', ss') && Exited(ss'[|who'|])
    decreases 3 * c.n + 2 * c.size + 7 + c.pings * (2 * c.size + 6) - |who|
  {
    RunsAreBounded(c, who, ss, |who|);
    var s := ss[|who|];
    if Exited(s) {
      who', ss' := who, ss;
    } else {
      RankIsNat(c, s);
      NeverStuck(c, who, ss, |who|);
      var a :| Enabled(c, s, a);
      var s' := match a case Main => MainStep(c, s) case Thread(l) => ThreadStep(c, s, l);
      assert Next(c, s, a, s');
      who', ss' := RunToExit(c, who + [a], ss + [s']);
    }
  }
}
