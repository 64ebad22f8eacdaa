/** The inter-process mutex of ngx_shmtx.c: a lock word taken by compare-and-set,
    a signed count of waiters, and a POSIX semaphore on which they sleep.

    Every plain read of a shared word and every atomic operation on one is a step
    of its own, and any process may take the next step. */
module Shmtx {
  import opened Counting
  import opened Words

  /** `ncpu` is ngx_ncpu; `spin` and `semaphore` are the fields of ngx_shmtx_t. */
  datatype Config = Config(ncpu: nat, spin: nat, semaphore: bool)

  /** What a process does next. */
  datatype Pc =
    | Idle
    | TryTest                // trylock: read *lock
    | TryCas                 // trylock: cmp_set(lock, 0, pid)
    | LockTest(n: nat)       // lock: read *lock; n is the spin counter, 0 for the first test
    | LockCas(n: nat)
    | WaitInc                // fetch_add(wait, 1)
    | WaitTest               // the second test: read *lock
    | WaitCas
    | WaitDec                // the second test took the lock: fetch_add(wait, -1)
    | Sleep                  // sem_wait
    | Held
    | WakeRead               // wakeup: wait = *mtx->wait
    | WakeCas(seen: Word)    // wakeup: cmp_set(mtx->wait, wait, wait - 1)
    | WakePost               // sem_post

  /** The call an idle process makes when it is scheduled. */
  datatype Call = CallLock | CallTryLock | CallUnlock

  /** The shared words and the semaphore value. */
  datatype Shared = Shared(lock: Word, wait: Word, sem: nat)

  /** The shared words and one program counter per process.
      Process `p` has the non-zero pid `p + 1`. */
  datatype State = State(shared: Shared, procs: seq<Pc>)

  function Pid(p: nat): nat { p + 1 }

  function Init(n: nat): State {
    State(Shared(0, 0, 0), seq(n, i => Idle))
  }

  /** Where `ngx_shmtx_lock` goes after a failed test with spin counter `n`. */
  function AfterFailedTest(c: Config, n: nat): Pc {
    var next := if n == 0 then 1 else 2 * n;
    if c.ncpu > 1 && next < c.spin then LockTest(next)
    else if c.semaphore then WaitInc
    else LockTest(0)
  }

  /** One step of a process at `pc` with process id `pid`: where it goes and what it
      leaves in the shared words.  A process blocked in sem_wait does not move. */
  function Act(c: Config, pid: nat, pc: Pc, m: Shared, call: Call): (Pc, Shared)
    requires 0 < pid < HALF64
  {
    match pc
    case Idle =>
      (match call
       case CallLock => (LockTest(0), m)
       case CallTryLock => (TryTest, m)
       case CallUnlock => Unlock(c, pid, pc, m))
    case TryTest => (if m.lock == 0 then TryCas else Idle, m)
    case TryCas => if m.lock == 0 then (Held, m.(lock := pid)) else (Idle, m)
    case LockTest(n) => (if m.lock == 0 then LockCas(n) else AfterFailedTest(c, n), m)
    case LockCas(n) =>
      if m.lock == 0 then (Held, m.(lock := pid)) else (AfterFailedTest(c, n), m)
    case WaitInc => (WaitTest, m.(wait := Wrap(m.wait + 1)))
    case WaitTest => (if m.lock == 0 then WaitCas else Sleep, m)
    case WaitCas => if m.lock == 0 then (WaitDec, m.(lock := pid)) else (Sleep, m)
    case WaitDec => (Held, m.(wait := Wrap(m.wait - 1)))
    case Sleep => if m.sem > 0 then (LockTest(0), m.(sem := m.sem - 1)) else (Sleep, m)
    case Held => Unlock(c, pid, pc, m)
    case WakeRead => (if Signed(m.wait) <= 0 then Idle else WakeCas(m.wait), m)
    case WakeCas(seen) =>
      if m.wait == seen then (WakePost, m.(wait := Wrap(seen - 1))) else (WakeRead, m)
    case WakePost => (Idle, m.(sem := m.sem + 1))
  }

  /** `ngx_shmtx_unlock`: the compare-and-set from the caller's own pid to 0. */
  function Unlock(c: Config, pid: nat, pc: Pc, m: Shared): (Pc, Shared) {
    if m.lock == pid then (if c.semaphore then WakeRead else Idle, m.(lock := 0))
    else (pc, m)
  }

  function Step(c: Config, s: State, p: nat, call: Call): State
    requires p < |s.procs| && Pid(|s.procs|) < HALF64
  {
    var (pc, m) := Act(c, Pid(p), s.procs[p], s.shared, call);
    State(m, s.procs[p := pc])
  }

  /** One entry of a schedule: who runs and, if idle, what it calls. */
  datatype Turn = Turn(p: nat, call: Call)

  /** The state a schedule leads to; turns of processes that do not exist are skipped. */
  function Exec(c: Config, s: State, schedule: seq<Turn>): (t: State)
    requires Pid(|s.procs|) < HALF64
    ensures |t.procs| == |s.procs|
  {
    if schedule == [] then s
    else
      var t := Exec(c, s, schedule[..|schedule| - 1]);
      var turn := schedule[|schedule| - 1];
      if turn.p < |t.procs| then Step(c, t, turn.p, turn.call) else t
  }

  // ---- Classes of program counters ----

  /** The lock word holds this process's pid. */
  predicate Owns(pc: Pc) { pc.Held? || pc.WaitDec? }

  /** Between wait++ and the matching wait-- or return from sem_wait. */
  predicate Waiting(pc: Pc) { pc.WaitTest? || pc.WaitCas? || pc.WaitDec? || pc.Sleep? }

  predicate Sleeping(pc: Pc) { pc.Sleep? }

  /** Has taken one from `wait` and not posted yet. */
  predicate Posting(pc: Pc) { pc.WakePost? }

  /** An unlocker that will still look at `wait`. */
  predicate Waking(pc: Pc) { pc.WakeRead? || pc.WakeCas? }

  /** An acquirer that is awake and will test the lock again before it sleeps. */
  predicate Acquiring(pc: Pc) {
    pc.LockTest? || pc.LockCas? || pc.WaitInc? || pc.WaitTest? || pc.WaitCas?
  }

  predicate NeedsSemaphore(pc: Pc) {
    pc.WaitInc? || Waiting(pc) || Waking(pc) || Posting(pc)
  }

  /** A waker only tries to take from a count it has seen positive. */
  predicate SawWaiter(pc: Pc) { pc.WakeCas? ==> Signed(pc.seen) > 0 }

  // ---- The invariant ----

  ghost predicate Some(procs: seq<Pc>, f: Pc -> bool) {
    exists p :: 0 <= p < |procs| && f(procs[p])
  }

  /** The lock word names exactly the process that owns the lock. */
  ghost predicate Ownership(s: State) {
    && s.shared.lock <= |s.procs|
    && forall p :: 0 <= p < |s.procs| ==> (Owns(s.procs[p]) <==> s.shared.lock == Pid(p))
  }

  /** Every waiter is accounted for by the counter, the semaphore or a post in flight. */
  ghost predicate Conservation(s: State) {
    Signed(s.shared.wait) + s.shared.sem + Count(s.procs, Posting) == Count(s.procs, Waiting)
  }

  /** A free lock with a sleeper: a wake-up exists, or somebody will still look. */
  ghost predicate NoLostWakeup(s: State) {
    s.shared.lock == 0 && Some(s.procs, Sleeping) ==>
      || s.shared.sem > 0
      || Some(s.procs, Posting)
      || Some(s.procs, Waking)
      || Some(s.procs, Acquiring)
  }

  /** Conservation, and the bound that keeps the counter inside the signed range. */
  ghost predicate Balanced(s: State) {
    && Conservation(s)
    && s.shared.sem + Count(s.procs, Posting) <= |s.procs|
  }

  ghost predicate Inv(c: Config, s: State) {
    && Pid(|s.procs|) < HALF64
    && Ownership(s)
    && Balanced(s)
    && NoLostWakeup(s)
    && (forall p :: 0 <= p < |s.procs| ==> SawWaiter(s.procs[p]))
    && (!c.semaphore ==> !Some(s.procs, NeedsSemaphore))
  }

  lemma {:induction false} InitInv(c: Config, n: nat)
    requires Pid(n) < HALF64
    ensures Inv(c, Init(n))
  {
    CountNone(Init(n).procs, Waiting);
    CountNone(Init(n).procs, Posting);
  }

  // ---- Every step keeps it ----

  function Weight(pc: Pc): int {
    (if Posting(pc) then 1 else 0) - (if Waiting(pc) then 1 else 0)
  }

  /** The local conservation law: a step moves weight between the process, the
      counter and the semaphore, and creates none. */
  lemma {:induction false} ActConserves(c: Config, pid: nat, pc: Pc, m: Shared, call: Call)
    requires 0 < pid < HALF64 && -HALF64 < Signed(m.wait) < HALF64 - 1
    requires pc.WakeCas? ==> Signed(pc.seen) > 0
    ensures var (pc', m') := Act(c, pid, pc, m, call);
      && Signed(m'.wait) + m'.sem + Weight(pc') == Signed(m.wait) + m.sem + Weight(pc)
      && (pc'.WakePost? ==> Signed(m.wait) > 0)
  {
  }

  lemma {:induction false} StepBalanced(c: Config, s: State, p: nat, call: Call)
    requires p < |s.procs| && Pid(|s.procs|) < HALF64 && SawWaiter(s.procs[p]) && Balanced(s)
    ensures Balanced(Step(c, s, p, call))
  {
    var t := Step(c, s, p, call);
    CountUpdate(s.procs, p, t.procs[p], Waiting);
    CountUpdate(s.procs, p, t.procs[p], Posting);
    ActConserves(c, Pid(p), s.procs[p], s.shared, call);
  }

  lemma {:induction false} StepOwnership(c: Config, s: State, p: nat, call: Call)
    requires p < |s.procs| && Pid(|s.procs|) < HALF64 && Ownership(s)
    ensures Ownership(Step(c, s, p, call))
  {
  }

  /** Who still guarantees that a sleeper is looked after. */
  predicate Helper(pc: Pc) { Posting(pc) || Waking(pc) || Acquiring(pc) }

  /** If a step leaves the lock free, the semaphore empty and the counter positive,
      then a helper stays a helper, an unlocker becomes one, and nobody fell asleep. */
  lemma {:induction false} ActKeepsHelper(c: Config, pid: nat, pc: Pc, m: Shared, call: Call)
    requires 0 < pid < HALF64 && c.semaphore
    ensures var (pc', m') := Act(c, pid, pc, m, call);
      m'.lock == 0 && m'.sem == 0 && Signed(m'.wait) > 0 ==>
        && (m.lock != 0 || Helper(pc) ==> Helper(pc'))
        && (pc'.Sleep? ==> pc.Sleep?)
  {
  }

  lemma {:induction false} StepNoLostWakeup(c: Config, s: State, p: nat, call: Call)
    requires p < |s.procs| && Inv(c, s)
    ensures NoLostWakeup(Step(c, s, p, call))
  {
    var t := Step(c, s, p, call);
    if t.shared.lock == 0 && Some(t.procs, Sleeping) && t.shared.sem == 0 {
      var z :| 0 <= z < |t.procs| && Sleeping(t.procs[z]);
      CountPositive(t.procs, z, Waiting);
      StepBalanced(c, s, p, call);
      if Count(t.procs, Posting) > 0 {
        var q := CountWitness(t.procs, Posting);
      } else {
        FreeLockHasHelper(c, s, p, call, z);
      }
    }
  }

  lemma {:induction false} FreeLockHasHelper(c: Config, s: State, p: nat, call: Call, z: nat)
    requires p < |s.procs| && Inv(c, s) && z < |s.procs|
    requires var t := Step(c, s, p, call);
      && t.shared.lock == 0 && t.shared.sem == 0 && Signed(t.shared.wait) > 0
      && Sleeping(t.procs[z])
    ensures Some(Step(c, s, p, call).procs, Helper)
  {
    var t := Step(c, s, p, call);
    assert NeedsSemaphore(t.procs[z]);
    assert c.semaphore by { ActNeedsSemaphore(c, Pid(p), s.procs[p], s.shared, call); }
    ActKeepsHelper(c, Pid(p), s.procs[p], s.shared, call);
    if s.shared.lock == 0 {
      assert Sleeping(s.procs[z]);
      assert s.shared.sem == 0 || s.procs[p].Sleep?;
      if s.shared.sem > 0 {
        assert Helper(t.procs[p]);
      } else {
        var q :| 0 <= q < |s.procs| && Helper(s.procs[q]);
        assert Helper(t.procs[q]);
      }
    } else {
      assert Helper(t.procs[p]);
    }
  }

  /** Without a semaphore no process ever enters the waiting protocol. */
  lemma {:induction false} ActNeedsSemaphore(c: Config, pid: nat, pc: Pc, m: Shared, call: Call)
    requires 0 < pid < HALF64 && (!c.semaphore ==> !NeedsSemaphore(pc))
    ensures !c.semaphore ==> !NeedsSemaphore(Act(c, pid, pc, m, call).0)
  {
  }

  lemma {:induction false} ActSawWaiter(c: Config, pid: nat, pc: Pc, m: Shared, call: Call)
    requires 0 < pid < HALF64 && SawWaiter(pc)
    ensures SawWaiter(Act(c, pid, pc, m, call).0)
  {
  }

  lemma {:induction false} StepInv(c: Config, s: State, p: nat, call: Call)
    requires p < |s.procs| && Inv(c, s)
    ensures Inv(c, Step(c, s, p, call))
  {
    StepOwnership(c, s, p, call);
    StepBalanced(c, s, p, call);
    StepNoLostWakeup(c, s, p, call);
    ActSawWaiter(c, Pid(p), s.procs[p], s.shared, call);
    ActNeedsSemaphore(c, Pid(p), s.procs[p], s.shared, call);
  }

  // ---- Safety over whole runs ----

  lemma {:induction false} ExecInv(c: Config, s: State, schedule: seq<Turn>)
    requires Inv(c, s)
    ensures Inv(c, Exec(c, s, schedule))
  {
    if schedule != [] {
      var t := Exec(c, s, schedule[..|schedule| - 1]);
      ExecInv(c, s, schedule[..|schedule| - 1]);
      var turn := schedule[|schedule| - 1];
      if turn.p < |t.procs| { StepInv(c, t, turn.p, turn.call); }
    }
  }

  /** In every interleaving of any number of processes: at most one of them is past
      lock() or a successful trylock(), the waiters are conserved, the semaphore never
      exceeds the number of processes, and no wake-up is lost. */
  lemma {:induction false} Safety(c: Config, n: nat, schedule: seq<Turn>)
    requires Pid(n) < HALF64
    ensures var s := Exec(c, Init(n), schedule);
      && (forall p, q :: 0 <= p < q < n ==> !(s.procs[p].Held? && s.procs[q].Held?))
      && Signed(s.shared.wait) + s.shared.sem + Count(s.procs, Posting) == Count(s.procs, Waiting)
      && s.shared.sem <= n
      && NoLostWakeup(s)
  {
    InitInv(c, n);
    ExecInv(c, Init(n), schedule);
    var s := Exec(c, Init(n), schedule);
    assert forall p :: 0 <= p < n && s.procs[p].Held? ==> s.shared.lock == Pid(p);
  }

  // ---- From every reachable state every acquirer can still get the lock ----

  ghost predicate Reaches(c: Config, s: State, t: State)
    requires Pid(|s.procs|) < HALF64
  {
    exists schedule :: Exec(c, s, schedule) == t
  }

  lemma {:induction false} ExecConcat(c: Config, s: State, a: seq<Turn>, b: seq<Turn>)
    requires Pid(|s.procs|) < HALF64
    ensures Exec(c, s, a + b) == Exec(c, Exec(c, s, a), b)
  {
    if b == [] {
      assert a + b == a;
    } else {
      assert (a + b)[..|a + b| - 1] == a + b[..|b| - 1];
      ExecConcat(c, s, a, b[..|b| - 1]);
    }
  }

  lemma {:induction false} ReachesTrans(c: Config, s: State, t: State, u: State)
    requires Pid(|s.procs|) < HALF64 && Reaches(c, s, t)
    requires |t.procs| == |s.procs| && Reaches(c, t, u)
    ensures Reaches(c, s, u)
  {
    var a :| Exec(c, s, a) == t;
    var b :| Exec(c, t, b) == u;
    ExecConcat(c, s, a, b);
  }

  lemma {:induction false} ReachesInv(c: Config, s: State, t: State)
    requires Inv(c, s) && Reaches(c, s, t)
    ensures Inv(c, t) && |t.procs| == |s.procs|
  {
    var schedule :| Exec(c, s, schedule) == t;
    ExecInv(c, s, schedule);
  }

  lemma {:induction false} ReachesSelf(c: Config, s: State)
    requires Pid(|s.procs|) < HALF64
    ensures Reaches(c, s, s)
  {
    assert Exec(c, s, []) == s;
  }

  /** Process `p` takes one more step at the end of a run from `s`. */
  lemma {:induction false} Extend(c: Config, s: State, t: State, p: nat) returns (u: State)
    requires Pid(|s.procs|) < HALF64 && Reaches(c, s, t) && p < |t.procs| == |s.procs|
    ensures u == Step(c, t, p, CallLock) && Reaches(c, s, u)
  {
    u := Step(c, t, p, CallLock);
    assert Exec(c, t, []) == t;
    assert Exec(c, t, [Turn(p, CallLock)]) == u;
    ReachesTrans(c, s, t, u);
  }

  /** An awake acquirer that runs alone while the lock is free takes it. */
  lemma {:induction false} SoloAcquire(c: Config, s: State, z: nat) returns (t: State)
    requires Pid(|s.procs|) < HALF64 && z < |s.procs|
    requires Acquiring(s.procs[z]) && s.shared.lock == 0
    ensures Reaches(c, s, t) && t.procs == s.procs[z := Held]
  {
    ReachesSelf(c, s);
    t := s;
    if t.procs[z].WaitInc? { t := Extend(c, s, t, z); }
    if t.procs[z].LockTest? || t.procs[z].WaitTest? { t := Extend(c, s, t, z); }
    t := Extend(c, s, t, z);
    if t.procs[z].WaitDec? { t := Extend(c, s, t, z); }
  }

  /** The owner can always finish and unlock. */
  lemma {:induction false} SoloRelease(c: Config, s: State, h: nat) returns (t: State)
    requires Pid(|s.procs|) < HALF64 && h < |s.procs|
    requires Owns(s.procs[h]) && s.shared.lock == Pid(h)
    ensures Reaches(c, s, t) && t.shared.lock == 0
    ensures t.procs == s.procs[h := if c.semaphore then WakeRead else Idle]
  {
    ReachesSelf(c, s);
    t := s;
    if t.procs[h].WaitDec? { t := Extend(c, s, t, h); }
    t := Extend(c, s, t, h);
  }

  /** An unlocker that runs alone while the counter is positive posts. */
  lemma {:induction false} SoloWake(c: Config, s: State, q: nat) returns (t: State)
    requires Pid(|s.procs|) < HALF64 && q < |s.procs|
    requires Waking(s.procs[q]) && Signed(s.shared.wait) > 0
    ensures Reaches(c, s, t) && t.shared.lock == s.shared.lock
    ensures t.shared.sem > 0 && t.procs == s.procs[q := Idle]
  {
    ReachesSelf(c, s);
    var r := s;
    if r.procs[q].WakeCas? && r.procs[q].seen != r.shared.wait { r := Extend(c, s, r, q); }
    if r.procs[q].WakeRead? { r := Extend(c, s, r, q); }
    t := SoloPost(c, r, q);
    ReachesTrans(c, s, r, t);
  }

  lemma {:induction false} SoloPost(c: Config, s: State, q: nat) returns (t: State)
    requires Pid(|s.procs|) < HALF64 && q < |s.procs|
    requires s.procs[q].WakeCas? && s.procs[q].seen == s.shared.wait && Signed(s.shared.wait) > 0
    ensures Reaches(c, s, t) && t.shared.lock == s.shared.lock
    ensures t.shared.sem > 0 && t.procs == s.procs[q := Idle]
  {
    ReachesSelf(c, s);
    t := Extend(c, s, s, q);
    t := Extend(c, s, t, q);
  }

  /** With the lock free, a sleeper can be given a semaphore unit. */
  lemma {:induction false} CanPost(c: Config, s: State, z: nat) returns (t: State)
    requires Inv(c, s) && z < |s.procs| && s.procs[z].Sleep? && s.shared.lock == 0
    ensures Reaches(c, s, t) && t.shared.lock == 0 && t.shared.sem > 0
    ensures |t.procs| == |s.procs| && t.procs[z].Sleep?
  {
    ReachesSelf(c, s);
    if s.shared.sem > 0 {
      t := s;
    } else if Some(s.procs, Posting) || Some(s.procs, Waking) {
      t := CanPostNow(c, s, z);
    } else {
      // Some awake acquirer takes the lock and gives it back: it is then a waker.
      var q :| 0 <= q < |s.procs| && Acquiring(s.procs[q]);
      var held := SoloAcquire(c, s, q);
      ReachesInv(c, s, held);
      var freed := SoloRelease(c, held, q);
      ReachesTrans(c, s, held, freed);
      ReachesInv(c, s, freed);
      assert c.semaphore by { assert NeedsSemaphore(s.procs[z]); }
      assert Waking(freed.procs[q]) && freed.procs[z].Sleep?;
      t := CanPostNow(c, freed, z);
      ReachesTrans(c, s, freed, t);
    }
  }

  lemma {:induction false} CanPostNow(c: Config, s: State, z: nat) returns (t: State)
    requires Inv(c, s) && z < |s.procs| && s.procs[z].Sleep? && s.shared.lock == 0
    requires Some(s.procs, Posting) || Some(s.procs, Waking)
    ensures Reaches(c, s, t) && t.shared.lock == 0 && t.shared.sem > 0
    ensures |t.procs| == |s.procs| && t.procs[z].Sleep?
  {
    ReachesSelf(c, s);
    if s.shared.sem > 0 {
      t := s;
    } else if Count(s.procs, Posting) > 0 {
      var q := CountWitness(s.procs, Posting);
      t := Extend(c, s, s, q);
    } else {
      CountPositive(s.procs, z, Waiting);
      if Some(s.procs, Posting) {
        var q :| 0 <= q < |s.procs| && Posting(s.procs[q]);
        CountPositive(s.procs, q, Posting);
      }
      var q :| 0 <= q < |s.procs| && Waking(s.procs[q]);
      t := SoloWake(c, s, q);
    }
  }

  /** While the lock is free, whoever is on its way to it can get it. */
  lemma {:induction false} GetsFreeLock(c: Config, s: State, z: nat) returns (t: State)
    requires Inv(c, s) && z < |s.procs| && s.shared.lock == 0 && (Acquiring(s.procs[z]) || s.procs[z].Sleep?)
    ensures Reaches(c, s, t) && |t.procs| == |s.procs| && t.procs[z].Held?
  {
    ReachesSelf(c, s);
    if s.procs[z].Sleep? {
      var posted := CanPost(c, s, z);
      var u := Extend(c, s, posted, z);
      t := SoloAcquire(c, u, z);
      ReachesTrans(c, s, u, t);
    } else {
      t := SoloAcquire(c, s, z);
    }
  }

  /** In every reachable state, whoever is inside lock() - asleep or not - can still
      get the lock: nobody is ever stranded. */
  lemma {:induction false} NeverStranded(c: Config, n: nat, schedule: seq<Turn>, z: nat) returns (t: State)
    requires Pid(n) < HALF64 && z < n
    requires var pc := Exec(c, Init(n), schedule).procs[z]; Acquiring(pc) || pc.Sleep? || pc.WaitDec?
    ensures Reaches(c, Exec(c, Init(n), schedule), t) && |t.procs| == n && t.procs[z].Held?
  {
    var s := Exec(c, Init(n), schedule);
    InitInv(c, n);
    ExecInv(c, Init(n), schedule);
    ReachesSelf(c, s);
    if s.procs[z].WaitDec? {
      t := Extend(c, s, s, z);
    } else if s.shared.lock == 0 {
      t := GetsFreeLock(c, s, z);
    } else {
      var free := SoloRelease(c, s, s.shared.lock - 1);
      ReachesInv(c, s, free);
      t := GetsFreeLock(c, free, z);
      ReachesTrans(c, s, free, t);
    }
  }

  // ---- What a process does that runs alone ----

  /** Process `p` takes `k` steps, and starts with the call if it is idle. */
  function Alone(c: Config, s: State, p: nat, call: Call, k: nat): (t: State)
    requires Pid(|s.procs|) < HALF64 && p < |s.procs|
    ensures |t.procs| == |s.procs|
  {
    if k == 0 then s else Step(c, Alone(c, s, p, call, k - 1), p, call)
  }

  /** A process that tries a free lock has it after a test and a compare-and-set ... */
  lemma {:induction false} TryTakesFree(c: Config, s: State, p: nat)
    requires Pid(|s.procs|) < HALF64 && p < |s.procs| && s.procs[p].Idle? && s.shared.lock == 0
    ensures Alone(c, s, p, CallTryLock, 3) == State(s.shared.(lock := Pid(p)), s.procs[p := Held])
  {
    var s1 := Alone(c, s, p, CallTryLock, 1);
    assert s1 == Step(c, Alone(c, s, p, CallTryLock, 0), p, CallTryLock);
    var s2 := Alone(c, s, p, CallTryLock, 2);
    assert s2 == Step(c, s1, p, CallTryLock);
    assert s1.procs[p := TryCas][p := Held] == s.procs[p := Held];
  }

  /** ... and one that tries a lock that is taken returns without having changed anything. */
  lemma {:induction false} TryLeavesTaken(c: Config, s: State, p: nat)
    requires Pid(|s.procs|) < HALF64 && p < |s.procs| && s.procs[p].Idle? && s.shared.lock != 0
    ensures Alone(c, s, p, CallTryLock, 2) == s
  {
    var s1 := Alone(c, s, p, CallTryLock, 1);
    assert s1 == Step(c, Alone(c, s, p, CallTryLock, 0), p, CallTryLock);
    assert s1.procs[p := Idle] == s.procs;
  }

  /** In any interleaving, a try ends without the lock exactly at a test or compare-and-set
      that finds it taken, and with it exactly at a compare-and-set that finds it free. */
  lemma {:induction false} TryEnds(c: Config, s: State, p: nat, call: Call)
    requires Pid(|s.procs|) < HALF64 && p < |s.procs| && (s.procs[p].TryTest? || s.procs[p].TryCas?)
    ensures var t := Step(c, s, p, call);
      && (t.procs[p].Idle? <==> s.shared.lock != 0)
      && (t.procs[p].Held? <==> s.procs[p].TryCas? && s.shared.lock == 0)
      && t.shared == if t.procs[p].Held? then s.shared.(lock := Pid(p)) else s.shared
  {
  }

  /** A process that wants a free lock has it after a test and a compare-and-set ... */
  lemma {:induction false} LockTakesFree(c: Config, s: State, p: nat)
    requires Pid(|s.procs|) < HALF64 && p < |s.procs| && s.procs[p].Idle? && s.shared.lock == 0
    ensures Alone(c, s, p, CallLock, 3) == State(s.shared.(lock := Pid(p)), s.procs[p := Held])
  {
    var s1 := Alone(c, s, p, CallLock, 1);
    assert s1 == Step(c, Alone(c, s, p, CallLock, 0), p, CallLock);
    var s2 := Alone(c, s, p, CallLock, 2);
    assert s2 == Step(c, s1, p, CallLock);
    assert s1.procs[p := LockCas(0)][p := Held] == s.procs[p := Held];
  }

  /** The tests from spin counter `n` on: one for every doubling below the limit. */
  function Tests(c: Config, n: nat): nat
    decreases c.spin - n
  {
    var next := if n == 0 then 1 else 2 * n;
    if c.ncpu > 1 && next < c.spin then 1 + Tests(c, next) else 1
  }

  /** ... and one that finds it taken at every test, and once more after it has counted
      itself as waiting, sleeps if there is a semaphore. */
  lemma {:induction false} LockSleeps(c: Config, s: State, p: nat, n: nat)
    requires Pid(|s.procs|) < HALF64 && p < |s.procs| && s.procs[p] == LockTest(n) && s.shared.lock != 0 && c.semaphore
    ensures Alone(c, s, p, CallLock, Tests(c, n) + 2)
         == State(s.shared.(wait := Wrap(s.shared.wait + 1)), s.procs[p := Sleep])
    decreases c.spin - n
  {
    var s1 := Step(c, s, p, CallLock);
    AloneNext(c, s, p, CallLock, Tests(c, n) + 1);
    if s1.procs[p].LockTest? {
      LockSleeps(c, s1, p, if n == 0 then 1 else 2 * n);
      assert s1.procs[p := Sleep] == s.procs[p := Sleep];
    } else {
      assert Alone(c, s1, p, CallLock, 0) == s1;
      var s2 := Alone(c, s1, p, CallLock, 1);
      assert s2 == Step(c, s1, p, CallLock);
      assert Alone(c, s1, p, CallLock, 2) == Step(c, s2, p, CallLock);
      assert s1.procs[p := WaitTest][p := Sleep] == s.procs[p := Sleep];
    }
  }

  /** The first of some steps. */
  lemma {:induction false} AloneNext(c: Config, s: State, p: nat, call: Call, k: nat)
    requires Pid(|s.procs|) < HALF64 && p < |s.procs|
    ensures Alone(c, s, p, call, k + 1) == Alone(c, Step(c, s, p, call), p, call, k)
  {
    if k > 0 { AloneNext(c, s, p, call, k - 1); }
  }

  /** Who unlocks frees the lock, and posts the semaphore exactly if somebody is counted as
      waiting, whom it takes off the count. */
  lemma {:induction false} UnlockWakes(c: Config, s: State, p: nat)
    requires Pid(|s.procs|) < HALF64 && p < |s.procs| && s.procs[p].Held? && s.shared.lock == Pid(p)
    ensures var free, idle := s.shared.(lock := 0), s.procs[p := Idle];
      if !c.semaphore then Alone(c, s, p, CallUnlock, 1) == State(free, idle)
      else if Signed(s.shared.wait) <= 0 then Alone(c, s, p, CallUnlock, 2) == State(free, idle)
      else Alone(c, s, p, CallUnlock, 4) == State(free.(wait := Wrap(s.shared.wait - 1), sem := s.shared.sem + 1), idle)
  {
    var s1 := Alone(c, s, p, CallUnlock, 1);
    assert s1 == Step(c, Alone(c, s, p, CallUnlock, 0), p, CallUnlock);
    var s2 := Alone(c, s, p, CallUnlock, 2);
    assert s2 == Step(c, s1, p, CallUnlock);
    var s3 := Alone(c, s, p, CallUnlock, 3);
    assert s3 == Step(c, s2, p, CallUnlock);
    if c.semaphore {
      assert s2.procs == s.procs[p := s2.procs[p]];
      if Signed(s.shared.wait) > 0 { assert s3.procs[p := Idle] == s.procs[p := Idle]; }
    }
  }
}
