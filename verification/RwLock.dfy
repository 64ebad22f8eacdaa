/** The spinning read/write lock of ngx_rwlock.c: one shared word that is 0, a number
    of readers, or the writer mark.  Reads and compare-and-sets are separate steps. */
module RwLock {
  import opened Counting
  import opened Words

  /** NGX_RWLOCK_WLOCK */
  const WLOCK: Word := W64 - 1

  /** What a process does next.  The spin counter only decides how long a process
      pauses before it looks again, so every retry goes back to the read.
      `writer` records what the process that is unlocking had locked. */
  datatype Pc =
    | Idle
    | WriteTest
    | WriteCas
    | ReadTest
    | ReadCas(seen: Word)
    | Writing
    | Reading
    | UnlockRead(writer: bool)             // readers = *lock
    | UnlockStore(writer: bool)            // *lock = 0
    | UnlockCas(writer: bool, seen: Word)  // cmp_set(lock, readers, readers - 1)
    | UnlockAgain(writer: bool)            // readers = *lock, after a failed cmp_set

  datatype Call = CallWriteLock | CallReadLock

  datatype State = State(lock: Word, procs: seq<Pc>)

  function Act(pc: Pc, lock: Word, call: Call): (Pc, Word) {
    match pc
    case Idle => (if call.CallWriteLock? then WriteTest else ReadTest, lock)
    case WriteTest => (if lock == 0 then WriteCas else WriteTest, lock)
    case WriteCas => if lock == 0 then (Writing, WLOCK) else (WriteTest, lock)
    case ReadTest => (if lock != WLOCK then ReadCas(lock) else ReadTest, lock)
    case ReadCas(seen) =>
      if lock == seen then (Reading, Wrap(seen + 1)) else (ReadTest, lock)
    case Writing => (UnlockRead(true), lock)
    case Reading => (UnlockRead(false), lock)
    case UnlockRead(w) => (if lock == WLOCK then UnlockStore(w) else UnlockCas(w, lock), lock)
    case UnlockStore(w) => (Idle, 0)
    case UnlockCas(w, seen) =>
      if lock == seen then (Idle, Wrap(seen - 1)) else (UnlockAgain(w), lock)
    case UnlockAgain(w) => (UnlockCas(w, lock), lock)
  }

  function Step(s: State, p: nat, call: Call): State
    requires p < |s.procs|
  {
    var (pc, lock) := Act(s.procs[p], s.lock, call);
    State(lock, s.procs[p := pc])
  }

  function Init(n: nat): State { State(0, seq(n, i => Idle)) }

  datatype Turn = Turn(p: nat, call: Call)

  function Exec(s: State, schedule: seq<Turn>): (t: State)
    ensures |t.procs| == |s.procs|
  {
    if schedule == [] then s
    else
      var t := Exec(s, schedule[..|schedule| - 1]);
      var turn := schedule[|schedule| - 1];
      if turn.p < |t.procs| then Step(t, turn.p, turn.call) else t
  }

  predicate Unlocking(pc: Pc) { pc.UnlockRead? || pc.UnlockStore? || pc.UnlockCas? || pc.UnlockAgain? }

  /** Holds the lock for writing, up to the store that gives it back. */
  predicate Writer(pc: Pc) {
    pc.Writing? || (Unlocking(pc) && pc.writer)
  }

  /** Holds the lock for reading, up to the decrement that gives it back. */
  predicate Reader(pc: Pc) {
    pc.Reading? || (Unlocking(pc) && !pc.writer)
  }

  /** What a process has remembered agrees with how it got there. */
  predicate Consistent(pc: Pc) {
    && (pc.ReadCas? ==> pc.seen != WLOCK)
    && (pc.UnlockStore? ==> pc.writer)
    && (pc.UnlockCas? || pc.UnlockAgain? ==> !pc.writer)
  }

  /** The word says exactly who holds the lock. */
  ghost predicate Exact(s: State) {
    var writers, readers := Count(s.procs, Writer), Count(s.procs, Reader);
    if s.lock == WLOCK then writers == 1 && readers == 0
    else writers == 0 && readers == s.lock
  }

  ghost predicate Inv(s: State) {
    && |s.procs| < WLOCK
    && Exact(s)
    && forall p :: 0 <= p < |s.procs| ==> Consistent(s.procs[p])
  }

  /** The local law: a step changes the word by what the process gains or gives up. */
  lemma {:induction false} ActExact(pc: Pc, lock: Word, call: Call)
    requires Consistent(pc)
    requires Writer(pc) ==> lock == WLOCK
    requires Reader(pc) ==> 0 < lock < WLOCK
    requires lock != WLOCK && !Reader(pc) ==> lock + 1 < WLOCK
    ensures var (pc', lock') := Act(pc, lock, call);
      && Consistent(pc')
      && (Writer(pc') <==> if Writer(pc) then lock' == WLOCK else lock != WLOCK && lock' == WLOCK)
      && (Writer(pc) && !Writer(pc') ==> lock' == 0)
      && (!Writer(pc) && Writer(pc') ==> lock == 0)
      && (!Writer(pc) && !Writer(pc') && lock != WLOCK ==>
            lock' - lock == (if Reader(pc') then 1 else 0) - (if Reader(pc) then 1 else 0))
      && (!Writer(pc) && lock == WLOCK ==> lock' == WLOCK && !Reader(pc'))
      && (Writer(pc) || Writer(pc') ==> !Reader(pc) && !Reader(pc'))
  {
  }

  /** What the word says to a process about its own hold. */
  lemma {:induction false} Held(s: State, p: nat)
    requires p < |s.procs| && Inv(s)
    ensures Writer(s.procs[p]) ==> s.lock == WLOCK
    ensures Reader(s.procs[p]) ==> 0 < s.lock < WLOCK
    ensures s.lock != WLOCK && !Reader(s.procs[p]) ==> s.lock + 1 < WLOCK
  {
    if Writer(s.procs[p]) { CountPositive(s.procs, p, Writer); }
    if Reader(s.procs[p]) {
      CountPositive(s.procs, p, Reader);
    } else {
      CountUpdate(s.procs, p, Reading, Reader);
      assert Count(s.procs[p := Reading], Reader) <= |s.procs|;
    }
  }

  lemma {:induction false} StepInv(s: State, p: nat, call: Call)
    requires p < |s.procs| && Inv(s)
    ensures Inv(Step(s, p, call))
  {
    var t := Step(s, p, call);
    CountUpdate(s.procs, p, t.procs[p], Writer);
    CountUpdate(s.procs, p, t.procs[p], Reader);
    Held(s, p);
    ActExact(s.procs[p], s.lock, call);
  }

  lemma {:induction false} ExecInv(s: State, schedule: seq<Turn>)
    requires Inv(s)
    ensures Inv(Exec(s, schedule))
  {
    if schedule != [] {
      var t := Exec(s, schedule[..|schedule| - 1]);
      ExecInv(s, schedule[..|schedule| - 1]);
      var turn := schedule[|schedule| - 1];
      if turn.p < |t.procs| { StepInv(t, turn.p, turn.call); }
    }
  }

  /** In every interleaving of fewer processes than the writer mark: the word is the
      mark exactly when one writer and no reader holds the lock, and is the number of
      readers otherwise, so a writer excludes everyone. */
  lemma {:induction false} Safety(n: nat, schedule: seq<Turn>)
    requires n < WLOCK
    ensures var s := Exec(Init(n), schedule);
      && Exact(s)
      && forall p, q :: 0 <= p < n && 0 <= q < n && p != q && Writer(s.procs[p]) ==>
           !Writer(s.procs[q]) && !Reader(s.procs[q])
  {
    CountNone(Init(n).procs, Writer);
    CountNone(Init(n).procs, Reader);
    ExecInv(Init(n), schedule);
    var s := Exec(Init(n), schedule);
    forall p, q | 0 <= p < n && 0 <= q < n && p != q && Writer(s.procs[p])
      ensures !Writer(s.procs[q]) && !Reader(s.procs[q])
    {
      Held(s, p);
      Held(s, q);
      CountUpdate(s.procs, p, Idle, Writer);
      if Writer(s.procs[q]) { CountPositive(s.procs[p := Idle], q, Writer); }
    }
  }

  /** Giving the lock back takes away the caller's own hold and no other: the word
      drops from the mark to 0, or by exactly one reader. */
  lemma {:induction false} UnlockDropsOneHold(n: nat, schedule: seq<Turn>, p: nat, call: Call)
    requires n < WLOCK && p < n
    requires var s := Exec(Init(n), schedule);
      (Writer(s.procs[p]) || Reader(s.procs[p])) && Step(s, p, call).procs[p].Idle?
    ensures var s := Exec(Init(n), schedule); var t := Step(s, p, call);
      && (Writer(s.procs[p]) ==> s.lock == WLOCK && t.lock == 0 && Count(t.procs, Reader) == 0)
      && (Reader(s.procs[p]) ==>
            t.lock == s.lock - 1 && Count(t.procs, Reader) == Count(s.procs, Reader) - 1)
  {
    CountNone(Init(n).procs, Writer);
    CountNone(Init(n).procs, Reader);
    ExecInv(Init(n), schedule);
    var s := Exec(Init(n), schedule);
    StepInv(s, p, call);
    CountUpdate(s.procs, p, Idle, Writer);
    CountUpdate(s.procs, p, Idle, Reader);
    assert Step(s, p, call).procs == s.procs[p := Idle];
    Held(s, p);
    ActExact(s.procs[p], s.lock, call);
  }

  // ---- From every reachable state everyone who waits can still get the lock ----

  ghost predicate Reaches(s: State, t: State) {
    exists schedule :: Exec(s, schedule) == t
  }

  lemma {:induction false} ExecConcat(s: State, a: seq<Turn>, b: seq<Turn>)
    ensures Exec(s, a + b) == Exec(Exec(s, a), b)
  {
    if b == [] {
      assert a + b == a;
    } else {
      assert (a + b)[..|a + b| - 1] == a + b[..|b| - 1];
      ExecConcat(s, a, b[..|b| - 1]);
    }
  }

  lemma {:induction false} ReachesTrans(s: State, t: State, u: State)
    requires Reaches(s, t) && Reaches(t, u)
    ensures Reaches(s, u)
  {
    var a :| Exec(s, a) == t;
    var b :| Exec(t, b) == u;
    ExecConcat(s, a, b);
  }

  lemma {:induction false} ReachesSelf(s: State)
    ensures Reaches(s, s)
  {
    assert Exec(s, []) == s;
  }

  lemma {:induction false} ReachesStep(s: State, p: nat)
    requires p < |s.procs|
    ensures Reaches(s, Step(s, p, CallReadLock))
  {
    assert Exec(s, []) == s;
    assert Exec(s, [Turn(p, CallReadLock)]) == Step(s, p, CallReadLock);
  }

  /** The steps that a holder still has to take, if nobody else moves. */
  function Distance(pc: Pc, lock: Word): nat {
    match pc
    case Writing => 3
    case Reading => 3
    case UnlockRead(_) => 2
    case UnlockStore(_) => 1
    case UnlockCas(_, seen) => if seen == lock then 1 else 3
    case UnlockAgain(_) => 2
    case _ => 0
  }

  predicate Holder(pc: Pc) { Writer(pc) || Reader(pc) }

  /** A holder that runs alone gives the lock back. */
  lemma {:induction false} Release(s: State, p: nat) returns (t: State)
    requires Inv(s) && p < |s.procs| && Holder(s.procs[p])
    ensures Reaches(s, t) && Inv(t) && t.procs == s.procs[p := Idle]
    decreases Distance(s.procs[p], s.lock)
  {
    var u := Step(s, p, CallReadLock);
    ReachesStep(s, p);
    StepInv(s, p, CallReadLock);
    Held(s, p);
    if u.procs[p].Idle? {
      t := u;
    } else {
      t := Release(u, p);
      ReachesTrans(s, u, t);
      assert u.procs[p := Idle] == s.procs[p := Idle];
    }
  }

  /** All holders among the first `k` processes give the lock back. */
  lemma {:induction false} ReleaseAll(s: State, k: nat) returns (t: State)
    requires Inv(s) && k <= |s.procs|
    ensures Reaches(s, t) && Inv(t) && |t.procs| == |s.procs|
    ensures forall q :: 0 <= q < k ==> !Holder(t.procs[q])
    ensures forall q :: 0 <= q < |s.procs| && !Holder(s.procs[q]) ==> t.procs[q] == s.procs[q]
  {
    if k == 0 {
      t := s;
      ReachesSelf(s);
    } else {
      t := ReleaseAll(s, k - 1);
      if Holder(t.procs[k - 1]) {
        var u := Release(t, k - 1);
        ReachesTrans(s, t, u);
        t := u;
      }
    }
  }

  /** The steps that failed tests cost a process that waits, if nobody is in. */
  function Tries(pc: Pc): nat {
    match pc
    case WriteTest => 1
    case ReadTest => 1
    case ReadCas(seen) => if seen == 0 then 0 else 2
    case _ => 0
  }

  /** With nobody in, a process that waits gets the lock by itself. */
  lemma {:induction false} Acquire(s: State, z: nat) returns (t: State)
    requires s.lock == 0 && z < |s.procs| && Waits(s.procs[z])
    ensures Reaches(s, t) && |t.procs| == |s.procs|
    ensures t.procs[z] == if WantsToWrite(s.procs[z]) then Writing else Reading
    decreases Tries(s.procs[z])
  {
    var u := Step(s, z, CallReadLock);
    ReachesStep(s, z);
    if Waits(u.procs[z]) {
      t := Acquire(u, z);
      ReachesTrans(s, u, t);
    } else {
      t := u;
    }
  }

  predicate WantsToWrite(pc: Pc) { pc.WriteTest? || pc.WriteCas? }

  predicate Waits(pc: Pc) { WantsToWrite(pc) || pc.ReadTest? || pc.ReadCas? }

  /** From every reachable state every process that waits can still get the lock it wants. */
  lemma {:induction false} NeverStranded(n: nat, schedule: seq<Turn>, z: nat) returns (t: State)
    requires n < WLOCK && z < n && Waits(Exec(Init(n), schedule).procs[z])
    ensures Reaches(Exec(Init(n), schedule), t) && |t.procs| == n
    ensures t.procs[z] == if WantsToWrite(Exec(Init(n), schedule).procs[z]) then Writing else Reading
  {
    CountNone(Init(n).procs, Writer);
    CountNone(Init(n).procs, Reader);
    ExecInv(Init(n), schedule);
    var s := Exec(Init(n), schedule);
    var u := ReleaseAll(s, n);
    CountNone(u.procs, Writer);
    CountNone(u.procs, Reader);
    t := Acquire(u, z);
    ReachesTrans(s, u, t);
  }

  // ---- What a process does that runs alone ----

  /** Process `p` takes `k` steps, and starts with the call if it is idle. */
  function Alone(s: State, p: nat, call: Call, k: nat): (t: State)
    requires p < |s.procs|
    ensures |t.procs| == |s.procs|
  {
    if k == 0 then s else Step(Alone(s, p, call, k - 1), p, call)
  }

  lemma {:induction false} AloneSteps(s: State, p: nat, call: Call)
    requires p < |s.procs|
    ensures Alone(s, p, call, 1) == Step(s, p, call)
    ensures Alone(s, p, call, 2) == Step(Step(s, p, call), p, call)
    ensures Alone(s, p, call, 3) == Step(Step(Step(s, p, call), p, call), p, call)
  {
    assert Alone(s, p, call, 0) == s;
    assert Alone(s, p, call, 1) == Step(s, p, call);
    assert Alone(s, p, call, 2) == Step(Alone(s, p, call, 1), p, call);
  }

  /** A reader gets in while any number of others read ... */
  lemma {:induction false} ReaderJoins(s: State, p: nat)
    requires p < |s.procs| && s.procs[p].Idle? && s.lock + 1 < WLOCK
    ensures Alone(s, p, CallReadLock, 3) == State(s.lock + 1, s.procs[p := Reading])
  {
    AloneSteps(s, p, CallReadLock);
    assert s.procs[p := ReadTest][p := ReadCas(s.lock)][p := Reading] == s.procs[p := Reading];
  }

  /** ... and not while one writes. */
  lemma {:induction false} ReaderWaits(s: State, p: nat)
    requires p < |s.procs| && s.procs[p].ReadTest? && s.lock == WLOCK
    ensures Step(s, p, CallReadLock) == s
  {
    assert s.procs[p := ReadTest] == s.procs;
  }

  /** A writer gets in if nobody is in, and waits otherwise. */
  lemma {:induction false} WriterAlone(s: State, p: nat)
    requires p < |s.procs| && s.procs[p].Idle?
    ensures s.lock == 0 ==> Alone(s, p, CallWriteLock, 3) == State(WLOCK, s.procs[p := Writing])
    ensures s.lock != 0 ==> Alone(s, p, CallWriteLock, 2) == State(s.lock, s.procs[p := WriteTest])
  {
    AloneSteps(s, p, CallWriteLock);
    assert s.procs[p := WriteTest][p := WriteTest] == s.procs[p := WriteTest];
    assert s.procs[p := WriteTest][p := WriteCas][p := Writing] == s.procs[p := Writing];
  }

  /** Who unlocks alone is out after three steps. */
  lemma {:induction false} UnlockAlone(s: State, p: nat, call: Call)
    requires p < |s.procs| && s.lock > 0
    requires s.procs[p] == if s.lock == WLOCK then Writing else Reading
    ensures Alone(s, p, call, 3) == State(if s.lock == WLOCK then 0 else s.lock - 1, s.procs[p := Idle])
  {
    AloneSteps(s, p, call);
    var s2 := Alone(s, p, call, 2);
    assert s2.procs[p := Idle] == s.procs[p := Idle];
  }
}
