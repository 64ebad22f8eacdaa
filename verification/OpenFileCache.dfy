/** The open file cache of ngx_open_file_cache.c. */
module OpenFileCache {
  import opened FileState
  import opened FileMoves

  /** What the system answers when a file is opened, or looked at under a name for which a
      descriptor is known: it fails; the number is that of the file that is open, and it is
      the same file as before, or a directory now; it is a directory; or it is a file,
      opened anew. */
  datatype Answer = Failed(err: nat) | Same | SameDirectory | Directory(uniq: nat) | Opened(fd: int, uniq: nat)

  /** What `ngx_open_and_stat_file` leaves in its argument. */
  datatype Seen = Seen(ok: bool, fd: int, err: nat, isDir: bool, uniq: nat)

  function Look(fd: int, uniq: nat, answer: Answer): Seen {
    match answer
    case Failed(err) => Seen(false, INVALID, err, false, uniq)
    case Same => Seen(true, fd, 0, false, uniq)
    case SameDirectory => Seen(true, fd, 0, true, uniq)
    case Directory(u) => Seen(true, INVALID, 0, true, u)
    case Opened(new_fd, u) => Seen(true, new_fd, 0, false, u)
  }

  /** The part of ngx_open_file_info_t that is an input. */
  datatype Request = Request(uniq: nat, valid: int, errors: bool, minUses: nat)

  datatype Reply = Ok(fd: int, isDir: bool) | Error(err: nat)

  function Place(q: seq<nat>, id: nat): (i: nat)
    requires id in q
    ensures i < |q| && q[i] == id
  {
    if q[0] == id then 0 else 1 + Place(q[1..], id)
  }

  /** The file after `update:`. */
  function Updated(f: File, seen: Seen, now: int): File {
    var g := f.(fd := seen.fd, err := seen.err, created := now, accessed := now);
    if seen.err != 0 then g
    else g.(uniq := seen.uniq, close := false, isDir := seen.isDir, count := if seen.isDir then f.count
      else f.count + 1)
  }

  /** What a caller gets, and whether the name is in the cache afterwards. */
  datatype Decision = Decision(reply: Reply, cached: bool)

  /** The decision once the system has been asked; `room` says whether a new file, if one
      is needed, can be had. */
  function Decide(want: Request, seen: Seen, room: bool): Decision {
    if !seen.ok && (seen.err == 0 || !want.errors) then Decision(Error(seen.err), false)
    else if !room then Decision(Error(seen.err), false)
    else Decision(if seen.err == 0 then Ok(seen.fd, seen.isDir) else Error(seen.err), true)
  }

  /** A file in the cache can be used without asking the system. */
  predicate Fresh(f: File, want: Request, now: int) {
    (f.fd != INVALID || f.err != 0 || f.isDir) && (want.uniq == 0 || want.uniq == f.uniq)
      && now - f.created < want.valid
  }

  /** An open file is not what is there any more. */
  predicate Changed(f: File, seen: Seen) {
    !f.isDir && f.err == 0 && f.fd != INVALID && !(seen.err == 0 && !seen.isDir && seen.uniq == f.uniq)
  }

  // ---- Looking again at a file that is open ----

  /** Descriptors that the system hands out are not in use. */
  predicate NewFd(open: set<int>, answer: Answer) {
    answer.Opened? ==> answer.fd > INVALID && answer.fd !in open
  }

  /** The answer does not carry the number of the open file, unless it is that file. */
  predicate Steady(uniq: nat, answer: Answer) {
    !answer.SameDirectory? && (answer.Opened? ==> answer.uniq != uniq)
  }

  /** File `x` is open, and out of the queue while it is worked on. */
  ghost predicate OpenAt(s: State, x: nat) {
    x in s.files && s.files[x].err == 0 && !s.files[x].isDir && s.files[x].fd != INVALID && !s.files[x].close
  }

  ghost function HoldersAfter(s: State, seen: Seen, id: nat, minUses: nat): seq<Holder> {
    if seen.err == 0 && !seen.isDir then s.holders + [Holder(id, seen.fd, minUses)] else s.holders
  }

  /** The state after an open file `x` was looked at again: it is updated if it is the same
      or nobody holds it, and otherwise left to those who do, with a new file `n`. */
  ghost function After(s: State, x: nat, answer: Answer, n: nat, junk: bool, minUses: nat, now: int): State
    requires x in s.files
  {
    var f := s.files[x];
    var seen := Look(f.fd, f.uniq, answer);
    var open' := s.open + if answer.Opened? then {answer.fd} else {};
    if !Changed(f, seen) then Put(s, x, Updated(f, seen, now), open', HoldersAfter(s, seen, x, minUses))
    else if f.count == 0 then Put(s, x, Updated(f, seen, now), open' - {f.fd}, HoldersAfter(s, seen, x, minUses))
    else
      var g := NewFile(f.name, now, junk);
      Put(Added(Left(s, x), n, g), n, Updated(g, seen, now), open', HoldersAfter(s, seen, n, minUses))
  }

  function NewFile(name: Name, now: int, junk: bool): File {
    File(name, now, now, INVALID, 0, 0, 1, 0, junk, junk)
  }

  /** Where the system opens the very file that is open already - it was moved away and back
      between the two questions - the old descriptor stays open and no file has it, and
      those who hold the file hold a descriptor that is not its own. */
  lemma {:induction false} LostDescriptor(s: State, x: nat, clock: int, answer: Answer, n: nat, junk: bool,
      minUses: nat, now: int)
    requires Inv(s, x, clock) && OpenAt(s, x) && NewFd(s.open, answer)
    requires answer.Opened? && answer.uniq == s.files[x].uniq
    ensures var f, s' := s.files[x], After(s, x, answer, n, junk, minUses, now);
      && f.fd in s'.open && !Owned(s', f.fd) && !Files(s', NOBODY)
      && forall k :: 0 <= k < |s.holders| && s.holders[k].file == x ==> s'.holders[k].fd != s'.files[x].fd
  {
    var f, s' := s.files[x], After(s, x, answer, n, junk, minUses, now);
    assert FileAt(s, x, x);
    forall id | id in s.files && id != x ensures s.files[id].fd != f.fd { assert FdsApart(s, x, id); }
    forall k | 0 <= k < |s.holders| && s.holders[k].file == x ensures s'.holders[k].fd != s'.files[x].fd {
      assert HeldAt(s, k);
    }
    assert s'.open == s.open + {answer.fd} && !Owned(s', f.fd);
  }

  /** Where a directory has taken over the number of the open file, it is recorded with the
      descriptor of the file: one that has just been closed, or one that others hold. */
  lemma {:induction false} StaleDescriptor(s: State, x: nat, clock: int, n: nat, junk: bool, minUses: nat, now: int)
    requires Inv(s, x, clock) && OpenAt(s, x) && n !in s.files
    ensures var f, s' := s.files[x], After(s, x, SameDirectory, n, junk, minUses, now);
      && !Files(s', NOBODY)
      && (f.count == 0 ==> s'.files[x].isDir && s'.files[x].fd == f.fd && f.fd !in s'.open)
      && (f.count > 0 ==>
        n in s'.files && x in s'.files && s'.files[n].isDir
        && s'.files[n].fd == s'.files[x].fd == f.fd)
  {
    var f, s' := s.files[x], After(s, x, SameDirectory, n, junk, minUses, now);
    var id := if f.count == 0 then x else n;
    assert s'.files[id].isDir && s'.files[id].fd == f.fd;
    assert !FileAt(s', NOBODY, id);
  }

  /** What a call that does not succeed leaves of file `x`. */
  ghost function Dropped(s: State, x: nat): State
    requires x in s.files
  {
    if s.files[x].count > 0 then Left(s, x) else Freed(s, x)
  }

  /** The system fails, and the failure is not to be recorded. */
  predicate Fails(want: Request, seen: Seen) { !seen.ok && (seen.err == 0 || !want.errors) }

  /** The state after file `x` was looked at again, whatever the system answers and whether
      or not there is memory for a new file. */
  ghost function Outcome(s: State, x: nat, want: Request, answer: Answer, memory: bool, n: nat, junk: bool,
      now: int): State
    requires x in s.files
  {
    var f := s.files[x];
    var seen := Look(f.fd, f.uniq, answer);
    var open' := s.open + if answer.Opened? then {answer.fd} else {};
    if Fails(want, seen) then Dropped(s, x)
    else if Changed(f, seen) && f.count > 0 && !memory then Left(s, x).(open := open' - {seen.fd})
    else After(s, x, answer, n, junk, want.minUses, now)
  }

  /** What looking again at a file comes to. */
  function LookedAt(f: File, want: Request, answer: Answer, memory: bool): Decision {
    var seen := Look(f.fd, f.uniq, answer);
    Decide(want, seen, memory || !(Changed(f, seen) && f.count > 0))
  }

  /** Where there is no memory for the directory, the descriptor is closed that others hold. */
  lemma {:induction false} ClosedDescriptor(s: State, x: nat, clock: int, want: Request, n: nat, junk: bool, now: int)
    requires Inv(s, x, clock) && OpenAt(s, x) && s.files[x].count > 0
    ensures var s' := Outcome(s, x, want, SameDirectory, false, n, junk, now);
      && !Files(s', NOBODY) && s'.holders == s.holders
      && forall k :: 0 <= k < |s.holders| && s.holders[k].file == x ==> s.holders[k].fd !in s'.open
  {
    var s' := Outcome(s, x, want, SameDirectory, false, n, junk, now);
    assert FileAt(s, x, x);
    assert !FileAt(s', NOBODY, x);
    forall k | 0 <= k < |s.holders| && s.holders[k].file == x ensures s.holders[k].fd !in s'.open {
      assert HeldAt(s, k);
    }
  }

  /** What the system can answer about file `x`. */
  ghost predicate Answers(s: State, x: nat, answer: Answer)
    requires x in s.files
  {
    NewFd(s.open, answer) && (answer.Same? || answer.SameDirectory? ==> s.files[x].fd != INVALID)
  }

  /** Files are in order afterwards exactly if the answer is steady, or no descriptor was
      known. */
  lemma {:induction false} SteadyExact(s: State, x: nat, clock: int, want: Request, answer: Answer, memory: bool,
      n: nat,
      junk: bool, now: int)
    requires Inv(s, x, clock) && x in s.files && (s.files[x].err == 0 ==> !s.files[x].close) && Answers(s, x, answer)
    requires clock <= now && n !in s.files
    ensures Files(Outcome(s, x, want, answer, memory, n, junk, now), NOBODY) <==>
      (s.files[x].fd != INVALID ==> Steady(s.files[x].uniq, answer))
  {
    assert FileAt(s, x, x);
    if s.files[x].fd == INVALID || Steady(s.files[x].uniq, answer) {
      SteadyKept(s, x, clock, want, answer, memory, n, junk, now);
    } else if answer.SameDirectory? {
      if s.files[x].count > 0 && !memory {
        ClosedDescriptor(s, x, clock, want, n, junk, now);
      } else {
        StaleDescriptor(s, x, clock, n, junk, want.minUses, now);
      }
    } else {
      LostDescriptor(s, x, clock, answer, n, junk, want.minUses, now);
    }
  }

  /** When the last answer was given. */
  function ClockAfter(s: State, x: nat, want: Request, answer: Answer, memory: bool, clock: int, now: int): int
    requires x in s.files
  {
    var f := s.files[x];
    var seen := Look(f.fd, f.uniq, answer);
    if Fails(want, seen) || (Changed(f, seen) && f.count > 0 && !memory) then clock else now
  }

  lemma {:induction false} SteadyKept(s: State, x: nat, clock: int, want: Request, answer: Answer, memory: bool, n: nat,
      junk: bool, now: int)
    requires Inv(s, x, clock) && x in s.files && Answers(s, x, answer) && clock <= now && n !in s.files
    requires s.files[x].fd != INVALID ==> Steady(s.files[x].uniq, answer)
    ensures Inv(Outcome(s, x, want, answer, memory, n, junk, now), NOBODY,
                ClockAfter(s, x, want, answer, memory, clock, now))
  {
    var f := s.files[x];
    var seen := Look(f.fd, f.uniq, answer);
    assert FileAt(s, x, x);
    NoInvalid(s, x);
    if Fails(want, seen) {
      if f.count > 0 { LeftInv(s, x, clock); } else { FreedInv(s, x, clock); }
    } else if Changed(f, seen) && f.count > 0 && !memory {
      LeftInv(s, x, clock);
      assert Left(s, x).(open := s.open) == Left(s, x);
      assert (s.open + if answer.Opened? then {answer.fd} else {}) - {seen.fd} == s.open;
    } else {
      AfterKept(s, x, clock, answer, n, junk, want.minUses, now);
    }
  }

  lemma {:induction false} AfterKept(s: State, x: nat, clock: int, answer: Answer, n: nat, junk: bool, minUses: nat,
      now: int)
    requires Inv(s, x, clock) && x in s.files && Answers(s, x, answer) && clock <= now && n !in s.files
    requires (s.files[x].fd != INVALID ==> Steady(s.files[x].uniq, answer)) && (answer.Failed? ==> answer.err != 0)
    ensures Inv(After(s, x, answer, n, junk, minUses, now), NOBODY, now)
  {
    var f := s.files[x];
    var seen := Look(f.fd, f.uniq, answer);
    assert FileAt(s, x, x);
    NoInvalid(s, x);
    var s' := After(s, x, answer, n, junk, minUses, now);
    if Changed(f, seen) && f.count > 0 {
      var g := NewFile(f.name, now, junk);
      LeftInv(s, x, clock);
      AddedInv(Left(s, x), n, g, clock);
      PutInv(Added(Left(s, x), n, g), n, Updated(g, seen, now), s'.open, s'.holders, clock, now);
    } else {
      PutInv(s, x, Updated(f, seen, now), s'.open, s'.holders, clock, now);
    }
  }

  // ---- What a caller sees, in the fields of a file ----

  /** The system is asked about a file that is known. */
  predicate Asked(f: File, want: Request, now: int) {
    || (f.fd == INVALID && f.err == 0 && !f.isDir)
    || (want.uniq != 0 && want.uniq != f.uniq)
    || now >= f.created + want.valid
  }

  /** A new file is needed, since somebody holds the one that is known, and it has changed. */
  predicate NeedsNew(f: File, answer: Answer) {
    f.count > 0 && !answer.Same? && !(answer.Opened? && answer.uniq == f.uniq)
  }

  /** The reply once the system was asked. */
  predicate RightReply(f: File, answer: Answer, room: bool, r: Reply) {
    match answer
    case Failed(err) => r == Error(err)
    case Same => r == Ok(f.fd, false)
    case SameDirectory => r == if room then Ok(f.fd, true) else Error(0)
    case Directory(_) => r == if room then Ok(INVALID, true) else Error(0)
    case Opened(fd, _) => r == if room then Ok(fd, false) else Error(0)
  }

  /** What is recorded then is what was answered, and that it was asked for now. */
  predicate RightRecord(g: File, f: File, answer: Answer, now: int) {
    && g.created == now && g.accessed == now
    && match answer
       case Failed(err) => g.err == err && g.fd == INVALID
       case Same => g.err == 0 && !g.isDir && g.fd == f.fd && g.uniq == f.uniq
       case SameDirectory => g.err == 0 && g.isDir && g.fd == f.fd && g.uniq == f.uniq
       case Directory(uniq) => g.err == 0 && g.isDir && g.fd == INVALID && g.uniq == uniq
       case Opened(fd, uniq) => g.err == 0 && !g.isDir && g.fd == fd && g.uniq == uniq
  }

  class Cache {
    var files: map<nat, File>
    var tree: map<Name, nat>
    var queue: seq<nat>
    var current: nat
    const max: nat
    const inactive: int

    /** The descriptors that are open, and the cleanups that are to run. */
    var open: set<int>
    var holders: seq<Holder>

    var nextId: nat
    ghost var clock: int

    ghost function Whole(): State
      reads this
    {
      State(files, tree, queue, open, holders)
    }

    /** The state, apart from a descriptor that no file has yet. */
    ghost function ViewBut(fd: int): State
      reads this
    {
      State(files, tree, queue, open - {fd}, holders)
    }

    /** In order, apart from a file `x` that is being worked on and a descriptor `fd` that
        no file has yet. */
    ghost predicate Working(x: int, fd: int)
      reads this
    {
      && Inv(ViewBut(fd), x, clock) && (fd != INVALID ==> fd in open) && INVALID !in open
      && current == |queue| + (if x == NOBODY then 0 else 1) && current <= max && max >= 1
      && forall id :: id in files ==> id < nextId
    }

    ghost predicate Valid()
      reads this
    {
      Working(NOBODY, INVALID)
    }

    /** `ngx_open_file_cache_init` */
    constructor (max: nat, inactive: int)
      requires max >= 1
      ensures Valid() && files == map[] && queue == [] && open == {} && holders == []
      ensures this.max == max && this.inactive == inactive
    {
      files, tree, queue, current := map[], map[], [], 0;
      this.max, this.inactive := max, inactive;
      open, holders, nextId, clock := {}, [], 0, 0;
    }

    /** close(): only a descriptor that is open may be closed. */
    method CloseFd(fd: int)
      requires fd in open
      modifies this`open
      ensures open == old(open) - {fd}
    {
      open := open - {fd};
    }

    /** The end of `ngx_close_cached_file` for a file that has left the cache. */
    method CloseGone(id: nat)
      requires id in files && files[id].close && (files[id].fd != INVALID ==> files[id].fd in open) && INVALID !in open
      modifies this`files, this`open
      ensures old(files[id].count) > 0 ==> files == old(files) && open == old(open)
      ensures old(files[id].count) == 0 ==> files == old(files) - {id} && open == old(open) - {old(files[id].fd)}
    {
      if files[id].count > 0 { return; }
      if files[id].fd != INVALID {
        CloseFd(files[id].fd);
      }
      files := files - {id};
    }

    /** A file that is out of the queue leaves the tree too: it is freed, or left to those
        who hold it. */
    method Leave(id: nat, ghost fd: int)
      requires Working(id, fd) && id in files
      modifies this
      ensures Working(NOBODY, fd) && clock == old(clock) && current == old(current) - 1
      ensures ViewBut(fd) == if old(files)[id].count > 0 then Left(old(ViewBut(fd)), id)
        else Freed(old(ViewBut(fd)), id)
      ensures open <= old(open)
    {
      ghost var s := ViewBut(fd);
      ghost var t := if files[id].count > 0 then Left(s, id) else Freed(s, id);
      assert FileAt(s, id, id);
      if files[id].count > 0 { LeftInv(s, id, clock); } else { FreedInv(s, id, clock); }
      tree := tree - {files[id].name};
      current := current - 1;
      if files[id].err == 0 && !files[id].isDir {
        files := files[id := files[id].(close := true)];
        CloseGone(id);
      } else {
        files := files - {id};
      }
      assert ViewBut(fd).open == t.open && ViewBut(fd).files == t.files;
    }

    /** The last file of the queue leaves the cache. */
    method Evict(ghost fd: int)
      requires Working(NOBODY, fd) && queue != []
      modifies this
      ensures Working(NOBODY, fd) && clock == old(clock) && queue == old(queue)[..|old(queue)| - 1]
      ensures holders == old(holders) && tree.Keys <= old(tree).Keys
      ensures forall id :: id in old(files) && id != old(queue)[|old(queue)| - 1] ==>
        id in files && files[id] == old(files)[id]
      ensures open <= old(open)
    {
      ghost var s := ViewBut(fd);
      var file := queue[|queue| - 1];
      PopInv(s, |queue| - 1, clock);
      assert Without(queue, |queue| - 1) == queue[..|queue| - 1];
      QueuedIsFile(s, NOBODY, file);
      queue := queue[..|queue| - 1];
      Leave(file, fd);
    }

    /** The files that were in the queue and are not any more were not used for too long, but
        for the last one if it went by force. */
    ghost predicate GoneInactive(before: map<nat, File>, was: seq<nat>, n0: nat, now: int)
      reads this
    {
      forall i :: |queue| <= i < |was| && !(n0 == 0 && i == |was| - 1) ==>
        was[i] in before && now - before[was[i]].accessed > inactive
    }

    /** The files that are in the queue are as before ... */
    ghost predicate QueueKept(before: map<nat, File>)
      reads this
    {
      forall i :: 0 <= i < |queue| ==> queue[i] in before && queue[i] in files && files[queue[i]] == before[queue[i]]
    }

    /** ... and so are those that were not. */
    ghost predicate OthersKept(before: map<nat, File>, was: seq<nat>)
      reads this
    {
      forall id :: id in before && id !in was ==> id in files && files[id] == before[id]
    }

    /** One more file goes. */
    method EvictLast(ghost n0: nat, ghost now: int, ghost fd: int, ghost before: map<nat, File>, ghost was: seq<nat>)
      requires Working(NOBODY, fd) && queue != [] && |queue| <= |was| && queue == was[..|queue|]
      requires QueueKept(before) && OthersKept(before, was) && GoneInactive(before, was, n0, now)
      requires (n0 == 0 && |queue| == |was|) || now - files[queue[|queue| - 1]].accessed > inactive
      modifies this
      ensures Working(NOBODY, fd) && clock == old(clock) && holders == old(holders) && tree.Keys <= old(tree).Keys
      ensures |queue| == |old(queue)| - 1 && queue == was[..|queue|] && open <= old(open)
      ensures QueueKept(before) && OthersKept(before, was) && GoneInactive(before, was, n0, now)
    {
      QueueApart(fd);
      assert queue[|queue| - 1] in was;
      Evict(fd);
    }

    /** `ngx_expire_old_cached_files`: the least recently used file goes by force if `n0` is
        0, and up to two files that were not used for too long. */
    method Expire(n0: nat, now: int, ghost fd: int)
      requires Working(NOBODY, fd) && n0 <= 1
      modifies this
      ensures Working(NOBODY, fd) && clock == old(clock) && holders == old(holders) && tree.Keys <= old(tree).Keys
      ensures |queue| <= |old(queue)| <= |queue| + 3 - n0 && queue == old(queue)[..|queue|]
      ensures n0 == 0 && old(queue) != [] ==> |queue| < |old(queue)|
      ensures GoneInactive(old(files), old(queue), n0, now)
      ensures QueueKept(old(files))
      ensures queue != [] && |queue| > |old(queue)| - (3 - n0) ==> now - files[queue[|queue| - 1]].accessed <= inactive
      ensures open <= old(open) && OthersKept(old(files), old(queue))
    {
      var n := n0;
      QueueKnown(fd);
      while n < 3
        invariant n0 <= n && Working(NOBODY, fd) && clock == old(clock) && holders == old(holders)
        invariant tree.Keys <= old(tree).Keys
        invariant |queue| == |old(queue)| - (n - n0) && queue == old(queue)[..|queue|]
        invariant GoneInactive(old(files), old(queue), n0, now)
        invariant QueueKept(old(files)) && open <= old(open) && OthersKept(old(files), old(queue))
      {
        if queue == [] { return; }
        var file := queue[|queue| - 1];
        n := n + 1;
        if n - 1 != 0 && now - files[file].accessed <= inactive { return; }
        EvictLast(n0, now, fd, old(files), old(queue));
      }
    }

    lemma {:induction false} QueueKnown(fd: int)
      requires Working(NOBODY, fd)
      ensures forall i :: 0 <= i < |queue| ==> queue[i] in files
    {
      forall i | 0 <= i < |queue| ensures queue[i] in files { QueuedIsFile(ViewBut(fd), NOBODY, queue[i]); }
    }

    lemma {:induction false} QueueApart(fd: int)
      requires Working(NOBODY, fd) && queue != []
      ensures forall i :: 0 <= i < |queue| - 1 ==> queue[i] != queue[|queue| - 1]
    {
      forall i | 0 <= i < |queue| - 1 ensures queue[i] != queue[|queue| - 1] {
        assert Apart(ViewBut(fd).queue, i, |queue| - 1);
      }
    }

    // ---- Opening ----

    /** `found:` and what follows: the file goes to the head of the queue, and a cleanup is
        registered if a descriptor was handed out. */
    method Finish(id: nat, f: File, hold: bool, minUses: nat, now: int, ghost s: State)
      requires Inv(s, id, clock) && clock <= now && id in s.files && s == State(files, tree, queue, s.open, holders)
      requires PutOk(s, id, f, open, if hold then holders + [Holder(id, f.fd, minUses)] else holders, now)
      requires current == |queue| + 1 && current <= max && INVALID !in open && forall i :: i in files ==> i < nextId
      modifies this
      ensures Valid() && clock == now && files == old(files)[id := f] && queue == [id] + old(queue)
      ensures tree == old(tree) && open == old(open)
      ensures holders == if hold then old(holders) + [Holder(id, f.fd, minUses)] else old(holders)
    {
      PutInv(s, id, f, open, if hold then holders + [Holder(id, f.fd, minUses)] else holders, clock, now);
      files := files[id := f];
      queue := [id] + queue;
      if hold { holders := holders + [Holder(id, f.fd, minUses)]; }
      clock := now;
      assert open - {INVALID} == open;
    }

    /** `update:`: the file takes what was seen. */
    method Update(id: nat, seen: Seen, minUses: nat, now: int) returns (r: Reply)
      requires id in files
      modifies this`files, this`queue, this`holders, this`clock
      ensures Whole() == old(Put(Whole(), id, Updated(files[id], seen, now), open,
        HoldersAfter(Whole(), seen, id, minUses)))
      ensures clock == now && r == if seen.err == 0 then Ok(seen.fd, seen.isDir) else Error(seen.err)
    {
      files := files[id := Updated(files[id], seen, now)];
      queue := [id] + queue;
      if seen.err == 0 && !seen.isDir { holders := holders + [Holder(id, seen.fd, minUses)]; }
      clock := now;
      r := if seen.err == 0 then Ok(seen.fd, seen.isDir) else Error(seen.err);
    }

    /** `ngx_open_and_stat_file`, given what the system answers. */
    method OpenAndStat(fd: int, uniq: nat, answer: Answer) returns (seen: Seen)
      modifies this`open
      ensures seen == Look(fd, uniq, answer) && open == old(open) + (if answer.Opened? then {answer.fd} else {})
    {
      if answer.Opened? { open := open + {answer.fd}; }
      seen := Look(fd, uniq, answer);
    }

    /** No file is gone or changed. */
    ghost predicate KeepsAll(before: map<nat, File>)
      reads this
    {
      forall id :: id in before ==> id in files && files[id] == before[id]
    }

    /** `create:`: a new file for what was seen, after making room for it. */
    method Create(name: Name, seen: Seen, minUses: nat, now: int, memory: bool, junk: bool) returns (r: Reply)
      requires Working(NOBODY, seen.fd) && clock <= now && name !in tree
      requires seen.err != 0 || seen.isDir ==> seen.fd == INVALID
      requires seen.err == 0 && !seen.isDir ==> seen.fd > INVALID
      modifies this
      ensures Valid() && clock <= now
      ensures r == if seen.err == 0 && memory then Ok(seen.fd, seen.isDir) else Error(seen.err)
      ensures Recorded(name, Decision(r, memory), now)
      ensures holders == if r.Ok? && !r.isDir then old(holders) + [Holder(queue[0], seen.fd, minUses)] else old(holders)
      ensures memory ==> files[queue[0]] == Updated(NewFile(name, now, junk), seen, now)
      ensures old(current) < max ==> KeepsAll(old(files))
    {
      if current >= max { Expire(0, now, seen.fd); }
      ghost var s, id, f := ViewBut(seen.fd), nextId, NewFile(name, now, junk);
      r := CreateFile(name, seen, minUses, now, memory, junk);
      if memory {
        AddedInv(s, id, f, old(clock));
        ghost var g, hs := Updated(f, seen, now), HoldersAfter(s, seen, id, minUses);
        PutInv(Added(s, id, f), id, g, open, hs, old(clock), now);
        assert Whole() == Put(Added(s, id, f), id, g, open, hs);
        assert ViewBut(INVALID) == Whole();
      } else {
        assert ViewBut(INVALID) == s;
      }
    }

    /** The new file itself, if there is memory for it. */
    method CreateFile(name: Name, seen: Seen, minUses: nat, now: int, memory: bool, junk: bool) returns (r: Reply)
      requires seen.fd != INVALID ==> seen.fd in open
      modifies this
      ensures r == if seen.err == 0 && memory then Ok(seen.fd, seen.isDir) else Error(seen.err)
      ensures !memory ==>
        Whole() == old(Whole()).(open := old(open) - if seen.fd == INVALID then {} else {seen.fd})
      ensures !memory ==> current == old(current) && clock == old(clock) && nextId == old(nextId)
      ensures memory ==> current == old(current) + 1 && clock == now && nextId == old(nextId) + 1
      ensures memory ==>
        var s, f := old(Whole()), NewFile(name, now, junk);
        Whole() == Put(Added(s, old(nextId), f), old(nextId), Updated(f, seen, now), s.open,
                       HoldersAfter(s, seen, old(nextId), minUses))
    {
      if !memory {
        if seen.fd != INVALID { CloseFd(seen.fd); }
        return Error(seen.err);
      }
      var id := nextId;
      nextId := nextId + 1;
      files := files[id := NewFile(name, now, junk)];
      tree := tree[name := id];
      current := current + 1;
      r := Update(id, seen, minUses, now);
    }

    /** A file that is found leaves the queue while it is worked on. */
    method TakeOut(file: nat)
      requires Valid() && file in queue && file in files
      modifies this`files, this`queue
      ensures Working(file, INVALID) && file !in queue
      ensures files == old(files)[file := old(files)[file].(uses := old(files)[file].uses + 1)]
      ensures files[file].err == 0 ==> !files[file].close
    {
      ghost var s := ViewBut(INVALID);
      assert FileAt(s, NOBODY, file);
      var i := Place(queue, file);
      PopInv(s, i, clock);
      UsesInv(Popped(s, i), file, files[file].uses + 1, clock);
      files := files[file := files[file].(uses := files[file].uses + 1)];
      queue := queue[..i] + queue[i + 1..];
    }

    /** A file that was found is as good as when it was last looked at. */
    method Found(file: nat, minUses: nat, now: int) returns (r: Reply)
      requires Working(file, INVALID) && file in files && clock <= now && (files[file].err == 0 ==> !files[file].close)
      requires files[file].err != 0 || files[file].isDir || files[file].fd != INVALID
      modifies this
      ensures Valid() && clock == now && tree == old(tree) && queue == [file] + old(queue)
      ensures var f := old(files)[file]; r == if f.err == 0 then Ok(f.fd, f.isDir) else Error(f.err)
      ensures file in files && files[file].(accessed := 0, count := 0) == old(files)[file].(accessed := 0, count := 0)
        && files[file].accessed == now
      ensures holders == if r.Ok? && !r.isDir then old(holders) + [Holder(file, r.fd, minUses)] else old(holders)
    {
      ghost var s := ViewBut(INVALID);
      assert FileAt(s, file, file);
      assert s.open == open;
      var f := files[file];
      if f.err == 0 {
        r := Ok(f.fd, f.isDir);
        if !f.isDir {
          Finish(file, f.(accessed := now, count := f.count + 1), true, minUses, now, s);
          return;
        }
      } else {
        r := Error(f.err);
      }
      Finish(file, f.(accessed := now), false, minUses, now, s);
    }

    /** A file that changed while somebody uses it is left to them. */
    method Abandon(file: nat)
      requires file in files && current > 0
      modifies this`files, this`tree, this`current
      ensures Whole() == Left(old(Whole()), file) && current == old(current) - 1
    {
      tree := tree - {files[file].name};
      current := current - 1;
      files := files[file := files[file].(close := true)];
    }

    /** A descriptor is known for the name. */
    ghost predicate Known(name: Name)
      reads this
    {
      name in tree && tree[name] in files && files[tree[name]].fd != INVALID
    }

    /** What the system may answer: a descriptor that is not in use; that the number is the
        same only if a descriptor is known. */
    ghost predicate Possible(name: Name, answer: Answer)
      reads this
    {
      NewFd(open, answer) && (answer.Same? || answer.SameDirectory? ==> Known(name))
    }

    /** If the descriptor that is known has to be looked at again, the answer is steady. */
    ghost predicate Trusted(name: Name, want: Request, now: int, answer: Answer)
      reads this
    {
      Known(name) && !Fresh(files[tree[name]], want, now) ==> Steady(files[tree[name]].uniq, answer)
    }

    /** What a call for `name` comes to. */
    ghost function Expected(name: Name, want: Request, now: int, answer: Answer, memory: bool): Decision
      reads this
    {
      if name in tree && tree[name] in files then
        var f := files[tree[name]];
        if Fresh(f, want, now) then Decision(if f.err == 0 then Ok(f.fd, f.isDir) else Error(f.err), true)
        else LookedAt(f, want, answer, memory)
      else Decide(want, Look(INVALID, want.uniq, answer), memory)
    }

    /** A cleanup is registered exactly if a descriptor is handed out. */
    ghost predicate Registered(before: seq<Holder>, r: Reply, want: Request)
      reads this
    {
      if r.Ok? && !r.isDir then queue != [] && holders == before + [Holder(queue[0], r.fd, want.minUses)]
      else holders == before
    }

    /** The name is at the head of the queue, with what the reply says, or gone. */
    ghost predicate Recorded(name: Name, d: Decision, now: int)
      reads this
    {
      if d.cached then
        && queue != [] && name in tree && tree[name] == queue[0] && queue[0] in files
        && var f := files[queue[0]];
        f.accessed == now && (if d.reply.Ok? then f.err == 0 && f.fd == d.reply.fd && f.isDir == d.reply.isDir
          else f.err == d.reply.err)
      else name !in tree
    }

    /** The file of a name; for a name that is not there, one that says nothing. */
    ghost function Named(name: Name): File
      reads this
    {
      if name in tree && tree[name] in files then files[tree[name]] else NewFile(name, 0, false)
    }

    /** The file at the head of the queue is that of the name. */
    ghost predicate AtHead(name: Name)
      reads this
    {
      queue != [] && name in tree && tree[name] == queue[0] && queue[0] in files
    }

    /** What the caller gets for a name whose file was `f`, and what is recorded: without
        asking, what is known; otherwise what the system answers, where it is recorded
        unless it is a failure that is not to be, or there is no room for a new file. */
    ghost predicate Serves(name: Name, f: File, unknown: bool, want: Request, now: int, answer: Answer, memory: bool,
        r: Reply)
      reads this
    {
      var room := memory || !(unknown || NeedsNew(f, answer));
      if !unknown && !Asked(f, want, now) then
        && r == (if f.err != 0 then Error(f.err) else Ok(f.fd, f.isDir))
        && AtHead(name) && files[queue[0]].(accessed := 0, count := 0)
          == f.(accessed := 0, count := 0, uses := f.uses + 1)
        && files[queue[0]].accessed == now
      else
        && RightReply(f, answer, room, r)
        && (name in tree <==> room && (answer.Failed? ==> want.errors && answer.err != 0))
        && (name in tree ==> AtHead(name) && RightRecord(files[queue[0]], f, answer, now))
    }

    /** A file that was found has to be looked at again, or opened again. */
    method Retest(name: Name, file: nat, want: Request, now: int, answer: Answer, memory: bool, junk: bool)
        returns (r: Reply)
      requires Working(file, INVALID) && file in files && name in tree && tree[name] == file
        && files[file].name == name && clock <= now
      requires Possible(name, answer) && (files[file].err == 0 ==> !files[file].close)
      modifies this
      ensures Whole() == old(Outcome(Whole(), file, want, answer, memory, nextId, junk, now))
      ensures Valid() <==> (old(files)[file].fd != INVALID ==> Steady(old(files)[file].uniq, answer))
      ensures clock == old(ClockAfter(Whole(), file, want, answer, memory, clock, now))
      ensures r == old(LookedAt(files[file], want, answer, memory)).reply
      ensures Recorded(name, old(LookedAt(files[file], want, answer, memory)), now) && Registered(old(holders), r, want)
      ensures RightReply(old(files)[file], answer, memory || !NeedsNew(old(files)[file], answer), r)
      ensures name in tree <==>
        (memory || !NeedsNew(old(files)[file], answer)) && (answer.Failed? ==> want.errors && answer.err != 0)
      ensures name in tree ==> AtHead(name) && RightRecord(files[queue[0]], old(files)[file], answer, now)
    {
      ghost var s := Whole();
      OpenFacts(file);
      SteadyExact(s, file, clock, want, answer, memory, nextId, junk, now);
      if files[file].fd != INVALID ==> Steady(files[file].uniq, answer) {
        SteadyKept(s, file, clock, want, answer, memory, nextId, junk, now);
      }
      r := LookAgain(name, file, want, now, answer, memory, junk);
      assert ViewBut(INVALID).open == Whole().open;
    }

    lemma {:induction false} OpenFacts(file: nat)
      requires Working(file, INVALID) && file in files
      ensures Inv(Whole(), file, clock) && nextId !in files && current > 0
      ensures Sane(files[file]) && (files[file].fd != INVALID ==> files[file].fd in open)
    {
      assert Whole() == ViewBut(INVALID);
      assert FileAt(Whole(), file, file);
    }

    /** `failed:`: the file leaves the tree; it is freed, or left to those who hold it. */
    method Forget(file: nat)
      requires file in files && current > 0 && INVALID !in open
        && (files[file].fd != INVALID ==> files[file].fd in open)
      modifies this`files, this`tree, this`current, this`open
      ensures Whole() == old(Dropped(Whole(), file)) && current == old(current) - 1
    {
      tree := tree - {files[file].name};
      current := current - 1;
      if files[file].count == 0 {
        if files[file].fd != INVALID { CloseFd(files[file].fd); }
        files := files - {file};
      } else {
        files := files[file := files[file].(close := true)];
      }
      assert Whole().open == old(Dropped(Whole(), file)).open;
    }

    /** What the code does then, step by step.  Where a new file is made there is room for it,
        as one has just left the tree. */
    method LookAgain(name: Name, file: nat, want: Request, now: int, answer: Answer, memory: bool, junk: bool)
        returns (r: Reply)
      requires file in files && files[file].name == name && nextId !in files && 0 < current <= max && INVALID !in open
      requires NewFd(open, answer) && Sane(files[file]) && (files[file].fd != INVALID ==> files[file].fd in open)
      modifies this
      ensures Whole() == old(Outcome(Whole(), file, want, answer, memory, nextId, junk, now)) && INVALID !in open
      ensures clock == old(ClockAfter(Whole(), file, want, answer, memory, clock, now))
      ensures r == old(LookedAt(files[file], want, answer, memory)).reply
      ensures (name in old(tree) && old(tree)[name] == file) ==>
        Recorded(name, old(LookedAt(files[file], want, answer, memory)), now)
      ensures Registered(old(holders), r, want)
      ensures current - |queue| == old(current - |queue|) - 1 && current <= max && nextId >= old(nextId)
      ensures forall i :: i in files ==> i in old(files) || i == old(nextId) < nextId
    {
      var f := files[file];
      var seen := OpenAndStat(f.fd, f.uniq, answer);
      if !seen.ok && (seen.err == 0 || !want.errors) {
        Forget(file);
        return Error(seen.err);
      }
      if Changed(f, seen) {
        if f.count > 0 {
          Abandon(file);
          r := CreateFile(name, seen, want.minUses, now, memory, junk);
          return;
        }
        CloseFd(f.fd);
      }
      r := Update(file, seen, want.minUses, now);
    }

    /** A descriptor just opened is no file's yet. */
    lemma {:induction false} Unowned(fd: int, s: State)
      requires fd == INVALID || fd !in s.open
      requires open == s.open + (if fd == INVALID then {} else {fd}) && INVALID !in s.open
      ensures open - {fd} == s.open
    {
    }

    /** `ngx_open_cached_file` */
    method Open(name: Name, want: Request, now: int, answer: Answer, memory: bool, junk: bool) returns (r: Reply)
      requires Valid() && clock <= now && Possible(name, answer)
      modifies this
      ensures Valid() <==> old(Trusted(name, want, now, answer))
      ensures clock <= now && r == old(Expected(name, want, now, answer, memory)).reply
      ensures Recorded(name, old(Expected(name, want, now, answer, memory)), now) && Registered(old(holders), r, want)
      ensures Serves(name, old(Named(name)), name !in old(tree), want, now, answer, memory, r)
    {
      if name in tree {
        r := OpenKnown(name, want, now, answer, memory, junk);
      } else {
        r := OpenNew(name, want, now, answer, memory, junk);
      }
    }

    /** A name that is in the cache. */
    method OpenKnown(name: Name, want: Request, now: int, answer: Answer, memory: bool, junk: bool) returns (r: Reply)
      requires Valid() && clock <= now && Possible(name, answer) && name in tree
      modifies this
      ensures Valid() <==> old(Trusted(name, want, now, answer))
      ensures clock <= now && r == old(Expected(name, want, now, answer, memory)).reply
      ensures Recorded(name, old(Expected(name, want, now, answer, memory)), now) && Registered(old(holders), r, want)
      ensures Serves(name, old(Named(name)), name !in old(tree), want, now, answer, memory, r)
    {
      var file := tree[name];
      assert TreeAt(ViewBut(INVALID), NOBODY, name);
      TakeOut(file);
      if Fresh(files[file], want, now) {
        r := Found(file, want.minUses, now);
      } else {
        r := Retest(name, file, want, now, answer, memory, junk);
      }
    }

    /** A name that is not in the cache. */
    method OpenNew(name: Name, want: Request, now: int, answer: Answer, memory: bool, junk: bool) returns (r: Reply)
      requires Valid() && clock <= now && Possible(name, answer) && name !in tree
      modifies this
      ensures Valid() && clock <= now
      ensures r == Decide(want, Look(INVALID, want.uniq, answer), memory).reply
      ensures Recorded(name, Decide(want, Look(INVALID, want.uniq, answer), memory), now)
      ensures Registered(old(holders), r, want)
      ensures Serves(name, NewFile(name, 0, false), true, want, now, answer, memory, r)
      ensures old(current) < max ==> KeepsAll(old(files))
    {
      ghost var s := ViewBut(INVALID);
      assert s.open == open;
      var seen := OpenAndStat(INVALID, want.uniq, answer);
      if !seen.ok && (seen.err == 0 || !want.errors) {
        assert open == s.open;
        return Error(seen.err);
      }
      Unowned(seen.fd, s);
      r := Create(name, seen, want.minUses, now, memory, junk);
    }

    // ---- Letting go ----

    /** `ngx_close_cached_file` for a file in the cache, out of the queue for the moment: it
        goes to the head, and its descriptor is closed if it was not used often enough. */
    method CloseKept(file: nat, minUses: nat, now: int)
      requires Working(file, INVALID) && file in files && clock <= now
      requires files[file].err == 0 && !files[file].isDir && !files[file].close
      modifies this
      ensures Valid() && clock == now && holders == old(holders) && tree == old(tree) && queue == [file] + old(queue)
      ensures var f := old(files)[file];
        if f.uses >= minUses || f.count > 0 then open == old(open) && files == old(files)[file := f.(accessed := now)]
        else open == old(open) - {f.fd} && files == old(files)[file := f.(accessed := now, fd := INVALID)]
    {
      ghost var s := ViewBut(INVALID);
      assert FileAt(s, file, file);
      assert s.open == open;
      var f := files[file].(accessed := now);
      if !(f.uses >= minUses || f.count > 0) {
        if f.fd != INVALID {
          CloseFd(f.fd);
          f := f.(fd := INVALID);
        }
      }
      Finish(file, f, false, minUses, now, s);
    }

    /** The descriptor of holder `k` stays open when he lets go: others hold the file, or it is
        in the cache and was used often enough. */
    ghost predicate Stays(k: nat)
      reads this
    {
      k < |holders| && holders[k].file in files &&
      var f := files[holders[k].file];
      f.count > 1 || (!f.close && f.uses >= holders[k].minUses)
    }

    /** A holder of a file in the cache lets go. */
    method LetGoKept(k: nat, now: int)
      requires Valid() && k < |holders| && holders[k].file in files && files[holders[k].file].count > 0 && clock <= now
      requires holders[k].file in queue && !files[holders[k].file].close
      modifies this
      ensures Valid() && clock == now && holders == Without(old(holders), k) && tree == old(tree)
      ensures var h := old(holders)[k];
        && queue != [] && queue[0] == h.file && h.file in files && files[h.file].accessed == now
        && (h.fd in open <==> old(Stays(k))) && files[h.file].fd == (if old(Stays(k)) then h.fd else INVALID)
    {
      var h := holders[k];
      ghost var s := ViewBut(INVALID);
      HolderCounts(s, NOBODY, k);
      ReleasedInv(s, NOBODY, k, clock);
      files := files[h.file := files[h.file].(count := files[h.file].count - 1)];
      holders := holders[..k] + holders[k + 1..];
      var i := Place(queue, h.file);
      PopInv(ViewBut(INVALID), i, clock);
      queue := queue[..i] + queue[i + 1..];
      CloseKept(h.file, h.minUses, now);
    }

    /** A holder of a file that has left the cache lets go; the last one frees it. */
    method LetGoGone(k: nat)
      requires Valid() && k < |holders| && holders[k].file in files && files[holders[k].file].count > 0
      requires holders[k].file !in queue && files[holders[k].file].close
      modifies this
      ensures Valid() && clock == old(clock) && holders == Without(old(holders), k) && tree == old(tree)
        && queue == old(queue)
      ensures var h := old(holders)[k];
        (h.fd in open <==> old(Stays(k))) && (h.file in files <==> old(Stays(k)))
        && (h.file in files ==> files[h.file].fd == h.fd)
    {
      var file := holders[k].file;
      ghost var s := ViewBut(INVALID);
      HolderCounts(s, NOBODY, k);
      assert s.open == open;
      if files[file].count > 1 { ReleasedInv(s, NOBODY, k, clock); } else { LastReleasedInv(s, k, clock); }
      files := files[file := files[file].(count := files[file].count - 1)];
      holders := holders[..k] + holders[k + 1..];
      CloseGone(file);
      assert ViewBut(INVALID).open == open;
      assert s.files[file].count == 1 ==> files == s.files - {file};
    }

    /** `ngx_open_file_cleanup`: holder `k` lets go. */
    method Cleanup(k: nat, now: int)
      requires Valid() && k < |holders| && clock <= now
      modifies this
      ensures Valid() && clock <= now && holders == Without(old(holders), k)
      ensures forall n :: n in tree ==> n in old(tree)
      ensures old(!Stays(k)) ==> old(holders)[k].fd !in open
      ensures old(Stays(k)) && inactive >= 0 ==> old(holders)[k].fd in open
      ensures inactive >= 0 && old(holders[k].file in files && !files[holders[k].file].close) ==>
        queue != [] && queue[0] == old(holders)[k].file && queue[0] in files && files[queue[0]].accessed == now
    {
      HolderCounts(ViewBut(INVALID), NOBODY, k);
      if !files[holders[k].file].close {
        LetGoKept(k, now);
      } else {
        LetGoGone(k);
      }
      ghost var file, before := old(holders)[k].file, queue;
      Expire(1, now, INVALID);
      if inactive >= 0 && old(Stays(k)) {
        assert file in files && files[file].fd == old(holders)[k].fd;
        assert FileAt(ViewBut(INVALID), NOBODY, file);
      }
    }

    // ---- What holds between calls ----

    /** Nobody holds a descriptor that is closed, or that of a directory or an error; and a
        file in memory is in the cache or somebody holds it. */
    lemma {:induction false} Safe()
      requires Valid()
      ensures forall k :: 0 <= k < |holders| ==>
        holders[k].fd in open && holders[k].file in files && files[holders[k].file].fd == holders[k].fd
      ensures forall id :: id in files ==> files[id].count == Holds(holders, id) && (id in queue || files[id].count > 0)
      ensures forall id :: id in files && (files[id].err != 0 || files[id].isDir) ==> files[id].count == 0
      ensures forall fd :: fd in open ==> exists id :: id in files && files[id].fd == fd
      ensures forall i, j :: i in files && j in files && i != j && files[i].fd != INVALID ==> files[i].fd != files[j].fd
    {
      var s := ViewBut(INVALID);
      assert s.open == open;
      forall k | 0 <= k < |holders| ensures holders[k].fd in open && holders[k].file in files
        && files[holders[k].file].fd == holders[k].fd {
        HolderCounts(s, NOBODY, k);
      }
      forall id | id in files ensures files[id].count == Holds(holders, id) && (id in queue || files[id].count > 0)
        && Sane(files[id]) {
        assert FileAt(s, NOBODY, id);
      }
      forall fd | fd in open ensures exists id :: id in files && files[id].fd == fd { assert Owned(s, fd); }
      forall i, j | i in files && j in files && i != j && files[i].fd != INVALID ensures files[i].fd != files[j].fd {
        assert FdsApart(s, i, j);
      }
    }

    /** Tree and queue hold the same files, each once and under its own name, no more than
        `max`, and the queue is in the order of last use. */
    lemma {:induction false} Indexed()
      requires Valid()
      ensures forall n :: n in tree ==> tree[n] in queue && tree[n] in files && files[tree[n]].name == n
      ensures forall i :: 0 <= i < |queue| ==>
        queue[i] in files && files[queue[i]].name in tree && tree[files[queue[i]].name] == queue[i]
      ensures forall i, j :: 0 <= i < j < |queue| ==>
        queue[i] != queue[j] && files[queue[i]].accessed >= files[queue[j]].accessed
      ensures current == |queue| <= max
    {
      var s := ViewBut(INVALID);
      forall n | n in tree ensures tree[n] in queue && tree[n] in files && files[tree[n]].name == n {
        assert TreeAt(s, NOBODY, n);
      }
      forall i | 0 <= i < |queue| ensures queue[i] in files && files[queue[i]].name in tree
        && tree[files[queue[i]].name] == queue[i] {
        QueuedIsFile(s, NOBODY, queue[i]);
      }
      forall i, j | 0 <= i < j < |queue|
        ensures queue[i] != queue[j] && files[queue[i]].accessed >= files[queue[j]].accessed {
        assert Apart(s.queue, i, j) && OrderAt(s, i, j);
      }
    }
  }
}
