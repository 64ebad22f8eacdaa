/** What holds of the open file cache between calls, and what each of its moves keeps. */
module FileState {

  const INVALID := -1

  type Name = string

  /** ngx_cached_open_file_t.  `err` is 0 for no error. */
  datatype File = File(name: Name, created: int, accessed: int, fd: int, uniq: nat, err: nat, uses: nat, count: nat,
      close: bool, isDir: bool)

  /** ngx_open_file_cache_cleanup_t: somebody uses descriptor `fd` of a file. */
  datatype Holder = Holder(file: nat, fd: int, minUses: nat)

  /** The files in memory, the tree, the queue (last used first), the descriptors that are
      open, and the cleanups that are still to run. */
  datatype State = State(files: map<nat, File>, tree: map<Name, nat>, queue: seq<nat>, open: set<int>,
      holders: seq<Holder>)

  const NOBODY := -1

  /** How many cleanups a file is waiting for. */
  function Holds(holders: seq<Holder>, id: nat): nat {
    if holders == [] then 0 else Holds(holders[1..], id) + if holders[0].file == id then 1 else 0
  }

  // ---- The index ----

  ghost predicate TreeAt(s: State, x: int, n: Name)
    requires n in s.tree
  {
    && s.tree[n] in s.files && s.files[s.tree[n]].name == n
    && (s.tree[n] in s.queue || s.tree[n] == x)
  }

  ghost predicate ListedAt(s: State, id: nat) {
    id in s.files && s.files[id].name in s.tree && s.tree[s.files[id].name] == id
  }

  ghost predicate Apart(queue: seq<nat>, i: int, j: int)
    requires 0 <= i < |queue| && 0 <= j < |queue|
  {
    queue[i] != queue[j]
  }

  /** Tree and queue hold the same files, apart from the file `x` that is being worked on
      and is only in the tree. */
  ghost predicate Index(s: State, x: int) {
    && (forall n {:trigger TreeAt(s, x, n)} :: n in s.tree ==> TreeAt(s, x, n))
    && (forall id {:trigger ListedAt(s, id)} :: id in s.queue || id == x ==> ListedAt(s, id))
    && (forall i, j {:trigger Apart(s.queue, i, j)} :: 0 <= i < j < |s.queue| ==> Apart(s.queue, i, j))
    && x !in s.queue
  }

  // ---- The files ----

  /** What a file says of itself. */
  predicate Sane(f: File) {
    && (f.err != 0 || f.isDir ==> f.count == 0 && f.fd == INVALID)
    && (f.count > 0 ==> f.fd != INVALID)
    && f.fd >= INVALID
  }

  ghost predicate FileAt(s: State, x: int, id: nat)
    requires id in s.files
  {
    var f := s.files[id];
    && Sane(f) && f.count == Holds(s.holders, id)
    && (f.fd != INVALID ==> f.fd in s.open)
    && (id in s.queue || id == x || (f.close && f.count > 0))
    && (id in s.queue && f.err == 0 ==> !f.close)
  }

  ghost predicate FdsApart(s: State, i: nat, j: nat)
    requires i in s.files && j in s.files
  {
    i == j || s.files[i].fd == INVALID || s.files[i].fd != s.files[j].fd
  }

  ghost predicate Owned(s: State, fd: int) {
    exists id :: id in s.files && s.files[id].fd == fd
  }

  ghost predicate HeldAt(s: State, k: int)
    requires 0 <= k < |s.holders|
  {
    s.holders[k].file in s.files && s.files[s.holders[k].file].fd == s.holders[k].fd
  }

  /** Every file counts its holders; every open descriptor belongs to exactly one file;
      nobody holds a descriptor that is not that of his file. */
  ghost predicate Files(s: State, x: int) {
    && (forall id {:trigger FileAt(s, x, id)} :: id in s.files ==> FileAt(s, x, id))
    && (forall i, j {:trigger FdsApart(s, i, j)} :: i in s.files && j in s.files ==> FdsApart(s, i, j))
    && (forall fd {:trigger Owned(s, fd)} :: fd in s.open ==> fd != INVALID && Owned(s, fd))
    && (forall k {:trigger HeldAt(s, k)} :: 0 <= k < |s.holders| ==> HeldAt(s, k))
  }

  // ---- The order of the queue ----

  ghost predicate OrderAt(s: State, i: int, j: int)
    requires 0 <= i < |s.queue| && 0 <= j < |s.queue|
  {
    s.queue[i] in s.files && s.queue[j] in s.files && s.files[s.queue[i]].accessed >= s.files[s.queue[j]].accessed
  }

  ghost predicate SeenAt(s: State, clock: int, i: int)
    requires 0 <= i < |s.queue|
  {
    s.queue[i] in s.files && s.files[s.queue[i]].accessed <= clock
  }

  /** The queue is sorted by last access, and nothing was accessed after `clock`. */
  ghost predicate Order(s: State, clock: int) {
    && (forall i, j {:trigger OrderAt(s, i, j)} :: 0 <= i < j < |s.queue| ==> OrderAt(s, i, j))
    && (forall i {:trigger SeenAt(s, clock, i)} :: 0 <= i < |s.queue| ==> SeenAt(s, clock, i))
  }

  ghost predicate Inv(s: State, x: int, clock: int) {
    Index(s, x) && Files(s, x) && Order(s, clock)
  }
}
