/** The moves of the open file cache keep what holds between calls. */
module FileMoves {
  import opened FileState

  function Without<T>(q: seq<T>, i: nat): seq<T>
    requires i < |q|
  {
    q[..i] + q[i + 1..]
  }

  lemma {:induction false} WithoutAt<T>(q: seq<T>, i: nat, k: nat)
    requires i < |q| && k < |q| - 1
    ensures Without(q, i)[k] == q[if k < i then k else k + 1]
  {
  }

  ghost predicate Distinct(q: seq<nat>) {
    forall i, j {:trigger Apart(q, i, j)} :: 0 <= i < j < |q| ==> Apart(q, i, j)
  }

  lemma {:induction false} WithoutMembers(q: seq<nat>, i: nat, z: nat)
    requires i < |q| && Distinct(q)
    ensures z in Without(q, i) <==> z in q && z != q[i]
  {
    if z in Without(q, i) {
      var k :| 0 <= k < |q| - 1 && Without(q, i)[k] == z;
      WithoutAt(q, i, k);
      var j := if k < i then k else k + 1;
      if j < i { assert Apart(q, j, i); } else { assert Apart(q, i, j); }
    }
    if z in q && z != q[i] {
      var k :| 0 <= k < |q| && q[k] == z;
      WithoutAt(q, i, if k < i then k else k - 1);
    }
  }

  lemma {:induction false} WithoutDistinct(q: seq<nat>, i: nat)
    requires i < |q| && Distinct(q)
    ensures Distinct(Without(q, i))
  {
    var p := Without(q, i);
    forall a, b | 0 <= a < b < |p| ensures Apart(p, a, b) {
      WithoutAt(q, i, a);
      WithoutAt(q, i, b);
      assert Apart(q, if a < i then a else a + 1, if b < i then b else b + 1);
    }
  }

  // ---- Out of the queue ----

  function Popped(s: State, i: nat): State
    requires i < |s.queue|
  {
    s.(queue := Without(s.queue, i))
  }

  lemma {:induction false} PopIndex(s: State, i: nat)
    requires Index(s, NOBODY) && i < |s.queue|
    ensures Index(Popped(s, i), s.queue[i])
  {
    var s', x := Popped(s, i), s.queue[i];
    WithoutDistinct(s.queue, i);
    WithoutMembers(s.queue, i, x);
    forall n | n in s'.tree ensures TreeAt(s', x, n) {
      assert TreeAt(s, NOBODY, n);
      WithoutMembers(s.queue, i, s.tree[n]);
    }
    forall id | id in s'.queue || id == x ensures ListedAt(s', id) {
      WithoutMembers(s.queue, i, id);
      assert ListedAt(s, id);
    }
  }

  lemma {:induction false} PopFiles(s: State, i: nat)
    requires Files(s, NOBODY) && i < |s.queue| && Distinct(s.queue)
    ensures Files(Popped(s, i), s.queue[i])
  {
    var s', x := Popped(s, i), s.queue[i];
    forall id | id in s'.files ensures FileAt(s', x, id) {
      assert FileAt(s, NOBODY, id);
      WithoutMembers(s.queue, i, id);
    }
    forall a, b | a in s'.files && b in s'.files ensures FdsApart(s', a, b) { assert FdsApart(s, a, b); }
    forall fd | fd in s'.open ensures fd != INVALID && Owned(s', fd) { assert Owned(s, fd); }
    forall k | 0 <= k < |s'.holders| ensures HeldAt(s', k) { assert HeldAt(s, k); }
  }

  lemma {:induction false} PopOrder(s: State, i: nat, clock: int)
    requires Order(s, clock) && i < |s.queue|
    ensures Order(Popped(s, i), clock)
  {
    var s' := Popped(s, i);
    forall a, b | 0 <= a < b < |s'.queue| ensures OrderAt(s', a, b) {
      WithoutAt(s.queue, i, a);
      WithoutAt(s.queue, i, b);
      assert OrderAt(s, if a < i then a else a + 1, if b < i then b else b + 1);
    }
    forall a | 0 <= a < |s'.queue| ensures SeenAt(s', clock, a) {
      WithoutAt(s.queue, i, a);
      assert SeenAt(s, clock, if a < i then a else a + 1);
    }
  }

  lemma {:induction false} PopInv(s: State, i: nat, clock: int)
    requires Inv(s, NOBODY, clock) && i < |s.queue|
    ensures Inv(Popped(s, i), s.queue[i], clock)
  {
    PopIndex(s, i);
    PopFiles(s, i);
    PopOrder(s, i, clock);
  }

  // ---- Back to the head of the queue, with new contents ----

  ghost predicate PutOk(s: State, x: nat, f: File, open': set<int>, holders': seq<Holder>, now: int)
    requires x in s.files
  {
    var was := s.files[x];
    && f.name == was.name && f.accessed == now && Sane(f) && (f.err == 0 ==> !f.close)
    && (f.fd != INVALID ==> f.fd == was.fd || f.fd !in s.open)
    && (forall fd :: fd in open' <==> (fd == f.fd && fd != INVALID) || (fd in s.open && fd != was.fd))
    && (was.count > 0 ==> f.fd == was.fd)
    && (if holders' == s.holders then f.count == was.count
        else f.count == was.count + 1 && |holders'| == |s.holders| + 1 && holders'[..|s.holders|] == s.holders
             && holders'[|s.holders|].file == x && holders'[|s.holders|].fd == f.fd)
  }

  function Put(s: State, x: nat, f: File, open': set<int>, holders': seq<Holder>): State {
    State(s.files[x := f], s.tree, [x] + s.queue, open', holders')
  }

  lemma {:induction false} PutIndex(s: State, x: nat, f: File, open': set<int>, holders': seq<Holder>)
    requires Index(s, x) && x in s.files && f.name == s.files[x].name
    ensures Index(Put(s, x, f, open', holders'), NOBODY)
  {
    var s' := Put(s, x, f, open', holders');
    forall n | n in s'.tree ensures TreeAt(s', NOBODY, n) { assert TreeAt(s, x, n); }
    forall id | id in s'.queue || id == NOBODY ensures ListedAt(s', id) { assert ListedAt(s, id); }
    forall i, j | 0 <= i < j < |s'.queue| ensures Apart(s'.queue, i, j) {
      assert s'.queue[j] == s.queue[j - 1] && s.queue[j - 1] in s.queue;
      if i > 0 { assert s'.queue[i] == s.queue[i - 1] && Apart(s.queue, i - 1, j - 1); }
    }
  }

  lemma {:induction false} HoldsAppend(holders: seq<Holder>, h: Holder, id: nat)
    ensures Holds(holders + [h], id) == Holds(holders, id) + if h.file == id then 1 else 0
  {
    if holders == [] {
      assert holders + [h] == [h] && [h][1..] == [];
    } else {
      assert (holders + [h])[1..] == holders[1..] + [h];
      HoldsAppend(holders[1..], h, id);
    }
  }

  lemma {:induction false} PutHolds(s: State, x: nat, f: File, open': set<int>, holders': seq<Holder>, now: int,
      id: nat)
    requires x in s.files && PutOk(s, x, f, open', holders', now)
    ensures Holds(holders', id) == Holds(s.holders, id) + (if id == x then f.count - s.files[x].count else 0)
  {
    if holders' != s.holders {
      assert holders' == s.holders + [holders'[|s.holders|]];
      HoldsAppend(s.holders, holders'[|s.holders|], id);
    }
  }

  lemma {:induction false} PutFileAt(s: State, x: nat, f: File, open': set<int>, holders': seq<Holder>, now: int,
      id: nat)
    requires Files(s, x) && x in s.files && PutOk(s, x, f, open', holders', now)
    requires id in s.files
    ensures FileAt(Put(s, x, f, open', holders'), NOBODY, id)
  {
    var s' := Put(s, x, f, open', holders');
    assert FileAt(s, x, id) && FileAt(s, x, x) && FdsApart(s, id, x);
    PutHolds(s, x, f, open', holders', now, id);
    assert s'.queue[0] == x;
    if id in s.queue {
      var k :| 0 <= k < |s.queue| && s.queue[k] == id;
      assert s'.queue[k + 1] == id;
    }
  }

  lemma {:induction false} PutApart(s: State, x: nat, f: File, open': set<int>, holders': seq<Holder>, now: int,
      i: nat, j: nat)
    requires Files(s, x) && x in s.files && PutOk(s, x, f, open', holders', now) && i in s.files && j in s.files
    ensures FdsApart(Put(s, x, f, open', holders'), i, j)
  {
    assert FdsApart(s, i, j) && FileAt(s, x, i) && FileAt(s, x, j);
  }

  lemma {:induction false} PutOwned(s: State, x: nat, f: File, open': set<int>, holders': seq<Holder>, now: int,
      fd: int)
    requires Files(s, x) && x in s.files && PutOk(s, x, f, open', holders', now) && fd in open'
    ensures fd != INVALID && Owned(Put(s, x, f, open', holders'), fd)
  {
    var s' := Put(s, x, f, open', holders');
    if fd == f.fd && fd != INVALID {
      assert s'.files[x].fd == fd;
    } else {
      assert Owned(s, fd);
      var id :| id in s.files && s.files[id].fd == fd;
      assert s'.files[id].fd == fd;
    }
  }

  lemma {:induction false} PutHeld(s: State, x: nat, f: File, open': set<int>, holders': seq<Holder>, now: int, k: nat)
    requires Files(s, x) && x in s.files && PutOk(s, x, f, open', holders', now) && k < |holders'|
    ensures HeldAt(Put(s, x, f, open', holders'), k)
  {
    if k < |s.holders| {
      assert HeldAt(s, k) && FileAt(s, x, x);
      assert holders'[k] == s.holders[k] by { if holders' != s.holders { assert holders'[..|s.holders|][k]
        == holders'[k]; } }
      HoldsPositive(s.holders, k);
    }
  }

  lemma {:induction false} HoldsPositive(holders: seq<Holder>, k: nat)
    requires k < |holders|
    ensures Holds(holders, holders[k].file) > 0
  {
    if k > 0 { HoldsPositive(holders[1..], k - 1); }
  }

  lemma {:induction false} PutFiles(s: State, x: nat, f: File, open': set<int>, holders': seq<Holder>, now: int)
    requires Files(s, x) && x in s.files && PutOk(s, x, f, open', holders', now)
    ensures Files(Put(s, x, f, open', holders'), NOBODY)
  {
    var s' := Put(s, x, f, open', holders');
    forall id | id in s'.files ensures FileAt(s', NOBODY, id) { PutFileAt(s, x, f, open', holders', now, id); }
    forall i, j | i in s'.files && j in s'.files ensures FdsApart(s', i, j) {
      PutApart(s, x, f, open', holders', now, i, j);
    }
    forall fd | fd in s'.open ensures fd != INVALID && Owned(s', fd) { PutOwned(s, x, f, open', holders', now, fd); }
    forall k | 0 <= k < |s'.holders| ensures HeldAt(s', k) { PutHeld(s, x, f, open', holders', now, k); }
  }

  lemma {:induction false} PutOrder(s: State, x: nat, f: File, open': set<int>, holders': seq<Holder>, clock: int,
      now: int)
    requires Order(s, clock) && clock <= now && f.accessed == now && x !in s.queue
    ensures Order(Put(s, x, f, open', holders'), now)
  {
    var s' := Put(s, x, f, open', holders');
    forall i | 0 <= i < |s.queue| ensures s.queue[i] in s.files && s.queue[i] != x
      && s.files[s.queue[i]].accessed <= now {
      assert SeenAt(s, clock, i) && s.queue[i] in s.queue;
    }
    forall i, j | 0 <= i < j < |s'.queue| ensures OrderAt(s', i, j) {
      assert s'.queue[j] == s.queue[j - 1];
      if i > 0 { assert s'.queue[i] == s.queue[i - 1] && OrderAt(s, i - 1, j - 1); }
    }
    forall i | 0 <= i < |s'.queue| ensures SeenAt(s', now, i) { if i > 0 { assert s'.queue[i] == s.queue[i - 1]; } }
  }

  /** The file that is being worked on goes to the head of the queue. */
  lemma {:induction false} PutInv(s: State, x: nat, f: File, open': set<int>, holders': seq<Holder>, clock: int,
      now: int)
    requires Inv(s, x, clock) && clock <= now && x in s.files && PutOk(s, x, f, open', holders', now)
    ensures Inv(Put(s, x, f, open', holders'), NOBODY, now)
  {
    PutIndex(s, x, f, open', holders');
    PutFiles(s, x, f, open', holders', now);
    PutOrder(s, x, f, open', holders', clock, now);
  }

  // ---- Out of the tree ----

  /** The file that is being worked on is freed, and its descriptor closed. */
  function Freed(s: State, x: nat): State
    requires x in s.files
  {
    State(s.files - {x}, s.tree - {s.files[x].name}, s.queue, s.open - {s.files[x].fd}, s.holders)
  }

  /** ... or left to those who hold it. */
  function Left(s: State, x: nat): State
    requires x in s.files
  {
    s.(files := s.files[x := s.files[x].(close := true)], tree := s.tree - {s.files[x].name})
  }

  lemma {:induction false} NoHolder(s: State, x: int, id: nat, k: nat)
    requires Files(s, x) && id in s.files && s.files[id].count == 0 && k < |s.holders|
    ensures s.holders[k].file != id
  {
    assert FileAt(s, x, id);
    HoldsPositive(s.holders, k);
  }

  lemma {:induction false} QueuedIsFile(s: State, x: int, id: nat)
    requires Index(s, x) && (id in s.queue || id == x)
    ensures id in s.files && s.files[id].name in s.tree && s.tree[s.files[id].name] == id
  {
    assert ListedAt(s, id);
  }

  lemma {:induction false} OtherName(s: State, x: nat, id: nat)
    requires Index(s, x) && id in s.queue
    ensures id in s.files && x in s.files && s.files[id].name != s.files[x].name && id != x
  {
    assert ListedAt(s, id) && ListedAt(s, x);
  }

  lemma {:induction false} OutIndex(s: State, x: nat, s': State)
    requires Index(s, x) && x in s.files && s'.queue == s.queue && s'.tree == s.tree - {s.files[x].name}
    requires forall id :: id in s.files && id != x ==> id in s'.files && s'.files[id] == s.files[id]
    ensures Index(s', NOBODY)
  {
    assert ListedAt(s, x);
    forall n | n in s'.tree ensures TreeAt(s', NOBODY, n) {
      assert TreeAt(s, x, n);
    }
    forall id | id in s'.queue || id == NOBODY ensures ListedAt(s', id) {
      assert ListedAt(s, id);
      OtherName(s, x, id);
    }
  }

  lemma {:induction false} OutOrder(s: State, x: nat, s': State, clock: int)
    requires Order(s, clock) && s'.queue == s.queue && x !in s.queue
    requires forall id :: id in s.files && id != x ==> id in s'.files && s'.files[id] == s.files[id]
    ensures Order(s', clock)
  {
    forall i, j | 0 <= i < j < |s'.queue| ensures OrderAt(s', i, j) {
      assert OrderAt(s, i, j) && s.queue[i] in s.queue && s.queue[j] in s.queue;
    }
    forall i | 0 <= i < |s'.queue| ensures SeenAt(s', clock, i) { assert SeenAt(s, clock, i) && s.queue[i] in s.queue; }
  }

  lemma {:induction false} FreedFiles(s: State, x: nat)
    requires Files(s, x) && x in s.files && s.files[x].count == 0
    ensures Files(Freed(s, x), NOBODY)
  {
    var s' := Freed(s, x);
    forall id | id in s'.files ensures FileAt(s', NOBODY, id) {
      assert FileAt(s, x, id) && FdsApart(s, id, x);
    }
    forall i, j | i in s'.files && j in s'.files ensures FdsApart(s', i, j) { assert FdsApart(s, i, j); }
    forall fd | fd in s'.open ensures fd != INVALID && Owned(s', fd) {
      assert Owned(s, fd);
      var id :| id in s.files && s.files[id].fd == fd;
      assert s'.files[id].fd == fd;
    }
    forall k | 0 <= k < |s'.holders| ensures HeldAt(s', k) {
      assert HeldAt(s, k);
      NoHolder(s, x, x, k);
    }
  }

  lemma {:induction false} FreedInv(s: State, x: nat, clock: int)
    requires Inv(s, x, clock) && x in s.files && s.files[x].count == 0
    ensures Inv(Freed(s, x), NOBODY, clock)
  {
    OutIndex(s, x, Freed(s, x));
    FreedFiles(s, x);
    OutOrder(s, x, Freed(s, x), clock);
  }

  lemma {:induction false} LeftFiles(s: State, x: nat)
    requires Files(s, x) && x in s.files && s.files[x].count > 0 && x !in s.queue
    ensures Files(Left(s, x), NOBODY)
  {
    var s' := Left(s, x);
    forall id | id in s'.files ensures FileAt(s', NOBODY, id) { assert FileAt(s, x, id); }
    forall i, j | i in s'.files && j in s'.files ensures FdsApart(s', i, j) { assert FdsApart(s, i, j); }
    forall fd | fd in s'.open ensures fd != INVALID && Owned(s', fd) {
      assert Owned(s, fd);
      var id :| id in s.files && s.files[id].fd == fd;
      assert s'.files[id].fd == fd;
    }
    forall k | 0 <= k < |s'.holders| ensures HeldAt(s', k) { assert HeldAt(s, k); }
  }

  lemma {:induction false} LeftInv(s: State, x: nat, clock: int)
    requires Inv(s, x, clock) && x in s.files && s.files[x].count > 0
    ensures Inv(Left(s, x), NOBODY, clock)
  {
    OutIndex(s, x, Left(s, x));
    LeftFiles(s, x);
    OutOrder(s, x, Left(s, x), clock);
  }

  // ---- A new file ----

  function Added(s: State, id: nat, f: File): State {
    s.(files := s.files[id := f], tree := s.tree[f.name := id])
  }

  lemma {:induction false} HoldsNone(s: State, x: int, id: nat)
    requires Files(s, x) && id !in s.files
    ensures Holds(s.holders, id) == 0
  {
    HoldsNobody(s.holders, id) by {
      forall k | 0 <= k < |s.holders| ensures s.holders[k].file != id { assert HeldAt(s, k); }
    }
  }

  lemma {:induction false} HoldsNobody(holders: seq<Holder>, id: nat)
    requires forall k :: 0 <= k < |holders| ==> holders[k].file != id
    ensures Holds(holders, id) == 0
  {
    if holders != [] { HoldsNobody(holders[1..], id); }
  }

  lemma {:induction false} AddedFiles(s: State, id: nat, f: File)
    requires Files(s, NOBODY) && id !in s.files && id !in s.queue && f.count == 0 && f.fd == INVALID
    ensures Files(Added(s, id, f), id)
  {
    var s' := Added(s, id, f);
    HoldsNone(s, NOBODY, id);
    forall i | i in s'.files ensures FileAt(s', id, i) { if i != id { assert FileAt(s, NOBODY, i); } }
    forall i, j | i in s'.files && j in s'.files
      ensures FdsApart(s', i, j) { if i != id && j != id { assert FdsApart(s, i, j); } }
    forall fd | fd in s'.open ensures fd != INVALID && Owned(s', fd) {
      assert Owned(s, fd);
      var i :| i in s.files && s.files[i].fd == fd;
      assert s'.files[i].fd == fd;
    }
    forall k | 0 <= k < |s'.holders| ensures HeldAt(s', k) { assert HeldAt(s, k); }
  }

  lemma {:induction false} AddedInv(s: State, id: nat, f: File, clock: int)
    requires Inv(s, NOBODY, clock) && id !in s.files && f.name !in s.tree && f.count == 0 && f.fd == INVALID
    ensures Inv(Added(s, id, f), id, clock)
  {
    var s' := Added(s, id, f);
    assert id !in s.queue by { if id in s.queue { QueuedIsFile(s, NOBODY, id); } }
    forall n | n in s'.tree ensures TreeAt(s', id, n) { if n != f.name { assert TreeAt(s, NOBODY, n); } }
    forall i | i in s'.queue || i == id ensures ListedAt(s', i) { if i != id { assert ListedAt(s, i); } }
    AddedFiles(s, id, f);
    forall i, j | 0 <= i < j < |s'.queue| ensures OrderAt(s', i, j) {
      assert OrderAt(s, i, j) && s.queue[i] in s.queue && s.queue[j] in s.queue;
    }
    forall i | 0 <= i < |s'.queue| ensures SeenAt(s', clock, i) { assert SeenAt(s, clock, i) && s.queue[i] in s.queue; }
  }

  // ---- A holder lets go ----

  lemma {:induction false} HoldsConcat(a: seq<Holder>, b: seq<Holder>, id: nat)
    ensures Holds(a + b, id) == Holds(a, id) + Holds(b, id)
  {
    if a == [] {
      assert a + b == b;
    } else {
      assert (a + b)[1..] == a[1..] + b;
      HoldsConcat(a[1..], b, id);
    }
  }

  lemma {:induction false} HoldsWithout(holders: seq<Holder>, k: nat, id: nat)
    requires k < |holders|
    ensures Holds(Without(holders, k), id) == Holds(holders, id) - if holders[k].file == id then 1 else 0
  {
    assert holders == holders[..k] + ([holders[k]] + holders[k + 1..]);
    HoldsConcat(holders[..k], [holders[k]] + holders[k + 1..], id);
    HoldsConcat([holders[k]], holders[k + 1..], id);
    HoldsConcat(holders[..k], holders[k + 1..], id);
    assert [holders[k]][1..] == [];
  }

  function Released(s: State, k: nat): State
    requires k < |s.holders| && s.holders[k].file in s.files && s.files[s.holders[k].file].count > 0
  {
    var id := s.holders[k].file;
    s.(files := s.files[id := s.files[id].(count := s.files[id].count - 1)], holders := Without(s.holders, k))
  }

  /** The file of a holder counts him. */
  lemma {:induction false} HolderCounts(s: State, x: int, k: nat)
    requires Files(s, x) && k < |s.holders|
    ensures s.holders[k].file in s.files
    ensures var f := s.files[s.holders[k].file];
      && f.count > 0 && f.fd == s.holders[k].fd && f.fd != INVALID && f.fd in s.open && f.err == 0 && !f.isDir
      && (s.holders[k].file in s.queue || s.holders[k].file == x || f.close)
      && (s.holders[k].file in s.queue ==> !f.close)
  {
    assert HeldAt(s, k);
    var id := s.holders[k].file;
    HoldsPositive(s.holders, k);
    assert FileAt(s, x, id);
  }

  lemma {:induction false} ReleasedIndex(s: State, x: int, k: nat, clock: int)
    requires Index(s, x) && Order(s, clock) && k < |s.holders| && s.holders[k].file in s.files
      && s.files[s.holders[k].file].count > 0
    ensures Index(Released(s, k), x) && Order(Released(s, k), clock)
  {
    var s' := Released(s, k);
    forall n | n in s'.tree ensures TreeAt(s', x, n) { assert TreeAt(s, x, n); }
    forall id | id in s'.queue || id == x ensures ListedAt(s', id) { assert ListedAt(s, id); }
    forall i, j | 0 <= i < j < |s'.queue| ensures OrderAt(s', i, j) { assert OrderAt(s, i, j); }
    forall i | 0 <= i < |s'.queue| ensures SeenAt(s', clock, i) { assert SeenAt(s, clock, i); }
  }

  lemma {:induction false} ReleasedInv(s: State, x: int, k: nat, clock: int)
    requires Inv(s, x, clock) && k < |s.holders| && s.holders[k].file in s.files && s.files[s.holders[k].file].count > 0
    requires var id := s.holders[k].file; id in s.queue || id == x || s.files[id].count > 1
    ensures Inv(Released(s, k), x, clock)
  {
    var s', id := Released(s, k), s.holders[k].file;
    ReleasedIndex(s, x, k, clock);
    forall i | i in s'.files ensures FileAt(s', x, i) {
      assert FileAt(s, x, i);
      HoldsWithout(s.holders, k, i);
    }
    forall i, j | i in s'.files && j in s'.files ensures FdsApart(s', i, j) { assert FdsApart(s, i, j); }
    forall fd | fd in s'.open ensures fd != INVALID && Owned(s', fd) {
      assert Owned(s, fd);
      var i :| i in s.files && s.files[i].fd == fd;
      assert s'.files[i].fd == fd;
    }
    forall j | 0 <= j < |s'.holders| ensures HeldAt(s', j) {
      WithoutAt(s.holders, k, j);
      assert HeldAt(s, if j < k then j else j + 1);
    }
  }

  /** The last holder of a file that has left the cache frees it. */
  function LastReleased(s: State, k: nat): State
    requires k < |s.holders| && s.holders[k].file in s.files
  {
    var id := s.holders[k].file;
    State(s.files - {id}, s.tree, s.queue, s.open - {s.files[id].fd}, Without(s.holders, k))
  }

  lemma {:induction false} OnlyHolder(s: State, x: int, k: nat, j: nat)
    requires Files(s, x) && k < |s.holders| && s.holders[k].file in s.files && s.files[s.holders[k].file].count == 1
    requires j < |Without(s.holders, k)|
    ensures Without(s.holders, k)[j].file != s.holders[k].file
  {
    var id := s.holders[k].file;
    assert FileAt(s, x, id);
    HoldsWithout(s.holders, k, id);
    HoldsPositive(Without(s.holders, k), j);
  }

  lemma {:induction false} LastReleasedInv(s: State, k: nat, clock: int)
    requires Inv(s, NOBODY, clock) && k < |s.holders| && s.holders[k].file in s.files
      && s.files[s.holders[k].file].count == 1
    requires s.holders[k].file !in s.queue
    ensures Inv(LastReleased(s, k), NOBODY, clock)
  {
    var s', id := LastReleased(s, k), s.holders[k].file;
    forall n | n in s'.tree ensures TreeAt(s', NOBODY, n) { assert TreeAt(s, NOBODY, n); }
    forall i | i in s'.queue || i == NOBODY ensures ListedAt(s', i) { assert ListedAt(s, i); }
    OutOrder(s, id, s', clock);
    forall i | i in s'.files ensures FileAt(s', NOBODY, i) {
      assert FileAt(s, NOBODY, i) && FdsApart(s, i, id);
      HoldsWithout(s.holders, k, i);
    }
    forall i, j | i in s'.files && j in s'.files ensures FdsApart(s', i, j) { assert FdsApart(s, i, j); }
    forall fd | fd in s'.open ensures fd != INVALID && Owned(s', fd) {
      assert Owned(s, fd);
      var i :| i in s.files && s.files[i].fd == fd;
      assert s'.files[i].fd == fd;
    }
    forall j | 0 <= j < |s'.holders| ensures HeldAt(s', j) {
      WithoutAt(s.holders, k, j);
      assert HeldAt(s, if j < k then j else j + 1);
      OnlyHolder(s, NOBODY, k, j);
    }
  }

  lemma {:induction false} NoInvalid(s: State, x: int)
    requires Files(s, x)
    ensures INVALID !in s.open
  {
    assert Owned(s, INVALID) || !Owned(s, INVALID);
  }

  /** How often a file was used does not matter. */
  lemma {:induction false} UsesInv(s: State, x: nat, uses: nat, clock: int)
    requires Inv(s, x, clock) && x in s.files
    ensures Inv(s.(files := s.files[x := s.files[x].(uses := uses)]), x, clock)
  {
    var s' := s.(files := s.files[x := s.files[x].(uses := uses)]);
    forall n | n in s'.tree ensures TreeAt(s', x, n) { assert TreeAt(s, x, n); }
    forall id | id in s'.queue || id == x ensures ListedAt(s', id) { assert ListedAt(s, id); }
    forall i | i in s'.files ensures FileAt(s', x, i) { assert FileAt(s, x, i); }
    forall i, j | i in s'.files && j in s'.files ensures FdsApart(s', i, j) { assert FdsApart(s, i, j); }
    forall fd | fd in s'.open ensures fd != INVALID && Owned(s', fd) {
      assert Owned(s, fd);
      var i :| i in s.files && s.files[i].fd == fd;
      assert s'.files[i].fd == fd;
    }
    forall k | 0 <= k < |s'.holders| ensures HeldAt(s', k) { assert HeldAt(s, k); }
    forall i, j | 0 <= i < j < |s'.queue| ensures OrderAt(s', i, j) { assert OrderAt(s, i, j); }
    forall i | 0 <= i < |s'.queue| ensures SeenAt(s', clock, i) { assert SeenAt(s, clock, i); }
  }
}
