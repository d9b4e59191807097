/** Three runs, on a log of 1024 bytes and with one key, after which master and slave differ for good. */
module ReplicaDiverges {
  import opened Common
  import opened Layout
  import opened MemLog
  import opened Store
  import opened Replication
  import opened ReplicaRuns
  import opened ReplicaOrder
  import Runs

  /** The key, and the flags of a store and of a delete. */
  function K(): Key {
    [ZERO]
  }

  const STORE: nat := 0
  const DELETE: nat := 128

  ghost predicate Reached(r: Pair) {
    Runs.Reachable(StartPair, NextPair, r) && r.master.L() == 1024
  }

  lemma ReachedHolds(r: Pair)
    requires Reached(r)
    ensures PairInv(r)
  {
    PairInvIsInductive();
    Runs.ReachInvariant(StartPair, NextPair, PairInv, r);
  }

  lemma EventReached(r: Pair, ev: Event) returns (r': Pair)
    requires Reached(r) && EventEnabled(r, ev)
    ensures r' == ApplyEvent(r, ev) && (r'.master.L() == 1024 ==> Reached(r'))
  {
    r' := ApplyEvent(r, ev);
    Runs.ReachNext(StartPair, NextPair, r, ev, r');
  }

  /** A master on its first lap with these records and this index entry; the slave has pulled nothing. */
  ghost predicate Stands(r: Pair, xs: seq<Extent>, found: Option<nat>, done: set<nat>) {
    && Reached(r) && !r.master.wrapped && r.master.m.current <= 128 * |xs|
    && r.master.lap == xs && Lookup(r.master.m.index, K()) == found && r.done == done && r.slave == StartSlave(1024)
  }

  function Asked(cflags: nat): Extent
    requires cflags == STORE || cflags == DELETE
  {
    Wanted(K(), cflags, if cflags == STORE then 95 else 0)
  }

  lemma AskedSize(cflags: nat)
    requires cflags == STORE || cflags == DELETE
    ensures WellSized(Asked(cflags)) && Asked(cflags).size == (if cflags == STORE then 128 else 35)
    ensures Asked(cflags).key == K()
    ensures Asked(cflags).deleted == (cflags == DELETE) && Asked(cflags).kind == Reserved
  {
    assert Digits(93) == Digits(9) + [3] && Digits(128) == Digits(12) + [8] && Digits(12) == Digits(1) + [2];
    WantedIsWellSized(K(), cflags, if cflags == STORE then 95 else 0);
  }

  lemma StandsStart() returns (r: Pair)
    ensures Stands(r, [], None, {})
  {
    r := Pair(Init(1024), StartSlave(1024), {});
    Runs.ReachStart(StartPair, NextPair, r);
  }

  lemma Allocates(r: Pair, xs: seq<Extent>, found: Option<nat>, done: set<nat>, cflags: nat) returns (r': Pair)
    requires Stands(r, xs, found, done) && |xs| < 7 && (cflags == STORE || cflags == DELETE)
    ensures Stands(r', xs + [Asked(cflags).(start := r.master.m.current)], found, done)
    ensures r'.master.m.current == r.master.m.current + Asked(cflags).size
  {
    AskedSize(cflags);
    ReachedHolds(r);
    AllocOne(r.master, Asked(cflags), 128 * |xs|);
    r' := EventReached(r, Write(Alloc(K(), cflags, if cflags == STORE then 95 else 0)));
  }

  /** An allocation near the start of the first lap. */
  lemma AllocOne(s: State, e: Extent, bound: nat)
    requires MasterOk(s) && !s.wrapped && s.L() == 1024 && s.m.current <= bound <= 768
    requires WellSized(e) && 0 < e.size <= 128 && e.kind == Reserved
    ensures CanAllocate(s.m) && Fits(s, e)
    ensures var s' := ApplyAlloc(s, e);
            && s'.lap == s.lap + [e.(start := s.m.current)] && !s'.wrapped && s'.m.current == s.m.current + e.size
            && s'.m.index == s.m.index && s'.L() == 1024
  {
    AllocShape(s, e);
  }

  lemma Updates(r: Pair, xs: seq<Extent>, found: Option<nat>, done: set<nat>, i: nat, op: Op) returns (r': Pair)
    requires Stands(r, xs, found, done) && i < |xs| && xs[i].key == K() && OpEnabled(xs[i], op)
    ensures Stands(r', xs[i := xs[i].(kind := OpKind(xs[i], op))], if op.Link? then Some(xs[i].start) else found, done)
    ensures r'.master.m.current == r.master.m.current
  {
    ReachedHolds(r);
    StepKeeps(r.master, Update(false, i, op));
    UpdateShape(r.master, false, i, op);
    UpdateIndexOnly(r.master, false, i, op, K());
    r' := EventReached(r, Write(Update(false, i, op)));
  }

  /** Alloc and fill. */
  lemma Begins(r: Pair, xs: seq<Extent>, found: Option<nat>, done: set<nat>, cflags: nat) returns (r': Pair, e: Extent)
    requires Stands(r, xs, found, done) && |xs| < 7 && (cflags == STORE || cflags == DELETE)
    ensures Stands(r', xs + [e], found, done) && e.key == K()
            && e.kind == (if cflags == STORE then Pending else Tombstone)
    ensures e.start == r.master.m.current && r'.master.m.current == r.master.m.current + Asked(cflags).size
  {
    AskedSize(cflags);
    var e0 := Asked(cflags).(start := r.master.m.current);
    var r1 := Allocates(r, xs, found, done, cflags);
    e := e0.(kind := if cflags == STORE then Pending else Tombstone);
    r' := Updates(r1, xs + [e0], found, done, |xs|, Fill(0));
    assert (xs + [e0])[|xs| := e] == xs + [e];
  }

  /** Link and commit. */
  lemma Completes(r: Pair, xs: seq<Extent>, found: Option<nat>, done: set<nat>, i: nat) returns (r': Pair)
    requires Stands(r, xs, found, done) && i < |xs| && xs[i].key == K() && xs[i].kind == Pending
    ensures Stands(r', xs[i := xs[i].(kind := Committed)], Some(xs[i].start), done)
    ensures r'.master.m.current == r.master.m.current
  {
    var ys := xs[i := xs[i].(kind := Linked)];
    var r1 := Updates(r, xs, found, done, i, Link(1));
    r' := Updates(r1, ys, Some(xs[i].start), done, i, Commit);
    assert ys[i := ys[i].(kind := Committed)] == xs[i := xs[i].(kind := Committed)];
  }

  /** One pull of everything, when all is finished and no delete is pending. */
  lemma PullsEverything(r: Pair, xs: seq<Extent>, found: Option<nat>, done: set<nat>) returns (r': Pair)
    requires Stands(r, xs, found, done) && forall i :: 0 <= i < |xs| ==>
               Finished(xs[i].kind) && (xs[i].kind == Tombstone ==> i in done)
    ensures Runs.Reachable(StartPair, NextPair, r') && CaughtUp(r') && NothingPending(r')
    ensures Lookup(r'.master.m.index, K()) == found && Lookup(r'.slave.data.index, K()) == LogWord(xs, done, K())
  {
    ReachedHolds(r);
    PullCatchesUp(r);
    r' := EventReached(r, PullChunk(1024));
    EventKeeps(r, PullChunk(1024));
    CaughtUpWord(r', K());
  }

  /**
   Two stores of one key, the first to take its place in the log being the last to be linked:
   the replica keeps the other value.
   */
  lemma SwappedCommitsDiverge() returns (r: Pair)
    ensures Runs.Reachable(StartPair, NextPair, r) && CaughtUp(r) && NothingPending(r)
    ensures K() in r.master.m.index && K() in r.slave.data.index && r.slave.data.index[K()] != r.master.m.index[K()]
  {
    var r0 := StandsStart();
    var r1, e0 := Begins(r0, [], None, {}, STORE);
    var r2, e1 := Begins(r1, [e0], None, {}, STORE);
    var xs := [e0, e1];
    assert [e0] + [e1] == xs;
    var r3 := Completes(r2, xs, None, {}, 1);
    var ys := xs[1 := e1.(kind := Committed)];
    var r4 := Completes(r3, ys, Some(e1.start), {}, 0);
    r := PullsEverything(r4, ys[0 := e0.(kind := Committed)], Some(e0.start), {});
  }

  /**
   A delete finds the first value of a key and writes its tombstone; a second value, whose place
   in the log is before the tombstone, is linked; the unlink misses its victim. The master
   keeps the second value, the replica has nothing.
   */
  lemma StaleDeleteDiverges() returns (r: Pair)
    ensures Runs.Reachable(StartPair, NextPair, r) && CaughtUp(r) && NothingPending(r)
    ensures K() in r.master.m.index && K() !in r.slave.data.index
  {
    var r3, c0, e1 := StoresTwice();
    var r4, e2 := Begins(r3, [c0, e1], Some(c0.start), {}, DELETE);
    assert [c0, e1] + [e2] == [c0, e1, e2];
    r := DeletesLate(r4, c0, e1, e2);
  }

  /** One value is stored, another has its place in the log. */
  lemma StoresTwice() returns (r: Pair, c0: Extent, e1: Extent)
    ensures Stands(r, [c0, e1], Some(c0.start), {}) && c0.kind == Committed && e1.kind == Pending && e1.key == K()
    ensures c0.start < e1.start
  {
    var r0 := StandsStart();
    var r1, e0 := Begins(r0, [], None, {}, STORE);
    assert [] + [e0] == [e0];
    var r2 := Completes(r1, [e0], None, {}, 0);
    c0 := e0.(kind := Committed);
    assert [e0][0 := c0] == [c0];
    r, e1 := Begins(r2, [c0], Some(c0.start), {}, STORE);
    assert [c0] + [e1] == [c0, e1];
  }

  /** The second value is linked before the delete goes on to its unlink. */
  lemma DeletesLate(r4: Pair, c0: Extent, e1: Extent, e2: Extent) returns (r: Pair)
    requires Stands(r4, [c0, e1, e2], Some(c0.start), {}) && c0.kind == Committed && c0.start < e1.start
    requires e1.kind == Pending && e1.key == K() && e2.kind == Tombstone && e2.key == K()
    ensures Runs.Reachable(StartPair, NextPair, r) && CaughtUp(r) && NothingPending(r)
    ensures K() in r.master.m.index && K() !in r.slave.data.index
  {
    var r5 := Completes(r4, [c0, e1, e2], Some(c0.start), {}, 1);
    var xs := [c0, e1, e2][1 := e1.(kind := Committed)];
    var r6 := Misses(r5, xs, Some(e1.start), 2, c0.start);
    r := PullsEverything(r6, xs, Some(e1.start), {2});
  }

  lemma Misses(r: Pair, xs: seq<Extent>, found: Option<nat>, i: nat, victim: nat) returns (r': Pair)
    requires Stands(r, xs, found, {}) && i < |xs| && xs[i].key == K() && xs[i].kind == Tombstone
             && found != Some(victim)
    ensures Stands(r', xs, found, {i})
  {
    UnlinkedIndex(r.master, K(), victim, K());
    r' := EventReached(r, Delete(i, victim));
  }

  // ------------------------------------------------- a set that gets no memory

  ghost predicate AllStored(xs: seq<Extent>) {
    forall i :: 0 <= i < |xs| ==> xs[i].kind == Committed && xs[i].key == K()
  }

  /** The first lap with n stores of the key and nothing else. */
  ghost predicate Stored(r: Pair, n: nat) {
    var xs := r.master.lap;
    && |xs| == n && AllStored(xs) && r.master.m.current == 128 * n
    && Stands(r, xs, if n == 0 then None else Some(xs[n - 1].start), {})
  }

  lemma StoresOne(r: Pair, n: nat) returns (r': Pair)
    requires Stored(r, n) && n < 7
    ensures Stored(r', n + 1)
  {
    AskedSize(STORE);
    var xs := r.master.lap;
    var found := if n == 0 then None else Some(xs[n - 1].start);
    var r1, e := Begins(r, xs, found, {}, STORE);
    r' := Completes(r1, xs + [e], found, {}, n);
    assert (xs + [e])[n := e.(kind := Committed)] == xs + [e.(kind := Committed)];
  }

  lemma {:induction false} FillsLap(r: Pair, n: nat) returns (r': Pair)
    requires Stored(r, n) && n <= 7
    ensures Stored(r', 7)
    decreases 7 - n
  {
    if n == 7 {
      r' := r;
    } else {
      r' := StoresOne(r, n);
      r' := FillsLap(r', n + 1);
    }
  }

  /** A lap that was closed by an allocation that got nothing. */
  ghost predicate NoRoom(r: Pair, n: nat) {
    var xs := r.master.prev;
    && Reached(r) && r.master.wrapped && r.master.lap == [] && r.done == {} && r.slave == StartSlave(1024)
    && |xs| == n + 1 && n > 0 && AllStored(xs[..n]) && xs[n].kind == Cycle
    && Lookup(r.master.m.index, K()) in {None, Some(xs[n - 1].start)}
  }

  lemma WrapsWithoutRoom(r: Pair) returns (r': Pair)
    requires Stored(r, 7)
    ensures NextPair(r, Write(Alloc(K(), STORE, 95)), r') && NoRoom(r', 7)
    ensures Lookup(r'.master.m.index, K()).Some?
  {
    AskedSize(STORE);
    ReachedHolds(r);
    AllocFails(r.master, Asked(STORE));
    r' := EventReached(r, Write(Alloc(K(), STORE, 95)));
    assert r'.master.prev[..7] == r.master.lap;
  }

  lemma AllocFails(s: State, e: Extent)
    requires MasterOk(s) && !s.wrapped && s.L() == 1024 && s.m.current == 896 && e.size == 128
    ensures CanAllocate(s.m) && Fits(s, e) && Wraps(s.m, e.size)
    ensures var s' := ApplyAlloc(s, e);
            && s'.wrapped && s'.lap == [] && s'.prev == s.lap + [CycleExtent(896, 128)]
            && s'.m.index == s.m.index && s'.L() == 1024
  {
  }

  lemma Forgets(r: Pair) returns (r': Pair)
    requires NoRoom(r, 7)
    ensures NextPair(r, Forget(K()), r') && NoRoom(r', 7) && K() !in r'.master.m.index
  {
    r' := EventReached(r, Forget(K()));
  }

  lemma LastStoreActs(xs: seq<Extent>, n: nat)
    requires |xs| == n + 1 && n > 0 && AllStored(xs[..n]) && xs[n].kind == Cycle
    ensures LogWord(xs, {}, K()) == Some(xs[n - 1].start)
  {
    assert xs[..n][n - 1] == xs[n - 1];
    assert Acted(xs, {}, n - 1) && xs[n - 1].key == K();
  }

  lemma PullsClosedLap(r: Pair) returns (r': Pair)
    requires NoRoom(r, 7)
    ensures NextPair(r, PullChunk(1024), r') && r'.master == r.master && CaughtUp(r') && NothingPending(r')
    ensures Runs.Reachable(StartPair, NextPair, r') && K() in r'.slave.data.index
  {
    ReachedHolds(r);
    assert forall i :: 0 <= i < 7 ==> r.master.prev[i] == r.master.prev[..7][i];
    PullCatchesUp(r);
    r' := EventReached(r, PullChunk(1024));
    EventKeeps(r, PullChunk(1024));
    LastStoreActs(r.master.prev, 7);
    CaughtUpWord(r', K());
  }

  /**
   Seven stores of a key fill the first lap. A further set finds no memory, and the master
   unlinks the key without a record: the replica, which has pulled everything, keeps it.
   */
  lemma FailedSetDiverges() returns (r0: Pair, r1: Pair, r2: Pair, r: Pair)
    ensures Runs.Reachable(StartPair, NextPair, r) && CaughtUp(r) && NothingPending(r)
    ensures NextPair(r0, Write(Alloc(K(), STORE, 95)), r1) && r1.master.lap == [] && r1.master.wrapped
    ensures NextPair(r1, Forget(K()), r2) && NextPair(r2, PullChunk(1024), r)
    ensures K() !in r.master.m.index && K() in r.slave.data.index
  {
    var start := StandsStart();
    r0 := FillsLap(start, 0);
    r1 := WrapsWithoutRoom(r0);
    r2 := Forgets(r1);
    r := PullsClosedLap(r2);
  }
}
