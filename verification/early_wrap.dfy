/**
 A run that wraps too early. On a log of 1024 bytes the writer fills a lap with records of 128
 bytes, the cleaner follows one record behind it around the second lap, and the writer is at
 the end again before the cleaner has freed the cycle record of the first lap.
 */
module EarlyWrap {
  import opened Common
  import opened Layout
  import opened MemLog
  import opened Store
  import Runs

  const SIZE: nat := 128

  /** A tombstone of 128 bytes: the flags of a delete and 93 bytes of value. */
  function Tomb(): Step {
    Alloc([ZERO], 128, 93)
  }

  function TombExtent(): Extent {
    Wanted([ZERO], 128, 93)
  }

  lemma TombSize()
    ensures TombExtent().size == SIZE && TombExtent().deleted && TombExtent().kind == Reserved
  {
    assert Digits(128) == Digits(12) + [8] && Digits(12) == Digits(1) + [2];
    assert Digits(91) == Digits(9) + [1];
  }

  ghost predicate Reached(s: State) {
    Runs.Reachable(Start, Next, s) && s.L() == 1024
  }

  lemma StepReached(s: State, step: Step) returns (s': State)
    requires Reached(s) && Enabled(s, step)
    ensures Safe(s, step) && s' == Apply(s, step) && (s'.L() == 1024 ==> Reached(s'))
    ensures Inv(s) && Inv(s')
  {
    ReachedHolds(s);
    StepKeeps(s, step);
    s' := Apply(s, step);
    Runs.ReachNext(Start, Next, s, step, s');
  }

  lemma ReachedHolds(s: State)
    requires Reached(s)
    ensures Inv(s)
  {
    InvIsInductive();
    Runs.ReachInvariant(Start, Next, Inv, s);
  }

  // ------------------------------------------------- the first lap

  ghost predicate Settling(xs: seq<Extent>, n: nat) {
    n <= |xs| && forall i :: 0 <= i < n ==> xs[i].kind == Tombstone && xs[i].size == SIZE
  }

  /** n tombstones written, nothing freed. */
  ghost predicate FirstLap(s: State, n: nat) {
    && Reached(s) && !s.wrapped && s.pc == Sleeping && s.m.freeing == 0 && s.m.current == SIZE * n
    && |s.lap| == n && Settling(s.lap, n)
  }

  lemma WriteOne(s: State, n: nat) returns (s2: State)
    requires FirstLap(s, n) && n < 7
    ensures FirstLap(s2, n + 1)
  {
    TombSize();
    ReachedHolds(s);
    var s1 := StepReached(s, Tomb());
    assert s1.lap == s.lap + [TombExtent().(start := s.m.current)];
    s2 := StepReached(s1, Update(false, n, Fill(0)));
  }

  lemma {:induction false} WriteLap(s: State, n: nat) returns (s': State)
    requires FirstLap(s, n) && n <= 7
    ensures FirstLap(s', 7)
    decreases 7 - n
  {
    if n == 7 {
      s' := s;
    } else {
      var s1 := WriteOne(s, n);
      s' := WriteLap(s1, n + 1);
    }
  }

  // ------------------------------------------------- the second lap

  /** Writer and cleaner both at 128 j, the writer a lap ahead. */
  ghost predicate SecondLap(s: State, j: nat) {
    && Reached(s) && s.wrapped && s.pc == Sleeping && s.m.current == s.m.freeing == SIZE * j
    && j <= 7 && |s.prev| == 8 - j && Settling(s.prev, 7 - j)
  }

  lemma WrapOnce(s: State) returns (s': State)
    requires FirstLap(s, 7)
    ensures SecondLap(s', 0)
  {
    TombSize();
    ReachedHolds(s);
    s' := StepReached(s, Tomb());
    assert s'.prev == s.lap + [CycleExtent(896, 128)];
  }

  /** Both counters are low, so the cleaner takes the lock. */
  lemma WakeCleaner(s: State, j: nat) returns (s': State)
    requires SecondLap(s, j)
    ensures Reached(s') && s' == s.(pc := Cleaning(0)) && Inv(s')
  {
    ReachedHolds(s);
    var s1 := StepReached(s, ReadAvail);
    var s2 := StepReached(s1, ReadFree);
    s' := StepReached(s2, Lock);
  }

  /** The cleaner frees one record. */
  lemma CleanOne(s: State, j: nat) returns (s': State)
    requires SecondLap(s, j) && j < 7
    ensures Reached(s') && s'.wrapped && s'.pc == Sleeping && s'.m.current == s.m.current
            && s'.m.freeing == s.m.freeing + SIZE
    ensures s'.prev == s.prev[1..] && s'.lap == s.lap
  {
    var s3 := WakeCleaner(s, j);
    assert s3.Oldest() == Some(s.prev[0]);
    OldestIsFreeable(s3);
    var s4 := StepReached(s3, FreeOne);
    assert s4.m.freeing == s.m.freeing + SIZE && s4.pc == Cleaning(SIZE);
    s' := StepReached(s4, Finish);
  }

  lemma GoRound(s: State, j: nat) returns (s': State)
    requires SecondLap(s, j) && j < 7
    ensures SecondLap(s', j + 1)
  {
    TombSize();
    var s1 := CleanOne(s, j);
    ReachedHolds(s1);
    s' := StepReached(s1, Tomb());
  }

  lemma {:induction false} GoOn(s: State, j: nat) returns (s': State)
    requires SecondLap(s, j) && j <= 7
    ensures SecondLap(s', 7)
    decreases 7 - j
  {
    if j == 7 {
      s' := s;
    } else {
      var s1 := GoRound(s, j);
      s' := GoOn(s1, j + 1);
    }
  }

  /**
   A reachable state in which the next allocation wraps while the cleaner is a lap behind: 896
   bytes of the second lap and the 128 of the cycle record are live, and after the
   allocation the counters are in neither of their two shapes.
   */
  lemma EarlyWrapLosesCount() returns (s: State)
    ensures Runs.Reachable(Start, Next, s) && Inv(s) && s.wrapped && s.m.current == s.m.freeing == 896
    ensures var e := TombExtent();
            && Wraps(s.m, e.size) && CanAllocate(s.m) && RingOk(s.m) && !RingOk(Allocate(s.m, e.size).0)
  {
    var s0 := Init(1024);
    Runs.ReachStart(Start, Next, s0);
    var s1 := WriteLap(s0, 0);
    var s2 := WrapOnce(s1);
    s := GoOn(s2, 0);
    ReachedHolds(s);
    TombSize();
    AccountingSurvivesIff(s, SIZE);
  }
}
