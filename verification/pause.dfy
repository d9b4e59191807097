/**
 Stopping the world (thread.c, assoc.c, items.c). The maintenance thread pauses the log
 cleaner and every worker before it swaps the hash table, and resumes them afterwards, round
 after round. Each step below is what one thread does between two points where another can
 come in.
 */
module Pause {
  import Runs

  /**
   A worker is in its event loop, has read a 'p' from its pipe, waits for worker_hang_lock, or
   holds it for an instant.
   */
  datatype Worker = Running | Told | Hanging | Passing

  /** The maintenance thread in pause_threads; `Writing(i)` has written to the first i pipes and holds init_lock. */
  datatype Coordinator = Idle | HasCleaner | HasHang | Writing(i: nat) | Waiting | Paused | Resuming

  /** The thread of a slave that replays the log; a master has none. Nothing keeps it out of the hash table. */
  datatype Replayer = Absent | Outside | InTable

  datatype Owner = Nobody | Coord | Other(w: nat)

  /**
   `pipe` counts the 'p' bytes in each worker's pipe; `registered` counts registrations since
   init_count was last reset.
   */
  datatype State = State(workers: seq<Worker>, pipe: seq<nat>, coord: Coordinator, hang: Owner, cleaner: Owner,
                         initCount: nat, registered: seq<nat>, replayer: Replayer)

  datatype Step =
    | Work(w: nat)        // a worker serves a request, and may use the hash table
    | Read(w: nat)        // a worker reads the 'p'
    | Register(w: nat)    // register_thread_initialized up to the unlock of init_lock
    | Acquire(w: nat)     // pthread_mutex_lock(&worker_hang_lock) by a worker
    | Pass(w: nat)        // and its unlock
    | CleanerTakes | CleanerLeaves
    | ReplayEnters | ReplayLeaves   // do_store_replication around assoc_find, do_item_link and item_replace
    | PauseCleaner        // lru_maintainer_pause
    | TakeHang            // pthread_mutex_lock(&worker_hang_lock) by the maintenance thread
    | Reset               // init_lock taken, init_count = 0
    | Notify              // one write to a pipe
    | WaitAll             // the last write is done: wait_for_thread_registration
    | Proceed             // init_count has reached the number of workers
    | ResumeCleaner
    | ReleaseHang

  predicate Is(st: State, w: nat, pc: Worker) {
    w < |st.workers| == |st.pipe| == |st.registered| && st.workers[w] == pc
  }

  predicate Enabled(st: State, step: Step) {
    match step
    case Work(w) => Is(st, w, Running)
    case Read(w) => Is(st, w, Running) && st.pipe[w] > 0
    case Register(w) => Is(st, w, Told) && !st.coord.Writing?
    case Acquire(w) => Is(st, w, Hanging) && st.hang == Nobody
    case Pass(w) => Is(st, w, Passing)
    case CleanerTakes => st.cleaner == Nobody
    case CleanerLeaves => st.cleaner.Other?
    case ReplayEnters => st.replayer == Outside
    case ReplayLeaves => st.replayer == InTable
    case PauseCleaner => st.coord == Idle && st.cleaner == Nobody
    case TakeHang => st.coord == HasCleaner && st.hang == Nobody
    case Reset => st.coord == HasHang
    case Notify => st.coord.Writing? && st.coord.i < |st.pipe|
    case WaitAll => st.coord.Writing? && st.coord.i == |st.pipe|
    case Proceed => st.coord == Waiting && st.initCount >= |st.workers|
    case ResumeCleaner => st.coord == Paused
    case ReleaseHang => st.coord == Resuming
  }

  function Apply(st: State, step: Step): State
    requires Enabled(st, step)
  {
    match step
    case Work(w) => st
    case Read(w) => st.(workers := st.workers[w := Told], pipe := st.pipe[w := st.pipe[w] - 1])
    case Register(w) =>
      st.(workers := st.workers[w := Hanging], initCount := st.initCount + 1,
          registered := st.registered[w := st.registered[w] + 1])
    case Acquire(w) => st.(workers := st.workers[w := Passing], hang := Other(w))
    case Pass(w) => st.(workers := st.workers[w := Running], hang := Nobody)
    case CleanerTakes => st.(cleaner := Other(0))
    case CleanerLeaves => st.(cleaner := Nobody)
    case ReplayEnters => st.(replayer := InTable)
    case ReplayLeaves => st.(replayer := Outside)
    case PauseCleaner => st.(coord := HasCleaner, cleaner := Coord)
    case TakeHang => st.(coord := HasHang, hang := Coord)
    case Reset => st.(coord := Writing(0), initCount := 0, registered := seq(|st.registered|, _ => 0))
    case Notify => st.(coord := Writing(st.coord.i + 1), pipe := st.pipe[st.coord.i := st.pipe[st.coord.i] + 1])
    case WaitAll => st.(coord := Waiting)
    case Proceed => st.(coord := Paused)
    case ResumeCleaner => st.(coord := Resuming, cleaner := Nobody)
    case ReleaseHang => st.(coord := Idle, hang := Nobody)
  }

  // ------------------------------------------------- the invariant

  function Sum(s: seq<nat>): nat {
    if s == [] then 0 else s[|s| - 1] + Sum(s[..|s| - 1])
  }

  lemma {:induction false} SumUpdate(s: seq<nat>, w: nat, x: nat)
    requires w < |s|
    ensures Sum(s[w := x]) == Sum(s) - s[w] + x
  {
    var n := |s| - 1;
    if w == n {
      assert s[w := x][..n] == s[..n];
    } else {
      SumUpdate(s[..n], w, x);
      assert s[w := x][..n] == s[..n][w := x];
    }
  }

  lemma {:induction false} SumZeros(n: nat)
    ensures Sum(seq(n, _ => 0)) == 0
  {
    if n > 0 {
      assert seq(n, _ => 0)[..n - 1] == seq(n - 1, _ => 0);
      SumZeros(n - 1);
    }
  }

  /** n numbers of at most 1 that add up to at least n are all 1. */
  lemma {:induction false} SumFull(s: seq<nat>, w: nat)
    requires w < |s| && (forall i :: 0 <= i < |s| ==> s[i] <= 1) && Sum(s) >= |s|
    ensures s[w] == 1
  {
    SumAtMost(s);
    if s[w] == 0 {
      SumUpdate(s, w, 1);
      SumAtMost(s[w := 1]);
    }
  }

  lemma {:induction false} SumAtMost(s: seq<nat>)
    requires forall i :: 0 <= i < |s| ==> s[i] <= 1
    ensures Sum(s) <= |s|
  {
    if s != [] {
      SumAtMost(s[..|s| - 1]);
    }
  }

  /** A round is on: init_count counts this round's registrations. */
  predicate InRound(c: Coordinator) {
    c.Writing? || c.Waiting? || c.Paused? || c.Resuming?
  }

  /** How many bytes of this round have been written to worker w's pipe. */
  function Sent(st: State, w: nat): nat {
    match st.coord
    case Writing(i) => if w < i then 1 else 0
    case _ => if InRound(st.coord) then 1 else 0
  }

  predicate WorkerOk(st: State, w: nat)
    requires w < |st.workers| == |st.pipe| == |st.registered|
  {
    var told := if st.workers[w].Told? then 1 else 0;
    && (st.workers[w].Passing? <==> st.hang == Other(w))
    && (if InRound(st.coord) then
          st.pipe[w] + told + st.registered[w] == Sent(st, w) && (st.registered[w] == 1 ==> st.workers[w].Hanging?)
        else st.pipe[w] + told == 0)
  }

  ghost predicate Inv(st: State) {
    && |st.workers| == |st.pipe| == |st.registered|
    && (st.coord.Writing? ==> st.coord.i <= |st.workers|)
    && (st.hang == Coord <==> st.coord == HasHang || InRound(st.coord))
    && (st.cleaner == Coord <==>
          st.coord == HasCleaner || st.coord == HasHang || (InRound(st.coord) && !st.coord.Resuming?))
    && (InRound(st.coord) ==> st.initCount == Sum(st.registered))
    && (st.coord.Paused? || st.coord.Resuming? ==> AllIn(st))
    && (forall w {:trigger WorkerOk(st, w)} :: 0 <= w < |st.workers| ==> WorkerOk(st, w))
  }

  ghost predicate AllIn(st: State) {
    |st.workers| == |st.registered| && forall w :: 0 <= w < |st.workers| ==> st.registered[w] == 1
  }

  lemma WorkerStepKeeps(st: State, step: Step)
    requires Inv(st) && Enabled(st, step) && (step.Work? || step.Read? || step.Register? || step.Acquire? || step.Pass?)
    ensures Inv(Apply(st, step))
  {
    var st' := Apply(st, step);
    if step.Register? {
      SumUpdate(st.registered, step.w, st.registered[step.w] + 1);
    }
    forall w | 0 <= w < |st.workers|
      ensures WorkerOk(st', w)
    {
      assert WorkerOk(st, step.w) && WorkerOk(st, w);
    }
    assert WorkerOk(st, step.w);
  }

  lemma CoordinatorStepKeeps(st: State, step: Step)
    requires Inv(st) && Enabled(st, step)
             && !(step.Work? || step.Read? || step.Register? || step.Acquire? || step.Pass?)
    ensures Inv(Apply(st, step))
  {
    var st' := Apply(st, step);
    if step.Reset? {
      SumZeros(|st.registered|);
    }
    if step.Proceed? {
      ProceedMeansAllIn(st);
    }
    forall w | 0 <= w < |st.workers|
      ensures WorkerOk(st', w)
    {
      assert WorkerOk(st, w);
    }
  }

  lemma ProceedMeansAllIn(st: State)
    requires Inv(st) && Enabled(st, Proceed)
    ensures AllIn(st)
  {
    forall w | 0 <= w < |st.workers|
      ensures st.registered[w] <= 1
    {
      assert WorkerOk(st, w);
    }
    forall w | 0 <= w < |st.workers|
      ensures st.registered[w] == 1
    {
      SumFull(st.registered, w);
    }
  }

  lemma StepKeeps(st: State, step: Step)
    requires Inv(st) && Enabled(st, step)
    ensures Inv(Apply(st, step))
  {
    if step.Work? || step.Read? || step.Register? || step.Acquire? || step.Pass? {
      WorkerStepKeeps(st, step);
    } else {
      CoordinatorStepKeeps(st, step);
    }
  }

  // ------------------------------------------------- every run

  /** After start-up: nobody paused, no 'p' in a pipe; a worker may still have to pass worker_hang_lock. */
  ghost predicate Start(st: State) {
    && |st.workers| == |st.pipe| == |st.registered| && st.coord == Idle && st.hang == Nobody && st.cleaner == Nobody
    && st.replayer != InTable
    && forall w :: 0 <= w < |st.workers| ==> st.pipe[w] == 0 && (st.workers[w].Running? || st.workers[w].Hanging?)
  }

  ghost predicate Next(st: State, step: Step, st': State) {
    Enabled(st, step) && st' == Apply(st, step)
  }

  lemma InvIsInductive()
    ensures forall s :: Start(s) ==> Inv(s)
    ensures forall s, step, s' :: Inv(s) && Next(s, step, s') ==> Inv(s')
  {
    forall s, step, s' | Inv(s) && Next(s, step, s')
      ensures Inv(s')
    {
      StepKeeps(s, step);
    }
  }

  lemma RunKeeps(states: seq<State>, steps: seq<Step>, n: nat)
    requires Runs.IsRun(Start, Next, states, steps) && n < |states|
    ensures Inv(states[n])
  {
    InvIsInductive();
    Runs.Invariance(Start, Next, Inv, states, steps, n);
  }

  /**
   When a pause has returned, in whatever round, every worker has registered exactly once in
   this round and stands at worker_hang_lock, which the maintenance thread holds; the cleaner
   is locked out; and the only step anyone can take is the maintenance thread's resume, but for
   the replication thread of a slave. So the table is swapped with no worker and no cleaner
   running.
   */
  lemma TableSwapIsAlone(states: seq<State>, steps: seq<Step>, n: nat, step: Step)
    requires Runs.IsRun(Start, Next, states, steps) && n < |states| && states[n].coord == Paused
    ensures var st := states[n];
            && AllIn(st) && st.hang == Coord && st.cleaner == Coord
            && (forall w :: 0 <= w < |st.workers| ==> st.workers[w] == Hanging)
            && (Enabled(st, step) ==> step == ResumeCleaner || step == ReplayEnters || step == ReplayLeaves)
  {
    RunKeeps(states, steps, n);
    var st := states[n];
    forall w | 0 <= w < |st.workers|
      ensures st.workers[w] == Hanging
    {
      assert WorkerOk(st, w);
    }
  }

  lemma ReplayerStays(states: seq<State>, steps: seq<Step>, n: nat)
    requires Runs.IsRun(Start, Next, states, steps) && n < |states|
    ensures states[n].replayer == Absent <==> states[0].replayer == Absent
  {
    var master := states[0].replayer == Absent;
    Runs.Invariance((st: State) => st == states[0], Next, (st: State) => st.replayer == Absent <==> master,
                    states, steps, n);
  }

  /** The swap is alone exactly on a process without a replication thread. */
  lemma SwapAloneIff(states: seq<State>, steps: seq<Step>, n: nat)
    requires Runs.IsRun(Start, Next, states, steps) && n < |states| && states[n].coord == Paused
    ensures (forall step :: Enabled(states[n], step) ==> step == ResumeCleaner) <==> states[0].replayer == Absent
  {
    ReplayerStays(states, steps, n);
    var st := states[n];
    forall step | Enabled(st, step)
      ensures step == ResumeCleaner || step == ReplayEnters || step == ReplayLeaves
    {
      TableSwapIsAlone(states, steps, n, step);
    }
    assert st.replayer == Outside ==> Enabled(st, ReplayEnters);
    assert st.replayer == InTable ==> Enabled(st, ReplayLeaves);
  }

  // ------------------------------------------------- when a pause returns at all

  ghost predicate CanRun(st: State, steps: seq<Step>)
    decreases steps
  {
    steps != [] ==> Enabled(st, steps[0]) && CanRun(Apply(st, steps[0]), steps[1..])
  }

  ghost function Exec(st: State, steps: seq<Step>): State
    requires CanRun(st, steps)
    decreases steps
  {
    if steps == [] then st else Exec(Apply(st, steps[0]), steps[1..])
  }

  /** A worker that was still waiting for worker_hang_lock when it was taken again, and has not registered since. */
  predicate LeftBehind(st: State, w: nat) {
    && Is(st, w, Hanging) && (st.coord == HasHang || st.coord.Writing? || st.coord.Waiting?)
    && (st.coord != HasHang ==> st.registered[w] == 0)
  }

  lemma LeftBehindStays(st: State, step: Step, w: nat)
    requires Inv(st) && LeftBehind(st, w) && Enabled(st, step)
    ensures LeftBehind(Apply(st, step), w)
  {
    if step.Proceed? {
      ProceedMeansAllIn(st);
      assert false;
    }
  }

  lemma {:induction false} NeverReturns(st: State, steps: seq<Step>, w: nat)
    requires Inv(st) && LeftBehind(st, w) && CanRun(st, steps)
    ensures LeftBehind(Exec(st, steps), w)
    decreases steps
  {
    if steps != [] {
      StepKeeps(st, steps[0]);
      LeftBehindStays(st, steps[0], w);
      NeverReturns(Apply(st, steps[0]), steps[1..], w);
    }
  }

  /** A pause that has not returned, and no worker left behind. */
  ghost predicate OnTrack(st: State) {
    && Inv(st) && (st.coord == HasHang || st.coord.Writing? || st.coord.Waiting?)
    && forall w: nat {:trigger LeftBehind(st, w)} :: !LeftBehind(st, w)
  }

  lemma OnTrackStays(st: State, step: Step)
    requires OnTrack(st) && Enabled(st, step) && step != Proceed
    ensures OnTrack(Apply(st, step))
  {
    StepKeeps(st, step);
    var st' := Apply(st, step);
    forall w: nat
      ensures !LeftBehind(st', w)
    {
      assert !LeftBehind(st, w);
      if w < |st.workers| {
        assert WorkerOk(st, w);
      }
    }
  }

  lemma {:induction false} OnTrackLater(st: State, steps: seq<Step>)
    requires OnTrack(st) && CanRun(st, steps) && Proceed !in steps
    ensures OnTrack(Exec(st, steps))
    decreases steps
  {
    if steps != [] {
      OnTrackStays(st, steps[0]);
      OnTrackLater(Apply(st, steps[0]), steps[1..]);
    }
  }

  lemma {:induction false} SumOnes(s: seq<nat>)
    requires forall i :: 0 <= i < |s| ==> s[i] == 1
    ensures Sum(s) == |s|
  {
    if s != [] {
      SumOnes(s[..|s| - 1]);
    }
  }

  ghost predicate CanReturn(st: State) {
    exists steps :: CanRun(st, steps) && Exec(st, steps).coord == Paused
  }

  lemma ReturnAfter(st: State, a: Step)
    requires Enabled(st, a) && CanReturn(Apply(st, a))
    ensures CanReturn(st)
  {
    var rest :| CanRun(Apply(st, a), rest) && Exec(Apply(st, a), rest).coord == Paused;
    assert ([a] + rest)[1..] == rest;
    assert CanRun(st, [a] + rest) && Exec(st, [a] + rest).coord == Paused;
  }

  /** The workers before w have registered. */
  ghost predicate RegisteredTo(st: State, w: nat) {
    OnTrack(st) && st.coord == Waiting && w <= |st.workers| && forall x :: 0 <= x < w ==> st.registered[x] == 1
  }

  lemma {:induction false} RegisterAll(st: State, w: nat)
    requires RegisteredTo(st, w)
    ensures CanReturn(st)
    decreases |st.workers| - w
  {
    if w == |st.workers| {
      SumOnes(st.registered);
      assert Exec(Apply(st, Proceed), []).coord == Paused;
      ReturnAfter(st, Proceed);
    } else {
      assert WorkerOk(st, w) && !LeftBehind(st, w);
      if st.registered[w] == 1 {
        RegisterAll(st, w + 1);
      } else if st.workers[w] == Told {
        RegisterOne(st, w);
      } else {
        OnTrackStays(st, Read(w));
        RegisterOne(Apply(st, Read(w)), w);
        ReturnAfter(st, Read(w));
      }
    }
  }

  lemma {:induction false} RegisterOne(st: State, w: nat)
    requires RegisteredTo(st, w) && w < |st.workers| && st.workers[w] == Told
    ensures CanReturn(st)
    decreases |st.workers| - w, 0
  {
    assert WorkerOk(st, w);
    OnTrackStays(st, Register(w));
    RegisterAll(Apply(st, Register(w)), w + 1);
    ReturnAfter(st, Register(w));
  }

  lemma {:induction false} NotifyAll(st: State)
    requires OnTrack(st) && st.coord.Writing?
    ensures CanReturn(st)
    decreases |st.workers| - st.coord.i
  {
    var first := if st.coord.i == |st.workers| then WaitAll else Notify;
    OnTrackStays(st, first);
    if first == WaitAll {
      RegisterAll(Apply(st, first), 0);
    } else {
      NotifyAll(Apply(st, first));
    }
    ReturnAfter(st, first);
  }

  lemma OnTrackReturns(st: State)
    requires OnTrack(st)
    ensures CanReturn(st)
  {
    if st.coord == HasHang {
      OnTrackStays(st, Reset);
      NotifyAll(Apply(st, Reset));
      ReturnAfter(st, Reset);
    } else if st.coord.Writing? {
      NotifyAll(st);
    } else {
      RegisterAll(st, 0);
    }
  }

  ghost predicate NoneBehind(st: State) {
    forall w :: 0 <= w < |st.workers| ==> st.workers[w] == Running
  }

  /**
   A pause that has just taken worker_hang_lock can return exactly when no worker is still
   waiting for that lock from the round before. The condition is the state of the workers
   when the lock is taken; if it fails, no continuation ever gets to Paused.
   */
  lemma PauseReturnsIff(st: State)
    requires Inv(st) && st.coord == HasHang
    ensures NoneBehind(st) <==> CanReturn(st)
  {
    if NoneBehind(st) {
      OnTrackReturns(st);
    } else {
      var w :| 0 <= w < |st.workers| && st.workers[w] != Running;
      assert WorkerOk(st, w);
      forall steps | CanRun(st, steps)
        ensures Exec(st, steps).coord != Paused
      {
        NeverReturns(st, steps, w);
      }
    }
  }

  /** And then it cannot get stuck: whatever has happened since, short of its return, it can still return. */
  lemma PauseNeverStuck(st: State, steps: seq<Step>)
    requires Inv(st) && st.coord == HasHang && NoneBehind(st) && CanRun(st, steps) && Proceed !in steps
    ensures CanReturn(Exec(st, steps))
  {
    OnTrackLater(st, steps);
    OnTrackReturns(Exec(st, steps));
  }

  // ------------------------------------------------- a run that is stuck

  ghost predicate Reached(st: State) {
    Runs.Reachable(Start, Next, st)
  }

  lemma StepReached(st: State, step: Step, st': State)
    requires Reached(st) && Enabled(st, step) && st' == Apply(st, step)
    ensures Reached(st')
  {
    Runs.ReachNext(Start, Next, st, step, st');
  }

  lemma ReachedHolds(st: State)
    requires Reached(st)
    ensures Inv(st)
  {
    InvIsInductive();
    Runs.ReachInvariant(Start, Next, Inv, st);
  }

  /** One worker, told to pause. */
  lemma OnePauses(st0: State, rp: Replayer) returns (st: State)
    requires Reached(st0) && st0 == State([Running], [0], Idle, Nobody, Nobody, 0, [0], rp)
    ensures Reached(st) && st == State([Running], [1], Waiting, Coord, Coord, 0, [0], rp)
  {
    var st1 := st0.(coord := HasCleaner, cleaner := Coord);
    StepReached(st0, PauseCleaner, st1);
    var st2 := st1.(coord := HasHang, hang := Coord);
    StepReached(st1, TakeHang, st2);
    var st3 := st2.(coord := Writing(0));
    assert seq(1, _ => 0) == [0];
    StepReached(st2, Reset, st3);
    var st4 := st3.(coord := Writing(1), pipe := [1]);
    StepReached(st3, Notify, st4);
    st := st4.(coord := Waiting);
    StepReached(st4, WaitAll, st);
  }

  /** It registers, and the pause returns. */
  lemma OneRegisters(st0: State, rp: Replayer) returns (st: State)
    requires Reached(st0) && st0 == State([Running], [1], Waiting, Coord, Coord, 0, [0], rp)
    ensures Reached(st) && st == State([Hanging], [0], Paused, Coord, Coord, 1, [1], rp)
  {
    var st1 := st0.(workers := [Told], pipe := [0]);
    StepReached(st0, Read(0), st1);
    var st2 := st1.(workers := [Hanging], initCount := 1, registered := [1]);
    StepReached(st1, Register(0), st2);
    st := st2.(coord := Paused);
    StepReached(st2, Proceed, st);
  }

  /** It is resumed; the worker has not passed the lock yet. */
  lemma OneResumes(st0: State) returns (st: State)
    requires Reached(st0) && st0 == State([Hanging], [0], Paused, Coord, Coord, 1, [1], Absent)
    ensures Reached(st) && st == State([Hanging], [0], Idle, Nobody, Nobody, 1, [1], Absent)
  {
    var st1 := st0.(coord := Resuming, cleaner := Nobody);
    StepReached(st0, ResumeCleaner, st1);
    st := st1.(coord := Idle, hang := Nobody);
    StepReached(st1, ReleaseHang, st);
  }

  /** A slave with one worker: its replication thread is in the hash table while it is swapped. */
  lemma ReplayDuringSwap() returns (st: State)
    ensures Reached(st) && st.coord == Paused && st.replayer == InTable
  {
    var st0 := State([Running], [0], Idle, Nobody, Nobody, 0, [0], Outside);
    Runs.ReachStart(Start, Next, st0);
    var st1 := OnePauses(st0, Outside);
    var st2 := OneRegisters(st1, Outside);
    st := st2.(replayer := InTable);
    StepReached(st2, ReplayEnters, st);
  }

  /**
   One worker. The first round pauses and resumes it; before it has passed the lock, the
   maintenance thread has taken the lock again, and will wait for it for ever.
   */
  lemma SecondPauseStuck() returns (st: State)
    ensures Reached(st) && st.coord == HasHang && st.workers == [Hanging] && !CanReturn(st)
  {
    var st0 := State([Running], [0], Idle, Nobody, Nobody, 0, [0], Absent);
    Runs.ReachStart(Start, Next, st0);
    var st1 := OnePauses(st0, Absent);
    var st2 := OneRegisters(st1, Absent);
    var st3 := OneResumes(st2);
    st := PausesAgain(st3);
  }

  /** Also in the first round, when the worker has not passed the lock since start-up. */
  lemma FirstPauseStuck() returns (st: State)
    ensures Reached(st) && st.coord == HasHang && st.workers == [Hanging] && !CanReturn(st)
  {
    var st0 := State([Hanging], [0], Idle, Nobody, Nobody, 1, [1], Absent);
    Runs.ReachStart(Start, Next, st0);
    st := PausesAgain(st0);
  }

  lemma PausesAgain(st0: State) returns (st: State)
    requires Reached(st0) && st0 == State([Hanging], [0], Idle, Nobody, Nobody, 1, [1], Absent)
    ensures Reached(st) && st.coord == HasHang && st.workers == [Hanging] && !CanReturn(st)
  {
    var st1 := st0.(coord := HasCleaner, cleaner := Coord);
    StepReached(st0, PauseCleaner, st1);
    st := st1.(coord := HasHang, hang := Coord);
    StepReached(st1, TakeHang, st);
    ReachedHolds(st);
    assert st.workers[0] != Running;
    PauseReturnsIff(st);
  }
}
