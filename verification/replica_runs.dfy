/**
 Master and slave together, over one lap of the log (no record is reclaimed): the writers
 of Store on the master, pulls of any size on the slave, in any interleaving.
 */
module ReplicaRuns {
  import opened Layout
  import opened MemLog
  import opened Store
  import opened Replication
  import Runs

  // ------------------------------------------------- indexes as folds of effects

  /** A change to a key index. */
  datatype Effect = Put(key: seq<Cell>, at: nat) | Remove(key: seq<Cell>)

  function Act(ix: map<seq<Cell>, nat>, e: Effect): map<seq<Cell>, nat> {
    match e
    case Put(k, p) => ix[k := p]
    case Remove(k) => ix - {k}
  }

  function Fold(es: seq<Effect>): map<seq<Cell>, nat> {
    if es == [] then map[] else Act(Fold(es[..|es| - 1]), es[|es| - 1])
  }

  lemma FoldSnoc(es: seq<Effect>, e: Effect)
    ensures Fold(es + [e]) == Act(Fold(es), e)
  {
    assert (es + [e])[..|es|] == es;
  }

  /** What a finished record of the log stands for. */
  function EffectOf(e: Extent): seq<Effect> {
    match e.kind
    case Committed => [Put(e.key, e.start)]
    case Tombstone => [Remove(e.key)]
    case _ => []
  }

  function Effects(xs: seq<Extent>): seq<Effect> {
    if xs == [] then [] else Effects(xs[..|xs| - 1]) + EffectOf(xs[|xs| - 1])
  }

  lemma EffectsSnoc(xs: seq<Extent>, n: nat)
    requires n < |xs|
    ensures Effects(xs[..n + 1]) == Effects(xs[..n]) + EffectOf(xs[n])
  {
    assert xs[..n + 1][..n] == xs[..n];
  }

  /** What a record does to the index. */
  function Acts(ix: map<seq<Cell>, nat>, e: Extent): map<seq<Cell>, nat> {
    match e.kind
    case Committed => ix[e.key := e.start]
    case Tombstone => ix - {e.key}
    case _ => ix
  }

  lemma FoldEffect(es: seq<Effect>, e: Extent)
    ensures Fold(es + EffectOf(e)) == Acts(Fold(es), e)
  {
    match e.kind
    case Committed => FoldSnoc(es, Put(e.key, e.start));
    case Tombstone => FoldSnoc(es, Remove(e.key));
    case _ => assert es + [] == es;
  }

  lemma FoldNext(xs: seq<Extent>, n: nat)
    requires n < |xs|
    ensures Fold(Effects(xs[..n + 1])) == Acts(Fold(Effects(xs[..n])), xs[n])
  {
    EffectsSnoc(xs, n);
    FoldEffect(Effects(xs[..n]), xs[n]);
  }

  // ------------------------------------------------- the combined system

  /** `done` has the places in the lap of the tombstones whose delete has gone on to its unlink. */
  datatype Pair = Pair(master: State, slave: Slave, done: set<nat>)

  datatype Event =
    | Write(step: Step)                 // an allocation or a write to a record on the master
    | Delete(i: nat, victim: nat)       // process_delete_command unlinks the item it had found; a store
                                        // whose flags have bit 7 wrote a tombstone and may unlink nothing
    | Forget(gone: seq<Cell>)           // an unlink without a record: a set without memory, expiry, flush_all
    | PullChunk(stop: nat)              // one round of the slave

  /** The records of the lap, in log order. */
  function Lap(s: State): seq<Extent> {
    if s.wrapped then s.prev else s.lap
  }

  function LapEnd(s: State): nat {
    if s.wrapped then s.L() else s.m.current
  }

  ghost predicate EventEnabled(r: Pair, ev: Event) {
    match ev
    case Write(step) => (step.Alloc? || step.Update?) && Enabled(r.master, step) && Safe(r.master, step)
    case Delete(i, victim) => i < |Lap(r.master)| && Lap(r.master)[i].kind == Tombstone && i !in r.done
    case Forget(_) => true
    case PullChunk(stop) =>
      !r.slave.at.lapped && r.slave.Offset() <= stop <= r.master.L() == |r.slave.Log()|
  }

  /** do_item_unlink of the item at `victim`, if it is still the one that is linked. */
  function Unlinked(s: State, k: seq<Cell>, victim: nat): State {
    if k in s.m.index && s.m.index[k] == victim then s.(m := s.m.(index := s.m.index - {k})) else s
  }

  ghost function ApplyEvent(r: Pair, ev: Event): Pair
    requires EventEnabled(r, ev)
  {
    match ev
    case Write(step) => r.(master := Apply(r.master, step))
    case Delete(i, victim) =>
      r.(master := Unlinked(r.master, Lap(r.master)[i].key, victim), done := r.done + {i})
    case Forget(k) => r.(master := Apply(r.master, Unlink(k)))
    case PullChunk(stop) => r.(slave := Pull(r.slave, r.master.m.log, stop))
  }

  // ------------------------------------------------- the invariant

  predicate Finished(k: Kind) {
    k == Committed || k == Corrupt || k == Tombstone
  }

  /** The copy of the record is exact, but for the CAS id, which the slave draws itself. */
  ghost predicate Mirrors(m: seq<Cell>, sl: seq<Cell>, e: Extent) {
    |m| == |sl| && forall c :: e.start <= c < e.End() && c != e.start + HEADER && c < |m| ==> m[c] == sl[c]
  }

  function Boundary(xs: seq<Extent>, n: nat, hi: nat): nat {
    if n < |xs| then xs[n].start else hi
  }

  ghost predicate MasterOk(s: State) {
    Inv(s) && s.m.freeing == 0 && s.pc == Sleeping
  }

  ghost predicate SeenOk(s: State, log: seq<Cell>, n: nat) {
    && n <= |Lap(s)|
    && forall i {:trigger Mirrors(s.m.log, log, Lap(s)[i])} :: 0 <= i < n ==>
         Finished(Lap(s)[i].kind) && Mirrors(s.m.log, log, Lap(s)[i])
  }

  ghost predicate SlaveOk(s: State, sl: Slave) {
    && |sl.Log()| == s.L()
    && SeenOk(s, sl.Log(), sl.at.seen)
    && sl.data.index == Fold(Effects(Lap(s)[..sl.at.seen]))
    && if sl.at.lapped then s.wrapped && sl.at.seen == |s.prev| - 1
       else InStep(sl) && sl.Offset() == Boundary(Lap(s), sl.at.seen, LapEnd(s))
  }

  ghost predicate DoneOk(s: State, done: set<nat>) {
    forall i :: i in done ==> i < |Lap(s)| && Lap(s)[i].kind == Tombstone
  }

  ghost predicate PairInv(r: Pair) {
    MasterOk(r.master) && SlaveOk(r.master, r.slave) && DoneOk(r.master, r.done)
  }

  lemma {:induction false} TilesNext(xs: seq<Extent>, lo: nat, hi: nat, n: nat)
    requires Tiles(xs, lo, hi) && n < |xs|
    ensures xs[n].End() == Boundary(xs, n + 1, hi)
  {
    if n == 0 {
      assert |xs| > 1 ==> xs[1..][0] == xs[1];
    } else {
      TilesNext(xs[1..], xs[0].End(), hi, n - 1);
    }
  }

  // ------------------------------------------------- what the slave finds at its offset

  /** A stored cell at the offset is the header of the next record of the lap. */
  lemma NextRecord(s: State, sl: Slave)
    requires MasterOk(s) && SlaveOk(s, sl) && !sl.at.lapped && sl.Offset() < s.L()
    requires Item(s.m.log, sl.Offset()).flags.stored
    ensures sl.at.seen < |Lap(s)| && Lap(s)[sl.at.seen].start == sl.Offset()
    ensures var e := Lap(s)[sl.at.seen];
            && RecordOk(s.m.log, e) && Item(s.m.log, e.start).flags == FlagsOf(e.kind)
            && e.End() == Boundary(Lap(s), sl.at.seen + 1, LapEnd(s))
            && (e.kind == Cycle ==> s.wrapped && sl.at.seen == |s.prev| - 1)
  {
    var xs, n := Lap(s), sl.at.seen;
    assert n < |xs|;
    assert RecordOk(s.m.log, if s.wrapped then s.prev[n] else s.lap[n]);
    TilesNext(xs, 0, LapEnd(s), n);
  }

  ghost predicate Copied(s: State, sl: Slave, stop: nat) {
    sl.Offset() <= stop <= s.L() == |sl.Log()| && forall c :: sl.Offset() <= c < stop ==> sl.Log()[c] == s.m.log[c]
  }

  /** What the slave reads at its offset is the next record of the lap. */
  ghost predicate Reads(s: State, sl: Slave) {
    && sl.at.seen < |Lap(s)| && sl.Offset() < |sl.Log()|
    && var e := Lap(s)[sl.at.seen];
       && e.start == sl.Offset() && e.End() == Boundary(Lap(s), sl.at.seen + 1, LapEnd(s)) && Finished(e.kind)
       && e.size == NTotal(Item(sl.Log(), sl.Offset())) && KeyAt(sl.Log(), sl.Offset()) == e.key
       && Item(sl.Log(), sl.Offset()).flags == FlagsOf(e.kind)
       && HEADER < e.size
  }

  /** The slave reads from its copy exactly the record that the master wrote. */
  lemma CopyReads(s: State, sl: Slave, stop: nat)
    requires MasterOk(s) && SlaveOk(s, sl) && !sl.at.lapped && Copied(s, sl, stop) && TakesRecord(sl, stop)
    ensures Reads(s, sl)
  {
    NextRecord(s, sl);
    ReadsRecord(s, sl, stop, Lap(s)[sl.at.seen]);
  }

  lemma ReadsRecord(s: State, sl: Slave, stop: nat, e: Extent)
    requires Copied(s, sl, stop) && TakesRecord(sl, stop) && e.start == sl.Offset()
    requires RecordOk(s.m.log, e) && Item(s.m.log, e.start).flags == FlagsOf(e.kind)
    ensures Finished(e.kind) && HEADER < e.size == NTotal(Item(sl.Log(), sl.Offset()))
    ensures KeyAt(sl.Log(), sl.Offset()) == e.key && Item(sl.Log(), sl.Offset()).flags == FlagsOf(e.kind)
  {
    SelfDescribing(s.m.log, e);
    var kp := KeyPos(sl.Log(), e.start);
    CopiedSlice(s, sl, stop, kp, kp + |e.key|);
  }

  lemma CopiedSlice(s: State, sl: Slave, stop: nat, lo: nat, hi: nat)
    requires Copied(s, sl, stop) && sl.Offset() <= lo <= hi <= stop
    ensures sl.Log()[lo..hi] == s.m.log[lo..hi]
  {
  }

  lemma TakeIndex(xs: seq<Extent>, n: nat, d: Data, p: nat)
    requires n < |xs| && p + MIN_ITEM <= |d.log| && d.index == Fold(Effects(xs[..n]))
    requires Finished(xs[n].kind) && xs[n].start == p && KeyAt(d.log, p) == xs[n].key
             && Item(d.log, p).flags == FlagsOf(xs[n].kind)
    ensures Absorb(d, p).index == Fold(Effects(xs[..n + 1]))
  {
    FoldNext(xs, n);
  }

  /**
   Copies of earlier records survive a write at or after `p`; one that starts there stays exact
   but for its CAS id.
   */
  lemma SeenGrows(s: State, log: seq<Cell>, log': seq<Cell>, n: nat, p: nat)
    requires Tiles(Lap(s), 0, LapEnd(s)) && SeenOk(s, log, n) && n < |Lap(s)| && p == Lap(s)[n].start
    requires |log'| == |log| == s.L() && forall c :: 0 <= c < |log| && c != p + HEADER ==> log[c] == log'[c]
    requires Finished(Lap(s)[n].kind) && Mirrors(s.m.log, log, Lap(s)[n])
    ensures SeenOk(s, log', n + 1)
  {
    var xs := Lap(s);
    TilesOrdered(xs, 0, LapEnd(s));
    forall i | 0 <= i < n + 1
      ensures Finished(xs[i].kind) && Mirrors(s.m.log, log', xs[i])
    {
      assert Mirrors(s.m.log, log, xs[i]);
    }
  }

  /** One turn of the replay loop takes the slave past one more record of the lap. */
  lemma TakeKeeps(s: State, sl: Slave, stop: nat)
    requires MasterOk(s) && SlaveOk(s, sl) && !sl.at.lapped && Copied(s, sl, stop) && TakesRecord(sl, stop)
    ensures var r := ApplyRecord(sl);
            SlaveOk(s, r) && !r.at.lapped && Copied(s, r, stop)
  {
    CopyReads(s, sl, stop);
    TakeSeen(s, sl, stop);
    TakeIndex(Lap(s), sl.at.seen, sl.data, sl.Offset());
    TakeMoves(s, sl, stop);
  }

  lemma TakeSeen(s: State, sl: Slave, stop: nat)
    requires Tiles(Lap(s), 0, LapEnd(s)) && |sl.Log()| == s.L() && SeenOk(s, sl.Log(), sl.at.seen)
    requires Copied(s, sl, stop) && TakesRecord(sl, stop) && Reads(s, sl)
    ensures SeenOk(s, ApplyRecord(sl).Log(), sl.at.seen + 1)
  {
    CopyMirrors(s, sl, stop);
    SeenGrows(s, sl.Log(), ApplyRecord(sl).Log(), sl.at.seen, sl.Offset());
  }

  lemma TakeMoves(s: State, sl: Slave, stop: nat)
    requires Copied(s, sl, stop) && TakesRecord(sl, stop) && Reads(s, sl) && InStep(sl)
    ensures var r := ApplyRecord(sl);
            InStep(r) && r.Offset() == Boundary(Lap(s), r.at.seen, LapEnd(s)) && Copied(s, r, stop)
  {
  }

  /** What was copied up to `stop` is an exact copy of a record that ends there at the latest. */
  lemma CopyMirrors(s: State, sl: Slave, stop: nat)
    requires Copied(s, sl, stop) && sl.at.seen < |Lap(s)|
    requires var e := Lap(s)[sl.at.seen]; e.start == sl.Offset() && e.End() <= stop
    ensures Mirrors(s.m.log, sl.Log(), Lap(s)[sl.at.seen])
  {
  }

  lemma {:induction false} ReplayFollows(s: State, sl: Slave, stop: nat)
    requires MasterOk(s) && SlaveOk(s, sl) && !sl.at.lapped && Copied(s, sl, stop)
    ensures SlaveOk(s, Replay(sl, stop))
    decreases stop - sl.Offset()
  {
    if TakesRecord(sl, stop) {
      TakeKeeps(s, sl, stop);
      ReplayTakes(sl, stop);
      ReplayFollows(s, ApplyRecord(sl), stop);
    } else {
      ReplayStops(sl, stop);
      if MeetsMarker(sl, stop) {
        NextRecord(s, sl);
      }
    }
  }

  lemma LoadKeeps(s: State, sl: Slave, stop: nat)
    requires MasterOk(s) && SlaveOk(s, sl) && !sl.at.lapped && sl.Offset() <= stop <= s.L()
    ensures SlaveOk(s, Load(sl, s.m.log, stop)) && Copied(s, Load(sl, s.m.log, stop), stop)
  {
    var x := Load(sl, s.m.log, stop);
    var xs := Lap(s);
    TilesOrdered(xs, 0, LapEnd(s));
    forall i | 0 <= i < sl.at.seen
      ensures Finished(xs[i].kind) && Mirrors(s.m.log, x.Log(), xs[i])
    {
      assert Mirrors(s.m.log, sl.Log(), xs[i]);
    }
  }

  lemma PullKeeps(s: State, sl: Slave, stop: nat)
    requires MasterOk(s) && SlaveOk(s, sl) && !sl.at.lapped && sl.Offset() <= stop <= s.L()
    ensures SlaveOk(s, Pull(sl, s.m.log, stop))
  {
    LoadKeeps(s, sl, stop);
    ReplayFollows(s, Load(sl, s.m.log, stop), stop);
  }

  // ------------------------------------------------- what the master does behind the slave's back

  /** The master may only touch records the slave has not applied, and add new ones after them. */
  lemma SlaveUnmoved(s: State, s': State, sl: Slave)
    requires MasterOk(s) && SlaveOk(s, sl) && s'.L() == s.L()
    requires |Lap(s)| <= |Lap(s')| && forall j :: 0 <= j < sl.at.seen ==> Lap(s')[j] == Lap(s)[j]
    requires forall j, c :: 0 <= j < sl.at.seen && Lap(s)[j].start <= c < Lap(s)[j].End() && c < s.L() ==>
               s'.m.log[c] == s.m.log[c]
    requires if sl.at.lapped then s'.wrapped && |s'.prev| == |s.prev|
             else Boundary(Lap(s'), sl.at.seen, LapEnd(s')) == Boundary(Lap(s), sl.at.seen, LapEnd(s))
    ensures SlaveOk(s', sl)
  {
    assert Lap(s')[..sl.at.seen] == Lap(s)[..sl.at.seen];
    forall i | 0 <= i < sl.at.seen
      ensures Finished(Lap(s')[i].kind) && Mirrors(s'.m.log, sl.Log(), Lap(s')[i])
    {
      assert Mirrors(s.m.log, sl.Log(), Lap(s)[i]);
    }
  }

  lemma UpdateShape(s: State, prior: bool, i: nat, op: Op)
    requires MasterOk(s) && Enabled(s, Update(prior, i, op)) && Safe(s, Update(prior, i, op))
    ensures i < |Lap(s)| && !Finished(Lap(s)[i].kind) && s.Part(prior) == Lap(s)
    ensures var s' := ApplyUpdate(s, prior, i, op);
            var e := Lap(s)[i];
            && Lap(s') == Lap(s)[i := e.(kind := OpKind(e, op))] && s'.L() == s.L()
            && s'.wrapped == s.wrapped && LapEnd(s') == LapEnd(s) && |s'.prev| == |s.prev|
            && forall c :: 0 <= c < s.L() && !(e.start <= c < e.End()) ==> s'.m.log[c] == s.m.log[c]
  {
    OnlyOneLap(s, prior, i);
    UpdateEffect(s, prior, i, op);
  }

  /** Before the cleaner has moved, a wrapped log has nothing on its second lap. */
  lemma OnlyOneLap(s: State, prior: bool, i: nat)
    requires MasterOk(s) && i < |s.Part(prior)|
    ensures s.Part(prior) == Lap(s) && prior == s.wrapped
  {
    TilesBounds(s);
  }

  lemma UpdateEffect(s: State, prior: bool, i: nat, op: Op)
    requires i < |s.Part(prior)| && RecordOk(s.m.log, s.Part(prior)[i]) && OpEnabled(s.Part(prior)[i], op)
    ensures !Finished(s.Part(prior)[i].kind)
    ensures var s' := ApplyUpdate(s, prior, i, op);
            var e := s.Part(prior)[i];
            && s'.Part(prior) == s.Part(prior)[i := e.(kind := OpKind(e, op))] && s'.Part(!prior) == s.Part(!prior)
            && s'.L() == s.L() && s'.wrapped == s.wrapped && s'.m.current == s.m.current
            && forall c :: 0 <= c < s.L() && !(e.start <= c < e.End()) ==> s'.m.log[c] == s.m.log[c]
  {
    OpKeepsRecord(s.m.log, s.Part(prior)[i], op);
  }

  lemma UpdateSpares(s: State, sl: Slave, prior: bool, i: nat, op: Op)
    requires MasterOk(s) && SlaveOk(s, sl) && Enabled(s, Update(prior, i, op)) && Safe(s, Update(prior, i, op))
    ensures SlaveOk(ApplyUpdate(s, prior, i, op), sl)
  {
    UpdateShape(s, prior, i, op);
    TilesOrdered(Lap(s), 0, LapEnd(s));
    var e := Lap(s)[i];
    assert Mirrors(s.m.log, sl.Log(), e) || i >= sl.at.seen;
    SlaveUnmoved(s, ApplyUpdate(s, prior, i, op), sl);
  }

  /** An allocation adds to the lap, or closes it; it writes nothing into the records there are. */
  lemma AllocShape(s: State, e: Extent)
    requires MasterOk(s) && Fits(s, e) && WellSized(e) && e.kind == Reserved
    ensures CanAllocate(s.m)
    ensures var s' := ApplyAlloc(s, e);
            && s'.L() == s.L() && |Lap(s)| <= |Lap(s')| <= |Lap(s)| + 1 && s'.m.index == s.m.index
            && (forall j :: 0 <= j < |Lap(s)| ==> Lap(s')[j] == Lap(s)[j])
            && (|Lap(s')| > |Lap(s)| ==>
                  Lap(s')[|Lap(s)|].start == LapEnd(s) && Lap(s')[|Lap(s)|].kind in {Reserved, Cycle})
            && (|Lap(s')| == |Lap(s)| ==> s'.wrapped == s.wrapped && LapEnd(s') == LapEnd(s))
            && (s.wrapped ==> s'.wrapped && s'.prev == s.prev)
            && (forall c :: 0 <= c < LapEnd(s) ==> s'.m.log[c] == s.m.log[c])
  {
    TilesBounds(s);
  }

  lemma AllocSpares(s: State, sl: Slave, e: Extent)
    requires MasterOk(s) && SlaveOk(s, sl) && Fits(s, e) && WellSized(e) && e.kind == Reserved && CanAllocate(s.m)
    ensures SlaveOk(ApplyAlloc(s, e), sl)
  {
    AllocShape(s, e);
    TilesOrdered(Lap(s), 0, LapEnd(s));
    SlaveUnmoved(s, ApplyAlloc(s, e), sl);
  }

  lemma AllocKeepsPair(r: Pair, step: Step)
    requires PairInv(r) && step.Alloc? && EventEnabled(r, Write(step))
    ensures PairInv(ApplyEvent(r, Write(step)))
  {
    var s, e := r.master, Wanted(step.key, step.cflags, step.nbytes);
    StepKeeps(s, step);
    WantedIsWellSized(step.key, step.cflags, step.nbytes);
    AllocSpares(s, r.slave, e);
    AllocShape(s, e);
    assert Apply(s, step) == ApplyAlloc(s, e);
    AllocIdle(s, e);
  }

  lemma AllocIdle(s: State, e: Extent)
    requires CanAllocate(s.m)
    ensures ApplyAlloc(s, e).m.freeing == s.m.freeing && ApplyAlloc(s, e).pc == s.pc
  {
  }

  lemma UpdateKeepsPair(r: Pair, prior: bool, i: nat, op: Op)
    requires PairInv(r) && EventEnabled(r, Write(Update(prior, i, op)))
    ensures PairInv(ApplyEvent(r, Write(Update(prior, i, op))))
  {
    var s := r.master;
    StepKeeps(s, Update(prior, i, op));
    UpdateSpares(s, r.slave, prior, i, op);
    UpdateShape(s, prior, i, op);
  }

  lemma DeleteKeeps(r: Pair, i: nat, victim: nat)
    requires PairInv(r) && EventEnabled(r, Delete(i, victim))
    ensures PairInv(ApplyEvent(r, Delete(i, victim)))
  {
    var s, k := r.master, Lap(r.master)[i].key;
    var s' := Unlinked(s, k, victim);
    if s' != s {
      StepKeeps(s, Unlink(k));
      assert s' == Apply(s, Unlink(k));
    }
    SlaveUnmoved(s, s', r.slave);
  }

  lemma ForgetKeeps(r: Pair, k: seq<Cell>)
    requires PairInv(r)
    ensures PairInv(ApplyEvent(r, Forget(k)))
  {
    StepKeeps(r.master, Unlink(k));
    SlaveUnmoved(r.master, Apply(r.master, Unlink(k)), r.slave);
  }

  lemma EventKeeps(r: Pair, ev: Event)
    requires PairInv(r) && EventEnabled(r, ev)
    ensures PairInv(ApplyEvent(r, ev))
  {
    match ev
    case Write(step) =>
      if step.Alloc? {
        AllocKeepsPair(r, step);
      } else {
        UpdateKeepsPair(r, step.prior, step.i, step.op);
      }
    case Delete(i, victim) => DeleteKeeps(r, i, victim);
    case Forget(k) => ForgetKeeps(r, k);
    case PullChunk(stop) => PullKeeps(r.master, r.slave, stop);
  }

  // ------------------------------------------------- whole runs

  function StartSlave(l: nat): Slave {
    Slave(Data(seq(l, _ => ZERO), map[], 0), Position(0, 0, l, 0, 0, false))
  }

  ghost predicate StartPair(r: Pair) {
    Start(r.master) && r.slave == StartSlave(r.master.L()) && r.done == {}
  }

  ghost predicate NextPair(r: Pair, ev: Event, r': Pair) {
    EventEnabled(r, ev) && r' == ApplyEvent(r, ev)
  }

  lemma PairInvIsInductive()
    ensures forall r :: StartPair(r) ==> PairInv(r)
    ensures forall r, ev, r' :: PairInv(r) && NextPair(r, ev, r') ==> PairInv(r')
  {
    forall r | StartPair(r)
      ensures PairInv(r)
    {
      InitKeeps(r.master.L());
    }
    forall r, ev, r' | PairInv(r) && NextPair(r, ev, r')
      ensures PairInv(r')
    {
      EventKeeps(r, ev);
    }
  }

  lemma PairRunKeeps(states: seq<Pair>, events: seq<Event>, n: nat)
    requires Runs.IsRun(StartPair, NextPair, states, events) && n < |states|
    ensures PairInv(states[n])
  {
    PairInvIsInductive();
    Runs.Invariance(StartPair, NextPair, PairInv, states, events, n);
  }

  /** Suffix and value of the record at `p`: what a get returns for it. */
  function Payload(log: seq<Cell>, p: nat): seq<Cell>
    requires p < |log|
  {
    Slice(log, SuffixPos(log, p), Item(log, p).nsuffix + Item(log, p).nbytes)
  }

  /** The slave's index is the fold of the finished records before its offset, and its copies are exact. */
  ghost predicate PrefixConsistent(r: Pair) {
    var xs, n := Lap(r.master), r.slave.at.seen;
    && n <= |xs| && (forall i :: 0 <= i < n ==> Finished(xs[i].kind))
    && (!r.slave.at.lapped ==> r.slave.Offset() == Boundary(xs, n, LapEnd(r.master)) == r.slave.at.current)
    && r.slave.data.index == Fold(Effects(xs[..n]))
    && forall k :: k in r.slave.data.index ==>
         var p := r.slave.data.index[k];
         && p < |r.slave.Log()| == r.master.L() && KeyAt(r.slave.Log(), p) == k
         && Payload(r.slave.Log(), p) == Payload(r.master.m.log, p)
  }

  lemma NoEffects(xs: seq<Extent>)
    ensures Fold(Effects(xs[..0])) == map[]
  {
  }

  lemma ActsFrom(ix: map<seq<Cell>, nat>, e: Extent, k: seq<Cell>)
    requires k in Acts(ix, e)
    ensures if e.kind == Committed && e.key == k then Acts(ix, e)[k] == e.start else k in ix && Acts(ix, e)[k] == ix[k]
  {
  }

  /** An entry of the folded index comes from a committed record of that key. */
  lemma {:induction false} FoldPoints(xs: seq<Extent>, n: nat, k: seq<Cell>) returns (i: nat)
    requires n <= |xs| && k in Fold(Effects(xs[..n]))
    ensures i < n && xs[i].kind == Committed && xs[i].key == k && xs[i].start == Fold(Effects(xs[..n]))[k]
    decreases n
  {
    assert n > 0 by {
      NoEffects(xs);
    }
    FoldNext(xs, n - 1);
    ActsFrom(Fold(Effects(xs[..n - 1])), xs[n - 1], k);
    if xs[n - 1].kind == Committed && xs[n - 1].key == k {
      i := n - 1;
    } else {
      i := FoldPoints(xs, n - 1, k);
    }
  }

  /** An exact copy of a committed record yields the key and the payload of the original. */
  lemma CopyIsExact(m: seq<Cell>, sl: seq<Cell>, e: Extent)
    requires RecordOk(m, e) && e.kind == Committed && Mirrors(m, sl, e)
    ensures KeyAt(sl, e.start) == e.key && Payload(sl, e.start) == Payload(m, e.start)
  {
    SelfDescribing(m, e);
    var p := e.start;
    assert Item(sl, p) == Item(m, p);
    var kp, nk := KeyPos(m, p), |e.key|;
    assert sl[kp..kp + nk] == m[kp..kp + nk];
    var sp, n := SuffixPos(m, p), Item(m, p).nsuffix + Item(m, p).nbytes;
    assert sl[sp..sp + n] == m[sp..sp + n];
  }

  /**
   Prefix-consistent replication: in every state of every run within one lap, whatever the
   chunks and the interleaving, the slave holds exactly the fold of the records before the
   first one it could not apply.
   */
  lemma ReplicaIsPrefix(states: seq<Pair>, events: seq<Event>, n: nat)
    requires Runs.IsRun(StartPair, NextPair, states, events) && n < |states|
    ensures PrefixConsistent(states[n])
  {
    PairRunKeeps(states, events, n);
    InvIsPrefix(states[n]);
  }

  lemma InvIsPrefix(r: Pair)
    requires PairInv(r)
    ensures PrefixConsistent(r)
  {
    var s, sl := r.master, r.slave;
    var xs, n := Lap(s), r.slave.at.seen;
    forall i | 0 <= i < n
      ensures Finished(xs[i].kind)
    {
      assert Mirrors(s.m.log, sl.Log(), xs[i]);
    }
    forall k | k in sl.data.index
      ensures var p := sl.data.index[k];
              p < s.L() && KeyAt(sl.Log(), p) == k && Payload(sl.Log(), p) == Payload(s.m.log, p)
    {
      var i := FoldPoints(xs, n, k);
      assert Mirrors(s.m.log, sl.Log(), xs[i]);
      assert RecordOk(s.m.log, if s.wrapped then s.prev[i] else s.lap[i]);
      CopyIsExact(s.m.log, sl.Log(), xs[i]);
    }
  }

  // ------------------------------------------------- how far a pull gets

  /** The slave has applied every record of the lap. */
  predicate CaughtUp(r: Pair) {
    r.slave.at.seen == |Lap(r.master)| || r.slave.at.lapped
  }

  /** No record of the lap is dirty, in flight or abandoned. */
  ghost predicate NothingDirty(s: State) {
    forall i :: 0 <= i < |Lap(s)| ==> Finished(Lap(s)[i].kind) || Lap(s)[i].kind == Cycle
  }

  lemma {:induction false} ReplayCatchesUp(s: State, sl: Slave)
    requires MasterOk(s) && SlaveOk(s, sl) && !sl.at.lapped && NothingDirty(s) && Copied(s, sl, s.L())
    ensures var r := Replay(sl, s.L()); r.at.seen == |Lap(s)| || r.at.lapped
    decreases s.L() - sl.Offset()
  {
    var n := sl.at.seen;
    if TakesRecord(sl, s.L()) {
      TakeKeeps(s, sl, s.L());
      ReplayTakes(sl, s.L());
      ReplayCatchesUp(s, ApplyRecord(sl));
    } else {
      ReplayStops(sl, s.L());
      if n < |Lap(s)| {
        ReadyRecord(s, n);
      }
    }
  }

  /** A finished record of the lap fits in what is left of the log, with the marker's 35 bytes to spare. */
  lemma ReadyRecord(s: State, n: nat)
    requires MasterOk(s) && n < |Lap(s)| && (Finished(Lap(s)[n].kind) || Lap(s)[n].kind == Cycle)
    ensures var e := Lap(s)[n];
            && e.start + MIN_ITEM <= s.L() && e.End() <= s.L()
            && Item(s.m.log, e.start).flags == FlagsOf(e.kind)
            && (e.kind != Cycle ==> NTotal(Item(s.m.log, e.start)) == e.size)
  {
    var e := Lap(s)[n];
    assert RecordOk(s.m.log, if s.wrapped then s.prev[n] else s.lap[n]);
    TilesOrdered(Lap(s), 0, LapEnd(s));
    if e.kind != Cycle {
      SelfDescribing(s.m.log, e);
      if s.wrapped {
        MarkerClosesTheLap(s);
      }
    }
  }

  /** With nothing dirty on the master, one pull of the rest of the log catches up. */
  lemma PullCatchesUp(r: Pair)
    requires PairInv(r) && !r.slave.at.lapped && NothingDirty(r.master)
    ensures r.slave.Offset() <= r.master.L() && CaughtUp(r.(slave := PullAll(r.slave, r.master.m.log)))
  {
    var s, sl := r.master, r.slave;
    TilesOrdered(Lap(s), 0, LapEnd(s));
    LoadKeeps(s, sl, s.L());
    ReplayCatchesUp(s, Load(sl, s.m.log, s.L()));
  }

  /** Why the slave cannot go on: the next record is not finished, or was not copied whole. */
  ghost predicate Blocked(s: State, sl: Slave, stop: nat) {
    || sl.at.lapped || sl.at.seen == |Lap(s)|
    || (sl.at.seen < |Lap(s)|
        && var e := Lap(s)[sl.at.seen];
           (!Finished(e.kind) && e.kind != Cycle) || e.start + MIN_ITEM > stop || (e.kind != Cycle && e.End() > stop))
  }

  lemma {:induction false} ReplayGoesOn(s: State, sl: Slave, stop: nat)
    requires MasterOk(s) && SlaveOk(s, sl) && !sl.at.lapped && Copied(s, sl, stop)
    ensures Blocked(s, Replay(sl, stop), stop)
    decreases stop - sl.Offset()
  {
    if TakesRecord(sl, stop) {
      TakeKeeps(s, sl, stop);
      ReplayTakes(sl, stop);
      ReplayGoesOn(s, ApplyRecord(sl), stop);
    } else {
      ReplayStops(sl, stop);
      var n := sl.at.seen;
      if n < |Lap(s)| && Lap(s)[n].start + MIN_ITEM <= stop && (Finished(Lap(s)[n].kind) || Lap(s)[n].kind == Cycle) {
        ReadyRecord(s, n);
        assert sl.Log()[sl.Offset()] == s.m.log[sl.Offset()];
      }
    }
  }

  /** A pull of the chunk up to `stop` applies every record it can: it stops only where it is blocked. */
  lemma PullIsMaximal(r: Pair, stop: nat)
    requires PairInv(r) && EventEnabled(r, PullChunk(stop))
    ensures Blocked(r.master, ApplyEvent(r, PullChunk(stop)).slave, stop)
  {
    LoadKeeps(r.master, r.slave, stop);
    ReplayGoesOn(r.master, Load(r.slave, r.master.m.log, stop), stop);
  }
}
