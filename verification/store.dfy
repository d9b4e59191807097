/**
 Writers, the key index and the background cleaner over the circular log, one
 transition per critical section. The cleaner's trigger (lru_maintainer_free) reads the
 two counters outside memlog_lock, one at a time; a chunk clean then frees one record
 per transition, so every interleaving with the writers is a run of this system.
 */
module Store {
  import opened Common
  import opened Layout
  import opened MemLog
  import Runs

  datatype Cleaner = Sleeping | SawAvail | SawBoth | Cleaning(freed: nat)

  /**
   `prev` and `lap` list the extents of the previous and of the current lap of the writer,
   oldest first, and `wrapped` says whether the writer is a lap ahead of the cleaner. The
   program keeps none of the three: it has only the counters in `m`.
   */
  datatype State = State(m: Mem, prev: seq<Extent>, lap: seq<Extent>, wrapped: bool, pc: Cleaner) {
    function L(): nat { |m.log| }
    function Freed(): nat { if pc.Cleaning? then pc.freed else 0 }
    function Part(prior: bool): seq<Extent> { if prior then prev else lap }
    function Oldest(): Option<Extent> {
      if prev != [] then Some(prev[0]) else if lap != [] then Some(lap[0]) else None
    }
  }

  datatype Step =
    | Alloc(key: Key, cflags: nat, nbytes: nat)   // do_item_alloc up to memlog_alloc
    | Update(prior: bool, i: nat, op: Op)           // a writer's write to the record it owns
    | Unlink(gone: seq<Cell>)                     // do_item_unlink: delete, expiry, flush
    | ReadAvail | ReadFree | Lock                 // lru_maintainer_free
    | FreeOne                                     // one turn of memlog_free_chunk
    | Finish                                      // the end of do_memlog_clean

  /**
   The test of do_item_alloc for ITEM_DELETED, bit 7 of the flags it is given: a delete passes
   it, or a client's number.
   */
  predicate Deletes(cflags: nat) {
    cflags / 128 % 2 == 1
  }

  /** The extent that do_item_alloc asks for, wherever it will lie; the suffix is what item_make_header prints. */
  function Wanted(key: Key, cflags: nat, nbytes: nat): Extent {
    var suffix := Suffix(cflags, nbytes);
    Extent(0, HEADER + |key| + 1 + |suffix| + nbytes + CAS_SIZE, key, suffix, Deletes(cflags), nbytes, Reserved)
  }

  lemma WantedIsWellSized(key: Key, cflags: nat, nbytes: nat)
    requires cflags < TWO_32 && nbytes < 0x8000_0000
    ensures WellSized(Wanted(key, cflags, nbytes)) && Wanted(key, cflags, nbytes).kind == Reserved
  {
    SuffixLength(cflags, nbytes);
  }

  function CycleExtent(start: nat, size: nat): Extent {
    Extent(start, size, [ZERO], [], false, size, Cycle)
  }

  function Init(l: nat): State {
    State(Mem(seq(l, _ => ZERO), 0, l, 0, 0, map[]), [], [], false, Sleeping)
  }

  predicate Fits(s: State, e: Extent) {
    !s.pc.Cleaning? && e.size <= s.L() / 8 && !(s.wrapped && Wraps(s.m, e.size))
  }

  /**
   When a step may happen. Two clauses are hypotheses about pace rather than locks: an
   allocation that wraps finds the cleaner on the writer's lap, and a record the cleaner
   frees is no longer in flight.
   */
  predicate Enabled(s: State, step: Step) {
    match step
    case Alloc(key, cflags, nbytes) => cflags < TWO_32 && Fits(s, Wanted(key, cflags, nbytes))
    case Update(prior, i, op) => i < |s.Part(prior)| && OpEnabled(s.Part(prior)[i], op)
    case Unlink(_) => true
    case ReadAvail => s.pc == Sleeping
    case ReadFree => s.pc == SawAvail
    case Lock => s.pc == SawBoth
    case FreeOne =>
      && s.pc.Cleaning? && s.pc.freed < s.L() / 8 && s.m.freeing < s.L()
      && (s.Oldest().Some? ==> Settled(s.Oldest().value.kind))
    case Finish => s.pc.Cleaning? && (s.pc.freed >= s.L() / 8 || s.m.freeing >= s.L())
  }

  // ------------------------------------------------- the invariant

  ghost predicate Tiling(s: State) {
    if s.wrapped then Tiles(s.prev, s.m.freeing, s.L()) && Tiles(s.lap, 0, s.m.current)
    else s.prev == [] && Tiles(s.lap, s.m.freeing, s.m.current)
  }

  /** The two counters, given how much the chunk clean in progress has freed so far. */
  predicate Accounting(s: State) {
    && s.Freed() <= s.m.freeing
    && if s.wrapped then s.m.current + s.m.avail + s.Freed() == s.m.freeing && s.m.freeBeg == 0
       else s.m.current + s.m.avail == s.L() && s.m.freeBeg + s.Freed() == s.m.freeing
  }

  ghost predicate Records(s: State) {
    && AllOk(s.m.log, s.prev) && AllOk(s.m.log, s.lap)
    && (forall i :: 0 <= i < |s.prev| ==> (s.prev[i].kind == Cycle <==> i == |s.prev| - 1))
    && (forall i :: 0 <= i < |s.prev| && s.prev[i].kind == Cycle ==> MIN_ITEM <= s.prev[i].size)
    && (forall i :: 0 <= i < |s.lap| ==> s.lap[i].kind != Cycle && s.lap[i].size <= s.L() / 8)
  }

  ghost predicate FreeIsZero(s: State) {
    if s.wrapped then ZeroIn(s.m.log, s.m.current, s.m.freeing)
    else ZeroIn(s.m.log, 0, s.m.freeing) && ZeroIn(s.m.log, s.m.current, s.L())
  }

  predicate Linkable(e: Extent, p: nat, k: seq<Cell>) {
    e.start == p && e.key == k && (e.kind == Linked || e.kind == Committed)
  }

  ghost predicate PointsInto(xs: seq<Extent>, p: nat, k: seq<Cell>) {
    exists i :: 0 <= i < |xs| && Linkable(xs[i], p, k)
  }

  ghost predicate IndexLive(s: State) {
    forall k :: k in s.m.index ==> PointsInto(s.prev, s.m.index[k], k) || PointsInto(s.lap, s.m.index[k], k)
  }

  /** What the cleaner's reads of the counters still mean, though allocations may have followed them. */
  predicate Guard(s: State) {
    && (!s.pc.Sleeping? && !s.wrapped ==> s.L() - s.m.current <= s.L() / 4)
    && ((s.pc.SawBoth? || s.pc.Cleaning?) && !s.wrapped ==> s.m.freeing <= s.L() / 4 + s.Freed())
    && (s.pc.Cleaning? && !s.wrapped ==> s.pc.freed < s.L() / 8 + s.L() / 8)
    && (s.Freed() == 0 ==> s.m.freeing < s.L())
  }

  ghost predicate Inv(s: State) {
    && 1024 <= s.L() < 0x8000_0000
    && s.m.current <= s.L() - MIN_ITEM
    && Tiling(s) && Accounting(s) && Records(s) && FreeIsZero(s) && IndexLive(s) && Guard(s)
  }

  // ------------------------------------------------- the steps

  /** memory_allocate puts the cycle marker and starts a new lap. */
  function WrapState(s: State): State
    requires CanAllocate(s.m)
  {
    s.(m := Wrap(s.m), prev := s.lap + [CycleExtent(s.m.current, s.L() - s.m.current)], lap := [], wrapped := true)
  }

  function ApplyAlloc(s: State, e: Extent): State
    requires CanAllocate(s.m)
  {
    var (m, r) := Allocate(s.m, e.size);
    var s1 := if Wraps(s.m, e.size) then WrapState(s) else s;
    s1.(m := m, lap := if r.Some? then s1.lap + [e.(start := r.value)] else s1.lap)
  }

  function ApplyUpdate(s: State, prior: bool, i: nat, op: Op): State
    requires i < |s.Part(prior)|
    requires RecordOk(s.m.log, s.Part(prior)[i]) && OpEnabled(s.Part(prior)[i], op)
  {
    var e := s.Part(prior)[i];
    var e' := e.(kind := OpKind(e, op));
    var m := s.m.(log := OpLog(s.m.log, e, op),
                  index := if op.Link? then s.m.index[e.key := e.start] else s.m.index);
    if prior then s.(m := m, prev := s.prev[i := e']) else s.(m := m, lap := s.lap[i := e'])
  }

  function ApplyFree(s: State): State
    requires s.pc.Cleaning?
    requires CanFree(s.m)
  {
    var (m, n) := FreeItem(s.m);
    var s1 := s.(m := m, pc := Cleaning(s.pc.freed + n));
    if s.prev != [] then s1.(prev := s.prev[1..]) else if s.lap != [] then s1.(lap := s.lap[1..]) else s1
  }

  function ApplyFinish(s: State): State
    requires s.pc.Cleaning?
  {
    s.(m := FinishClean(s.m, s.pc.freed), pc := Sleeping, wrapped := s.wrapped && s.m.freeing < s.L())
  }

  /** The memory accesses of the step stay inside the log and meet the record they expect. */
  ghost predicate Safe(s: State, step: Step)
    requires Enabled(s, step)
  {
    match step
    case Alloc(_, _, _) => CanAllocate(s.m)
    case Update(prior, i, op) => RecordOk(s.m.log, s.Part(prior)[i])
    case FreeOne => CanFree(s.m)
    case _ => true
  }

  ghost function Apply(s: State, step: Step): State
    requires Enabled(s, step) && Safe(s, step)
  {
    match step
    case Alloc(key, cflags, nbytes) => ApplyAlloc(s, Wanted(key, cflags, nbytes))
    case Update(prior, i, op) => ApplyUpdate(s, prior, i, op)
    case Unlink(k) => s.(m := s.m.(index := s.m.index - {k}))
    case ReadAvail => if s.L() / 4 >= s.m.avail then s.(pc := SawAvail) else s
    case ReadFree => s.(pc := if s.L() / 4 >= s.m.freeBeg then SawBoth else Sleeping)
    case Lock => s.(pc := Cleaning(0))
    case FreeOne => ApplyFree(s)
    case Finish => ApplyFinish(s)
  }

  ghost predicate Next(s: State, step: Step, s': State) {
    Enabled(s, step) && Safe(s, step) && s' == Apply(s, step)
  }

  // ------------------------------------------------- each step keeps the invariant

  lemma {:induction false} TilesBounds(s: State)
    requires Tiling(s)
    ensures s.wrapped ==>
              && s.m.freeing <= s.L()
              && (forall i :: 0 <= i < |s.prev| ==> s.m.freeing <= s.prev[i].start < s.prev[i].End() <= s.L())
              && (forall i :: 0 <= i < |s.lap| ==> s.lap[i].start < s.lap[i].End() <= s.m.current)
    ensures !s.wrapped ==>
              && s.m.freeing <= s.m.current
              && (forall i :: 0 <= i < |s.lap| ==> s.m.freeing <= s.lap[i].start < s.lap[i].End() <= s.m.current)
    ensures forall i, j :: 0 <= i < j < |s.prev| ==> s.prev[i].End() <= s.prev[j].start
    ensures forall i, j :: 0 <= i < j < |s.lap| ==> s.lap[i].End() <= s.lap[j].start
  {
    if s.wrapped {
      TilesOrdered(s.prev, s.m.freeing, s.L());
      TilesOrdered(s.lap, 0, s.m.current);
    } else {
      TilesOrdered(s.lap, s.m.freeing, s.m.current);
    }
  }

  lemma InitKeeps(l: nat)
    requires 1024 <= l < 0x8000_0000
    ensures Inv(Init(l))
  {
  }

  /** The marker that memory_allocate writes over zeroed space is a well-formed cycle record. */
  lemma CycleRecord(log: seq<Cell>, p: nat, avail: nat)
    requires p + avail == |log| < 0x8000_0000 && MIN_ITEM <= avail && ZeroIn(log, p, |log|)
    ensures RecordOk(WriteCycle(log, p, avail), CycleExtent(p, avail))
    ensures forall i :: 0 <= i < p ==> WriteCycle(log, p, avail)[i] == log[i]
  {
  }

  lemma WrapKeeps(s: State)
    requires Inv(s) && !s.wrapped && !s.pc.Cleaning?
    ensures Inv(WrapState(s))
  {
    var s' := WrapState(s);
    var p := s.m.current;
    TilesOrdered(s.lap, s.m.freeing, p);
    CycleRecord(s.m.log, p, s.m.avail);
    TilesAppend(s.lap, s.m.freeing, p, CycleExtent(p, s.L() - p));
    AllOkFrame(s.m.log, s'.m.log, s.lap, s.m.freeing, p);
    AllOkAppend(s'.m.log, s.lap, CycleExtent(p, s.L() - p));
    WrapIndex(s, s'.prev);
  }

  lemma WrapIndex(s: State, prev: seq<Extent>)
    requires IndexLive(s) && s.prev == [] && s.lap <= prev
    ensures forall k :: k in s.m.index ==> PointsInto(prev, s.m.index[k], k)
  {
    forall k | k in s.m.index
      ensures PointsInto(prev, s.m.index[k], k)
    {
      var i :| 0 <= i < |s.lap| && Linkable(s.lap[i], s.m.index[k], k);
      assert prev[i] == s.lap[i];
    }
  }

  /** Room for one record at the write head, with no wrap. */
  lemma ReserveKeeps(s: State, e: Extent)
    requires Inv(s) && !s.pc.Cleaning?
    requires e.start == s.m.current && e.kind == Reserved && WellSized(e)
    requires e.size <= s.L() / 8 && e.size <= s.m.avail && e.End() <= s.L() - MIN_ITEM
    ensures Inv(ReserveState(s, e))
  {
    var s' := ReserveState(s, e);
    TilesBounds(s);
    TilesAppend(s.lap, if s.wrapped then 0 else s.m.freeing, s.m.current, e);
    AllOkAppend(s.m.log, s.lap, e);
    forall k | k in s.m.index && PointsInto(s.lap, s.m.index[k], k)
      ensures PointsInto(s'.lap, s.m.index[k], k)
    {
      var i :| 0 <= i < |s.lap| && Linkable(s.lap[i], s.m.index[k], k);
      assert s'.lap[i] == s.lap[i];
    }
  }

  function ReserveState(s: State, e: Extent): State
    requires e.size <= s.m.avail
  {
    s.(m := s.m.(current := e.End(), avail := s.m.avail - e.size), lap := s.lap + [e])
  }

  lemma AllocKeeps(s: State, e: Extent)
    requires Inv(s) && Fits(s, e) && WellSized(e) && e.kind == Reserved
    ensures CanAllocate(s.m) && Inv(ApplyAlloc(s, e))
  {
    var s1 := if Wraps(s.m, e.size) then WrapState(s) else s;
    assert Inv(s1) by {
      if Wraps(s.m, e.size) {
        WrapKeeps(s);
      }
    }
    if e.size <= s1.m.avail {
      var e1 := e.(start := s1.m.current);
      assert ApplyAlloc(s, e) == ReserveState(s1, e1);
      ReserveKeeps(s1, e1);
    } else {
      assert ApplyAlloc(s, e) == s1;
    }
  }

  /** The buffer into which memory_allocate prints has 10 bytes; with the final NUL, at most 10 are needed. */
  lemma PrintedNumberFits(s: State, e: Extent)
    requires Inv(s) && Fits(s, e) && Wraps(s.m, e.size)
    ensures |Printed(s.m.avail)| <= 9
  {
    assert Pow10(9) == 1_000_000_000;
    PrintedLength(s.m.avail, 9);
  }

  /** A write inside extent `i` of one part of the log spares the other part and the free space. */
  lemma OthersKeep(s: State, log': seq<Cell>, prior: bool, i: nat, e': Extent)
    requires Tiling(s) && Accounting(s) && AllOk(s.m.log, s.prev) && AllOk(s.m.log, s.lap) && FreeIsZero(s)
    requires s.m.current <= s.L() == |log'| && i < |s.Part(prior)| && RecordOk(log', e')
    requires var e := s.Part(prior)[i];
             forall j :: 0 <= j < s.L() && !(e.start <= j < e.End()) ==> log'[j] == s.m.log[j]
    ensures AllOk(log', if prior then s.prev[i := e'] else s.prev)
    ensures AllOk(log', if prior then s.lap else s.lap[i := e'])
    ensures FreeIsZero(s.(m := s.m.(log := log')))
  {
    if prior {
      TilesOrdered(s.prev, s.m.freeing, s.L());
      AllOkUpdate(s.m.log, log', s.prev, s.m.freeing, s.L(), i, e');
      AllOkFrame(s.m.log, log', s.lap, 0, s.m.current);
    } else if s.wrapped {
      TilesOrdered(s.lap, 0, s.m.current);
      AllOkUpdate(s.m.log, log', s.lap, 0, s.m.current, i, e');
      AllOkFrame(s.m.log, log', s.prev, s.m.freeing, s.L());
    } else {
      TilesOrdered(s.lap, s.m.freeing, s.m.current);
      AllOkUpdate(s.m.log, log', s.lap, s.m.freeing, s.m.current, i, e');
    }
  }

  lemma UpdateRecords(s: State, prior: bool, i: nat, op: Op)
    requires Tiling(s) && Accounting(s) && Records(s) && FreeIsZero(s) && s.m.current <= s.L()
    requires Enabled(s, Update(prior, i, op)) && RecordOk(s.m.log, s.Part(prior)[i])
    ensures var s' := ApplyUpdate(s, prior, i, op); Tiling(s') && Records(s') && FreeIsZero(s')
  {
    var e := s.Part(prior)[i];
    var log' := OpWritten(s.m.log, e, op);
    var s' := ApplyUpdate(s, prior, i, op);
    Rewritten(s, prior, i, e.(kind := OpKind(e, op)), log', s'.m.index);
    assert s' == Rewrite(s, prior, i, e.(kind := OpKind(e, op)), log', s'.m.index);
  }

  lemma OpWritten(log: seq<Cell>, e: Extent, op: Op) returns (log': seq<Cell>)
    requires RecordOk(log, e) && OpEnabled(e, op)
    ensures log' == OpLog(log, e, op) && |log'| == |log| && RecordOk(log', e.(kind := OpKind(e, op)))
    ensures forall j :: 0 <= j < |log| && !(e.start <= j < e.End()) ==> log'[j] == log[j]
    ensures e.kind != Cycle && OpKind(e, op) != Cycle
  {
    log' := OpLog(log, e, op);
    OpKeepsRecord(log, e, op);
  }

  function Rewrite(s: State, prior: bool, i: nat, e': Extent, log': seq<Cell>, index: map<seq<Cell>, nat>): State
    requires i < |s.Part(prior)|
  {
    var m := s.m.(log := log', index := index);
    if prior then s.(m := m, prev := s.prev[i := e']) else s.(m := m, lap := s.lap[i := e'])
  }

  /** Records, tiling and zeroed space do not care what a record says, as long as it says it within its extent. */
  lemma Rewritten(s: State, prior: bool, i: nat, e': Extent, log': seq<Cell>, index: map<seq<Cell>, nat>)
    requires Tiling(s) && Accounting(s) && Records(s) && FreeIsZero(s) && s.m.current <= s.L()
    requires i < |s.Part(prior)| && |log'| == s.L() && RecordOk(log', e')
    requires var e := s.Part(prior)[i];
             && e' == e.(kind := e'.kind) && e.kind != Cycle && e'.kind != Cycle
             && forall j :: 0 <= j < s.L() && !(e.start <= j < e.End()) ==> log'[j] == s.m.log[j]
    ensures var s' := Rewrite(s, prior, i, e', log', index); Tiling(s') && Records(s') && FreeIsZero(s')
  {
    OthersKeep(s, log', prior, i, e');
    UpdateTiling(s, prior, i, e'.kind);
  }

  lemma UpdateTiling(s: State, prior: bool, i: nat, kind: Kind)
    requires Tiling(s) && i < |s.Part(prior)|
    ensures var e' := s.Part(prior)[i].(kind := kind);
            Tiling(if prior then s.(prev := s.prev[i := e']) else s.(lap := s.lap[i := e']))
  {
    var e' := s.Part(prior)[i].(kind := kind);
    var lo, hi := if prior || !s.wrapped then s.m.freeing else 0, if prior then s.L() else s.m.current;
    TilesUpdate(s.Part(prior), lo, hi, i, e');
  }

  lemma UpdateIndex(s: State, prior: bool, i: nat, op: Op)
    requires IndexLive(s) && Enabled(s, Update(prior, i, op)) && RecordOk(s.m.log, s.Part(prior)[i])
    ensures IndexLive(ApplyUpdate(s, prior, i, op))
  {
    var e := s.Part(prior)[i];
    var e' := e.(kind := OpKind(e, op));
    var s' := ApplyUpdate(s, prior, i, op);
    forall k | k in s'.m.index
      ensures PointsInto(s'.prev, s'.m.index[k], k) || PointsInto(s'.lap, s'.m.index[k], k)
    {
      if op.Link? && k == e.key {
        assert Linkable(s'.Part(prior)[i], e.start, k);
      } else {
        IndexMoves(s, prior, i, e', k);
      }
    }
  }

  lemma UpdateKeeps(s: State, prior: bool, i: nat, op: Op)
    requires Inv(s) && Enabled(s, Update(prior, i, op))
    ensures RecordOk(s.m.log, s.Part(prior)[i]) && Inv(ApplyUpdate(s, prior, i, op))
  {
    assert RecordOk(s.m.log, s.Part(prior)[i]);
    UpdateRecords(s, prior, i, op);
    UpdateIndex(s, prior, i, op);
  }

  /** A linkable record that is updated stays linkable, so index entries keep pointing at it. */
  lemma IndexMoves(s: State, prior: bool, i: nat, e': Extent, k: seq<Cell>)
    requires IndexLive(s) && k in s.m.index && i < |s.Part(prior)|
    requires var e := s.Part(prior)[i];
             Linkable(e, s.m.index[k], k) ==> Linkable(e', s.m.index[k], k)
    ensures var p := s.m.index[k];
            || PointsInto(if prior then s.prev[i := e'] else s.prev, p, k)
            || PointsInto(if prior then s.lap else s.lap[i := e'], p, k)
  {
    var p := s.m.index[k];
    var q := PointsInto(s.prev, p, k);
    var j :| 0 <= j < |s.Part(q)| && Linkable(s.Part(q)[j], p, k);
    var xs := if q == prior then s.Part(q)[i := e'] else s.Part(q);
    assert Linkable(xs[j], p, k);
  }

  /** The cleaner always finds a record where it looks, and reads that record's exact length. */
  lemma OldestIsFreeable(s: State)
    requires Inv(s) && Enabled(s, FreeOne)
    ensures s.Oldest().Some? && CanFree(s.m)
    ensures var e := s.Oldest().value;
            && e.start == s.m.freeing && RecordOk(s.m.log, e) && FreeLength(Item(s.m.log, e.start)) == e.size
            && (e.kind == Committed ==> KeyAt(s.m.log, e.start) == e.key)
            && (if s.wrapped then s.prev != [] && e == s.prev[0]
                else s.lap != [] && e == s.lap[0] && e.size <= s.L() / 8)
  {
    HasOldest(s);
    var e := s.Oldest().value;
    assert RecordOk(s.m.log, if s.wrapped then s.prev[0] else s.lap[0]);
    if e.kind != Cycle {
      SelfDescribing(s.m.log, e);
    }
  }

  /** There is a record at the cleaner's place. */
  lemma HasOldest(s: State)
    requires Tiling(s) && Accounting(s) && Guard(s) && Enabled(s, FreeOne) && 1024 <= s.L()
             && s.m.current <= s.L() - MIN_ITEM
    ensures if s.wrapped then s.prev != [] && s.prev[0].start == s.m.freeing
            else s.prev == [] && s.lap != [] && s.lap[0].start == s.m.freeing
  {
  }

  lemma TailOk(log: seq<Cell>, xs: seq<Extent>)
    requires AllOk(log, xs) && xs != []
    ensures AllOk(log, xs[1..])
  {
    forall i | 0 <= i < |xs| - 1
      ensures RecordOk(log, xs[1..][i])
    {
      assert RecordOk(log, xs[i + 1]);
    }
  }

  lemma FreeRecordsBehind(s: State)
    requires Inv(s) && Enabled(s, FreeOne) && CanFree(s.m) && s.wrapped
    ensures var s' := ApplyFree(s); Tiling(s') && Records(s') && FreeIsZero(s')
  {
    OldestIsFreeable(s);
    var s' := ApplyFree(s);
    var p := s'.m.freeing;
    TilesOrdered(s.prev[1..], p, s.L());
    TailOk(s.m.log, s.prev);
    AllOkFrame(s.m.log, s'.m.log, s.prev[1..], p, s.L());
    AllOkFrame(s.m.log, s'.m.log, s.lap, 0, s.m.current);
  }

  lemma FreeRecordsSameLap(s: State)
    requires Inv(s) && Enabled(s, FreeOne) && CanFree(s.m) && !s.wrapped
    ensures var s' := ApplyFree(s); Tiling(s') && Records(s') && FreeIsZero(s')
  {
    OldestIsFreeable(s);
    var s' := ApplyFree(s);
    var p := s'.m.freeing;
    TilesOrdered(s.lap[1..], p, s.m.current);
    TailOk(s.m.log, s.lap);
    AllOkFrame(s.m.log, s'.m.log, s.lap[1..], p, s.m.current);
  }

  /**
   The cleaner looks the record up by key and unlinks only on a pointer match, and that is
   enough: no other index entry can point at the record it frees.
   */
  lemma FreeIndexLive(s: State)
    requires Inv(s) && Enabled(s, FreeOne) && CanFree(s.m)
    ensures IndexLive(ApplyFree(s))
  {
    OldestIsFreeable(s);
    var s' := ApplyFree(s);
    var e := s.Oldest().value;
    assert e.kind == Committed ==> Item(s.m.log, e.start).flags == FlagsOf(Committed);
    forall k | k in s'.m.index
      ensures PointsInto(s'.prev, s'.m.index[k], k) || PointsInto(s'.lap, s'.m.index[k], k)
    {
      var p := s.m.index[k];
      var q := PointsInto(s.prev, p, k);
      var j :| 0 <= j < |s.Part(q)| && Linkable(s.Part(q)[j], p, k);
      if q == s.wrapped {
        assert !Linkable(e, p, k);
        assert Linkable(s.Part(q)[1..][j - 1], p, k);
      }
    }
  }

  lemma FreeKeeps(s: State)
    requires Inv(s) && Enabled(s, FreeOne)
    ensures CanFree(s.m) && Inv(ApplyFree(s))
  {
    OldestIsFreeable(s);
    if s.wrapped {
      FreeRecordsBehind(s);
    } else {
      FreeRecordsSameLap(s);
    }
    FreeIndexLive(s);
  }

  lemma FinishKeeps(s: State)
    requires Inv(s) && Enabled(s, Finish)
    ensures Inv(ApplyFinish(s))
  {
    TilesBounds(s);
    assert s.wrapped && s.m.freeing >= s.L() ==> s.prev == [];
  }

  lemma QuietKeeps(s: State, step: Step)
    requires Inv(s) && Enabled(s, step)
    requires step.Unlink? || step.ReadAvail? || step.ReadFree? || step.Lock?
    ensures Inv(Apply(s, step))
  {
  }

  /** Every step of every thread keeps the invariant, and none makes a stray memory access. */
  lemma StepKeeps(s: State, step: Step)
    requires Inv(s) && Enabled(s, step)
    ensures Safe(s, step) && Inv(Apply(s, step))
  {
    match step
    case Alloc(key, cflags, nbytes) =>
      WantedIsWellSized(key, cflags, nbytes);
      AllocKeeps(s, Wanted(key, cflags, nbytes));
    case Update(prior, i, op) =>
      UpdateKeeps(s, prior, i, op);
      assert Apply(s, step) == ApplyUpdate(s, prior, i, op);
    case FreeOne =>
      FreeKeeps(s);
      assert Apply(s, step) == ApplyFree(s);
    case Finish =>
      FinishKeeps(s);
      assert Apply(s, step) == ApplyFinish(s);
    case _ =>
      QuietKeeps(s, step);
  }

  // ------------------------------------------------- whole runs

  ghost predicate Start(s: State) {
    1024 <= s.L() < 0x8000_0000 && s == Init(s.L())
  }

  ghost predicate Run(states: seq<State>, steps: seq<Step>) {
    Runs.IsRun(Start, Next, states, steps)
  }

  /** The invariant holds in every state of every run, whatever the interleaving. */
  lemma InvIsInductive()
    ensures forall s :: Start(s) ==> Inv(s)
    ensures forall s, step, s' :: Inv(s) && Next(s, step, s') ==> Inv(s')
  {
    forall s | Start(s)
      ensures Inv(s)
    {
      InitKeeps(s.L());
    }
    forall s, step, s' | Inv(s) && Next(s, step, s')
      ensures Inv(s')
    {
      StepKeeps(s, step);
    }
  }

  lemma RunKeeps(states: seq<State>, steps: seq<Step>, n: nat)
    requires Run(states, steps) && n < |states|
    ensures Inv(states[n])
  {
    InvIsInductive();
    Runs.Invariance(Start, Next, Inv, states, steps, n);
  }

  /**
   What a lookup finds is the start of a live record that carries the key: it lies outside
   the free space, it is neither a tombstone nor spoiled nor the cycle marker, and it ends,
   by its own header, inside the log.
   */
  ghost predicate LookupSound(s: State, k: seq<Cell>)
    requires k in s.m.index
  {
    var p := s.m.index[k];
    && p < s.L() && s.m.log[p].Head? && KeyAt(s.m.log, p) == k
    && p + NTotal(Item(s.m.log, p)) <= s.L()
    && !IsMeta(Item(s.m.log, p).flags) && !Item(s.m.log, p).flags.cycle
    && (if s.wrapped then p < s.m.current || s.m.freeing <= p else s.m.freeing <= p < s.m.current)
  }

  lemma LinkableRecord(log: seq<Cell>, e: Extent, p: nat, k: seq<Cell>)
    requires RecordOk(log, e) && Linkable(e, p, k)
    ensures p < |log| && log[p].Head? && KeyAt(log, p) == k && p + NTotal(Item(log, p)) == e.End() <= |log|
    ensures !IsMeta(Item(log, p).flags) && !Item(log, p).flags.cycle
  {
    SelfDescribing(log, e);
  }

  lemma LookupFindsLiveRecord(s: State, k: seq<Cell>)
    requires Inv(s) && k in s.m.index
    ensures LookupSound(s, k)
  {
    var p := s.m.index[k];
    var q := PointsInto(s.prev, p, k);
    var xs := if q then s.prev else s.lap;
    var j :| 0 <= j < |xs| && Linkable(xs[j], p, k);
    assert RecordOk(s.m.log, xs[j]);
    LinkableRecord(s.m.log, xs[j], p, k);
    TilesOrdered(xs, if q || !s.wrapped then s.m.freeing else 0, if q then s.L() else s.m.current);
  }

  /** Index and log agree in every state of every run. */
  lemma IndexAgreesWithLog(states: seq<State>, steps: seq<Step>, n: nat)
    requires Run(states, steps) && n < |states|
    ensures forall k :: k in states[n].m.index ==> LookupSound(states[n], k)
  {
    RunKeeps(states, steps, n);
    forall k | k in states[n].m.index
      ensures LookupSound(states[n], k)
    {
      LookupFindsLiveRecord(states[n], k);
    }
  }

  /** What an allocation hands out is zeroed space that overlaps no live record. */
  lemma AllocationIsFresh(s: State, e: Extent)
    requires Inv(s) && Fits(s, e) && CanAllocate(s.m)
    ensures var r := Allocate(s.m, e.size).1;
            r.Some? ==>
              && r.value + e.size <= s.L() - MIN_ITEM
              && ZeroIn(s.m.log, r.value, r.value + e.size)
              && (forall q, i :: 0 <= i < |s.Part(q)| ==>
                    s.Part(q)[i].End() <= r.value || r.value + e.size <= s.Part(q)[i].start)
  {
    TilesBounds(s);
  }

  /**
   The cleaner never passes the write head: with any allocations, a wrap included, between
   its unlocked reads and the lock, each record it frees ends strictly behind the writer on
   the writer's lap, or at most at the physical end of the log on the lap before.
   */
  lemma CleanerStaysBehind(s: State)
    requires Inv(s) && Enabled(s, FreeOne) && CanFree(s.m)
    ensures var s' := ApplyFree(s);
            if s.wrapped then s.m.current <= s.m.freeing < s'.m.freeing <= s.L()
            else s.m.freeing < s'.m.freeing < s'.m.current
  {
    OldestIsFreeable(s);
  }

  /**
   A lap that the writer has closed ends in a marker that reaches exactly to the end of the
   log and starts at least 35 bytes before it, so a reader that stops when fewer than 35
   bytes remain still meets it.
   */
  lemma MarkerClosesTheLap(s: State)
    requires Inv(s) && s.prev != []
    ensures var e := s.prev[|s.prev| - 1];
            && e.kind == Cycle && e.start + MIN_ITEM <= e.End() == s.L()
            && Item(s.m.log, e.start).flags == FlagsOf(Cycle) && e.start + Item(s.m.log, e.start).nbytes == s.L()
  {
    var i := |s.prev| - 1;
    assert RecordOk(s.m.log, s.prev[i]);
    TilesEnd(s.prev, s.m.freeing, s.L());
  }

  lemma {:induction false} TilesEnd(xs: seq<Extent>, lo: nat, hi: nat)
    requires Tiles(xs, lo, hi) && xs != []
    ensures xs[|xs| - 1].End() == hi
  {
    if |xs| > 1 {
      TilesEnd(xs[1..], xs[0].End(), hi);
    }
  }

  // ------------------------------------------------- the pacing hypothesis

  /** The two shapes of the counters, with no clean in progress. */
  predicate RingOk(m: Mem) {
    || (m.freeing <= m.current && m.current + m.avail == |m.log| && m.freeBeg == m.freeing)
    || (m.current + m.avail == m.freeing && m.freeBeg == 0)
  }

  /**
   In every run, whenever no clean is in progress, the counters are in one of the two shapes,
   and `wrapped` says which.
   */
  lemma RingAccounting(states: seq<State>, steps: seq<Step>, n: nat)
    requires Run(states, steps) && n < |states| && !states[n].pc.Cleaning?
    ensures var s := states[n];
            && RingOk(s.m)
            && (if s.wrapped then s.m.current + s.m.avail == s.m.freeing && s.m.freeBeg == 0
                else s.m.freeing <= s.m.current && s.m.current + s.m.avail == s.L() && s.m.freeBeg == s.m.freeing)
  {
    RunKeeps(states, steps, n);
    TilesBounds(states[n]);
  }

  /**
   memory_allocate does not look where the cleaner is. Its bookkeeping survives exactly when
   it does not wrap while the counters say that free space ends before the end of the log.
   */
  lemma AccountingSurvivesIff(s: State, size: nat)
    requires Inv(s) && !s.pc.Cleaning? && 0 < size <= s.L() / 8
    ensures CanAllocate(s.m) && RingOk(s.m)
    ensures RingOk(Allocate(s.m, size).0) <==> !(Wraps(s.m, size) && s.m.current + s.m.avail < s.L())
  {
    TilesBounds(s);
  }

  // ------------------------------------------------- a whole chunk

  ghost predicate AllSettled(s: State) {
    && (forall i :: 0 <= i < |s.prev| ==> Settled(s.prev[i].kind))
    && (forall i :: 0 <= i < |s.lap| ==> Settled(s.lap[i].kind))
  }

  lemma ChunkStep(s: State)
    requires Inv(s) && s.pc.Cleaning? && AllSettled(s) && s.pc.freed < s.L() / 8 && s.m.freeing < s.L()
    ensures CanFree(s.m)
    ensures var s' := ApplyFree(s);
            && Inv(s') && AllSettled(s') && |s'.prev| + |s'.lap| < |s.prev| + |s.lap|
            && (s'.m, s'.pc.freed - s.pc.freed) == FreeItem(s.m) && s'.pc.freed > s.pc.freed
  {
    assert Enabled(s, FreeOne);
    OldestIsFreeable(s);
    FreeKeeps(s);
  }

  lemma ChunkEnds(m: Mem, freed: nat)
    requires freed >= |m.log| / 8 || m.freeing >= |m.log|
    ensures CanClean(m, freed) && FreeChunk(m, freed) == (m, freed)
  {
  }

  lemma ChunkUnfold(m: Mem, freed: nat, m': Mem, freed': nat)
    requires freed < |m.log| / 8 && m.freeing < |m.log| && CanFree(m)
    requires FreeItem(m) == (m', freed' - freed) && freed' > freed && CanClean(m', freed')
    ensures CanClean(m, freed) && FreeChunk(m, freed) == FreeChunk(m', freed')
  {
  }

  /**
   memlog_free_chunk with no other thread between its turns is a sequence of FreeOne steps:
   it reads no record it should not, and leaves a state from which do_memlog_clean finishes.
   */
  lemma {:induction false} ChunkKeeps(s: State) returns (s': State)
    requires Inv(s) && s.pc.Cleaning? && AllSettled(s)
    ensures CanClean(s.m, s.pc.freed)
    ensures FreeChunk(s.m, s.pc.freed) == (s'.m, s'.Freed())
    ensures Inv(s') && Enabled(s', Finish)
    decreases |s.prev| + |s.lap|
  {
    if s.pc.freed >= s.L() / 8 || s.m.freeing >= s.L() {
      ChunkEnds(s.m, s.pc.freed);
      s' := s;
    } else {
      ChunkStep(s);
      var t := ApplyFree(s);
      s' := ChunkKeeps(t);
      ChunkUnfold(s.m, s.pc.freed, t.m, t.pc.freed);
    }
  }

  /** A whole do_memlog_clean leaves the counters in one of their two shapes. */
  lemma CleanKeeps(s: State)
    requires Inv(s) && s.pc == Cleaning(0) && AllSettled(s)
    ensures CanClean(s.m, 0)
    ensures var (m, freed) := FreeChunk(s.m, 0); RingOk(FinishClean(m, freed))
  {
    var s' := ChunkKeeps(s);
    FinishKeeps(s');
    TilesBounds(ApplyFinish(s'));
  }
}
