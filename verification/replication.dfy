/**
 Replay on the slave (do_store_replication in memcached.c) and the pull loop around it
 (backup_client_replication_handler in backup_rdma.c). Each RDMA read of a chunk is an
 atomic snapshot of the master's log.
 */
module Replication {
  import opened Layout
  import opened MemLog

  /** The slave's log, key index and CAS counter. */
  datatype Data = Data(log: seq<Cell>, index: map<seq<Cell>, nat>, casId: nat)

  /**
   `offset` is the replication offset that do_store_replication returns; `current`, `avail`
   and `freeBeg` are the slave's own ring counters; `seen` counts the records it applied and
   `lapped` says that it met the cycle marker.
   */
  datatype Position = Position(offset: nat, current: nat, avail: int, freeBeg: nat, seen: nat, lapped: bool)

  datatype Slave = Slave(data: Data, at: Position) {
    function Log(): seq<Cell> { data.log }
    function Offset(): nat { at.offset }
  }

  /** A finished record that is not the cycle marker. */
  predicate Applies(f: Flags) {
    f.stored && !f.dirty && !f.cycle
  }

  /** What a finished record does to the index: nothing, unlink, or link the copy in place. */
  function Absorb(d: Data, p: nat): (r: Data)
    requires p + MIN_ITEM <= |d.log|
    ensures |r.log| == |d.log|
  {
    var f := Item(d.log, p).flags;
    var k := KeyAt(d.log, p);
    if f.corrupted then d
    else if f.deleted then d.(index := d.index - {k})
    else Data(SetCasId(d.log, p, d.casId + 1), d.index[k := p], d.casId + 1)
  }

  function Advance(at: Position, n: nat): Position {
    at.(offset := at.offset + n, current := at.current + n, avail := at.avail - n, seen := at.seen + 1)
  }

  /** One turn of the replay loop on a finished record. */
  function ApplyRecord(sl: Slave): (r: Slave)
    requires sl.Offset() + MIN_ITEM <= |sl.Log()|
    ensures |r.Log()| == |sl.Log()|
  {
    Slave(Absorb(sl.data, sl.Offset()), Advance(sl.at, NTotal(Item(sl.Log(), sl.Offset()))))
  }

  /** The replay loop goes round: 35 bytes remain before `stop`, the record is finished and all of it was copied. */
  predicate TakesRecord(sl: Slave, stop: nat)
    requires stop <= |sl.Log()|
  {
    && sl.Offset() + MIN_ITEM <= stop
    && Applies(Item(sl.Log(), sl.Offset()).flags) && sl.Offset() + NTotal(Item(sl.Log(), sl.Offset())) <= stop
  }

  predicate MeetsMarker(sl: Slave, stop: nat)
    requires stop <= |sl.Log()|
  {
    && sl.Offset() + MIN_ITEM <= stop
    && Item(sl.Log(), sl.Offset()).flags.stored && !Item(sl.Log(), sl.Offset()).flags.dirty
    && Item(sl.Log(), sl.Offset()).flags.cycle
  }

  /** The cycle marker sends the slave back to the base of its log. */
  function StartOver(sl: Slave): Slave {
    sl.(at := sl.at.(offset := 0, current := 0, avail := sl.at.freeBeg, freeBeg := 0, lapped := true))
  }

  /** do_store_replication on the bytes from the replication offset to `stop`. */
  function Replay(sl: Slave, stop: nat): (r: Slave)
    requires stop <= |sl.Log()|
    ensures |r.Log()| == |sl.Log()|
    decreases stop - sl.Offset()
  {
    if TakesRecord(sl, stop) then Replay(ApplyRecord(sl), stop)
    else if MeetsMarker(sl, stop) then StartOver(sl)
    else sl
  }

  lemma ReplayTakes(sl: Slave, stop: nat)
    requires stop <= |sl.Log()| && TakesRecord(sl, stop)
    ensures Replay(sl, stop) == Replay(ApplyRecord(sl), stop)
  {
  }

  lemma ReplayStops(sl: Slave, stop: nat)
    requires stop <= |sl.Log()| && !TakesRecord(sl, stop)
    ensures Replay(sl, stop) == if MeetsMarker(sl, stop) then StartOver(sl) else sl
  {
  }

  /** The RDMA read of [offset, stop) from the master's log `m`. */
  function Load(sl: Slave, m: seq<Cell>, stop: nat): Slave
    requires sl.Offset() <= stop <= |m| == |sl.Log()|
  {
    sl.(data := sl.data.(log := Write(sl.Log(), sl.Offset(), m[sl.Offset()..stop])))
  }

  /** One round of the handler. */
  function Pull(sl: Slave, m: seq<Cell>, stop: nat): Slave
    requires sl.Offset() <= stop <= |m| == |sl.Log()|
  {
    Replay(Load(sl, m, stop), stop)
  }

  const REPLICATION_CHUNK: nat := 2 * 1024 * 1024

  /** Where the handler's next chunk ends. */
  function ChunkEnd(sl: Slave): (n: nat)
    requires sl.Offset() <= |sl.Log()|
    ensures sl.Offset() <= n <= |sl.Log()|
  {
    if REPLICATION_CHUNK < |sl.Log()| - sl.Offset() then sl.Offset() + REPLICATION_CHUNK else |sl.Log()|
  }

  /** Rounds of the handler against the master's logs at the times of its reads. */
  function Rounds(sl: Slave, ms: seq<seq<Cell>>): Slave
    requires sl.Offset() <= |sl.Log()| && forall i :: 0 <= i < |ms| ==> |ms[i]| == |sl.Log()|
    decreases |ms|
  {
    if ms == [] then sl
    else
      ReplayOffset(Load(sl, ms[0], ChunkEnd(sl)), ChunkEnd(sl));
      Rounds(Pull(sl, ms[0], ChunkEnd(sl)), ms[1..])
  }

  lemma {:induction false} ReplayOffset(sl: Slave, stop: nat)
    requires sl.Offset() <= stop <= |sl.Log()|
    ensures Replay(sl, stop).Offset() <= stop
    decreases stop - sl.Offset()
  {
    if TakesRecord(sl, stop) {
      ReplayOffset(ApplyRecord(sl), stop);
    }
  }

  lemma RoundsTakes(sl: Slave, ms: seq<seq<Cell>>)
    requires sl.Offset() <= |sl.Log()| && ms != [] && forall i :: 0 <= i < |ms| ==> |ms[i]| == |sl.Log()|
    ensures Pull(sl, ms[0], ChunkEnd(sl)).Offset() <= |sl.Log()|
    ensures Rounds(sl, ms) == Rounds(Pull(sl, ms[0], ChunkEnd(sl)), ms[1..])
  {
    ReplayOffset(Load(sl, ms[0], ChunkEnd(sl)), ChunkEnd(sl));
  }

  // ------------------------------------------------- chunking does not matter

  /** The slave's own write head follows the replication offset, and what is left of its log is exact. */
  predicate InStep(sl: Slave) {
    && !sl.at.lapped && sl.at.current == sl.Offset() && sl.at.current + sl.at.avail == |sl.Log()|
  }

  /**
   `remaining_size` and the slave's mem_avail never underflow, mem_current moves with the
   returned offset, and the offset stays inside the chunk unless the marker sent it back to 0.
   */
  lemma {:induction false} ReplayInStep(sl: Slave, stop: nat)
    requires sl.Offset() <= stop <= |sl.Log()| && InStep(sl)
    ensures var r := Replay(sl, stop);
            if r.at.lapped then r.Offset() == 0 && r.at.current == 0
            else InStep(r) && sl.Offset() <= r.Offset() <= stop && 0 <= r.at.avail
    decreases stop - sl.Offset()
  {
    if TakesRecord(sl, stop) {
      ReplayInStep(ApplyRecord(sl), stop);
    }
  }

  /** A pass can be cut anywhere and resumed from the returned offset. */
  lemma {:induction false} ReplayResumes(sl: Slave, mid: nat, stop: nat) returns (r: Slave)
    requires sl.Offset() <= mid <= stop <= |sl.Log()| && InStep(sl)
    ensures r == Replay(sl, mid) && |r.Log()| == |sl.Log()|
    ensures Replay(sl, stop) == if r.at.lapped then r else Replay(r, stop)
    decreases mid - sl.Offset()
  {
    if TakesRecord(sl, mid) {
      ReplayTakes(sl, mid);
      ReplayTakes(sl, stop);
      r := ReplayResumes(ApplyRecord(sl), mid, stop);
    } else {
      ReplayStops(sl, mid);
      if MeetsMarker(sl, mid) {
        ReplayStops(sl, stop);
        r := StartOver(sl);
      } else {
        r := sl;
      }
    }
  }

  function WithLog(sl: Slave, log: seq<Cell>): Slave {
    sl.(data := sl.data.(log := log))
  }

  ghost predicate AgreeBelow(a: seq<Cell>, b: seq<Cell>, n: nat) {
    |a| == |b| && forall i :: 0 <= i < n && i < |a| ==> a[i] == b[i]
  }

  ghost predicate AgreeFrom(a: seq<Cell>, b: seq<Cell>, n: nat) {
    |a| == |b| && forall i :: n <= i < |a| ==> a[i] == b[i]
  }

  lemma ApplyRecordLocal(x: Slave, log: seq<Cell>, stop: nat)
    requires stop <= |x.Log()| && TakesRecord(x, stop) && AgreeBelow(x.Log(), log, stop)
    ensures var y := WithLog(x, log);
            var rx, ry := ApplyRecord(x), ApplyRecord(y);
            && TakesRecord(y, stop) && ry == WithLog(rx, ry.Log())
            && AgreeFrom(rx.Log(), x.Log(), rx.Offset()) && AgreeBelow(rx.Log(), ry.Log(), stop)
  {
    var p, kp, nk := x.Offset(), KeyPos(x.Log(), x.Offset()), Item(x.Log(), x.Offset()).nkey;
    assert kp + nk < p + NTotal(Item(x.Log(), p));
    assert x.Log()[kp..kp + nk] == log[kp..kp + nk];
  }

  /** A chunk is replayed from its own bytes alone. */
  lemma {:induction false} ReplayLocal(x: Slave, log: seq<Cell>, stop: nat) returns (rx: Slave, ry: Slave)
    requires x.Offset() <= stop <= |x.Log()| && AgreeBelow(x.Log(), log, stop) && InStep(x)
    ensures rx == Replay(x, stop) && ry == Replay(WithLog(x, log), stop) && ry == WithLog(rx, ry.Log())
    ensures AgreeBelow(rx.Log(), ry.Log(), stop)
    ensures !rx.at.lapped ==>
              x.Offset() <= rx.Offset() <= stop && InStep(rx) && AgreeFrom(rx.Log(), x.Log(), rx.Offset())
    decreases stop - x.Offset()
  {
    var y := WithLog(x, log);
    if TakesRecord(x, stop) {
      ApplyRecordLocal(x, log, stop);
      ReplayTakes(x, stop);
      ReplayTakes(y, stop);
      rx, ry := ReplayLocal(ApplyRecord(x), ApplyRecord(y).Log(), stop);
    } else {
      ReplayStops(x, stop);
      ReplayStops(y, stop);
      rx := if MeetsMarker(x, stop) then StartOver(x) else x;
      ry := if MeetsMarker(x, stop) then StartOver(y) else y;
    }
  }

  /** One pull of everything that is left of the log. */
  function PullAll(sl: Slave, m: seq<Cell>): Slave
    requires sl.Offset() <= |m| == |sl.Log()|
  {
    Pull(sl, m, |m|)
  }

  /** Loading the rest of a log into a slave that agrees below its offset gives that log. */
  lemma LoadRest(r: Slave, m: seq<Cell>, full: Slave)
    requires |m| == |r.Log()| == |full.Log()| && r.Offset() <= |m| && r == WithLog(full, r.Log())
    requires AgreeBelow(full.Log(), r.Log(), r.Offset()) && AgreeFrom(full.Log(), m, r.Offset())
    ensures Load(r, m, |m|) == full
  {
    assert Load(r, m, |m|).Log() == full.Log();
  }

  /** A pull of any size, followed by a pull of the rest, is one pull of everything. */
  lemma PullResumes(sl: Slave, m: seq<Cell>, mid: nat) returns (r: Slave)
    requires sl.Offset() <= mid <= |m| == |sl.Log()| && InStep(sl)
    ensures r == Pull(sl, m, mid) && |r.Log()| == |m|
    ensures r.at.lapped ==> r == WithLog(PullAll(sl, m), r.Log())
    ensures !r.at.lapped ==> InStep(r) && sl.Offset() <= r.Offset() <= |m| && PullAll(r, m) == PullAll(sl, m)
  {
    var x, y := Load(sl, m, |m|), Load(sl, m, mid);
    assert y == WithLog(x, y.Log());
    var rx, ry := ReplayLocal(x, y.Log(), mid);
    var _ := ReplayResumes(x, mid, |m|);
    r := ry;
    if !rx.at.lapped {
      LoadRest(r, m, rx);
    }
  }

  /** The handler loop against an unchanging master, with any chunk sizes, up to the marker. */
  function Pulls(sl: Slave, m: seq<Cell>, sizes: seq<nat>): (r: Slave)
    requires sl.Offset() <= |m| == |sl.Log()|
    ensures |r.Log()| == |m|
    decreases |sizes|
  {
    if sizes == [] || sl.at.lapped || sl.Offset() + sizes[0] > |m| then sl
    else
      ReplayOffset(Load(sl, m, sl.Offset() + sizes[0]), sl.Offset() + sizes[0]);
      Pulls(Pull(sl, m, sl.Offset() + sizes[0]), m, sizes[1..])
  }

  lemma PullsStops(sl: Slave, m: seq<Cell>, sizes: seq<nat>)
    requires sl.Offset() <= |m| == |sl.Log()| && (sizes == [] || sl.at.lapped || sl.Offset() + sizes[0] > |m|)
    ensures Pulls(sl, m, sizes) == sl
  {
  }

  /** What one pass still has to do from here leads to `full`; at the marker it is done. */
  ghost predicate Leads(t: Slave, m: seq<Cell>, full: Slave)
    requires t.Offset() <= |m| == |t.Log()|
  {
    if t.at.lapped then t == WithLog(full, t.Log()) else InStep(t) && PullAll(t, m) == full
  }

  lemma LeadsOn(sl: Slave, m: seq<Cell>, mid: nat, full: Slave)
    requires sl.Offset() <= mid <= |m| == |sl.Log()| && Leads(sl, m, full) && !sl.at.lapped
    ensures Pull(sl, m, mid).Offset() <= |m| && Leads(Pull(sl, m, mid), m, full)
  {
    var r := PullResumes(sl, m, mid);
    ReplayOffset(Load(sl, m, mid), mid);
  }

  lemma {:induction false} PullsLead(sl: Slave, m: seq<Cell>, sizes: seq<nat>, full: Slave)
    requires sl.Offset() <= |m| == |sl.Log()| && Leads(sl, m, full)
    ensures Pulls(sl, m, sizes).Offset() <= |m| && Leads(Pulls(sl, m, sizes), m, full)
    decreases |sizes|
  {
    if sizes == [] || sl.at.lapped || sl.Offset() + sizes[0] > |m| {
      PullsStops(sl, m, sizes);
    } else {
      var mid := sl.Offset() + sizes[0];
      LeadsOn(sl, m, mid, full);
      assert [mid - sl.Offset()] + sizes[1..] == sizes;
      PullsTakes(sl, m, mid, sizes[1..]);
      PullsLead(Pull(sl, m, mid), m, sizes[1..], full);
    }
  }

  /**
   Replay is independent of chunking: for every log and every sequence of chunk sizes, what
   the rounds so far have not yet applied is exactly what one pass over the whole log would
   still apply, and once they meet the marker they have given what that pass gives.
   */
  lemma ChunkingIsIrrelevant(sl: Slave, m: seq<Cell>, sizes: seq<nat>)
    requires sl.Offset() <= |m| == |sl.Log()| && InStep(sl)
    ensures var t := Pulls(sl, m, sizes);
            if t.at.lapped then t == WithLog(PullAll(sl, m), t.Log())
            else InStep(t) && t.Offset() <= |m| && PullAll(t, m) == PullAll(sl, m)
  {
    PullsLead(sl, m, sizes, PullAll(sl, m));
  }

  /** A chunk wide enough for the record at the offset, if it is finished, or reaching to the end of the log. */
  predicate WideEnough(sl: Slave, m: seq<Cell>, stop: nat)
    requires sl.Offset() < |m|
  {
    || stop == |m|
    || (sl.Offset() + MIN_ITEM <= stop
        && (Applies(Item(m, sl.Offset()).flags) ==> sl.Offset() + NTotal(Item(m, sl.Offset())) <= stop))
  }

  /** When a round with such a chunk makes no progress, the rounds so far have done the work of one pass. */
  lemma StuckMeansDone(sl: Slave, m: seq<Cell>, sizes: seq<nat>, stop: nat)
    requires sl.Offset() <= |m| == |sl.Log()| && InStep(sl)
    requires var t := Pulls(sl, m, sizes);
             && !t.at.lapped && t.Offset() < |m| && t.Offset() <= stop <= |m| && WideEnough(t, m, stop)
             && Pull(t, m, stop).at == t.at
    ensures var t := Pulls(sl, m, sizes);
            t.at == PullAll(sl, m).at && t.data.index == PullAll(sl, m).data.index
  {
    ChunkingIsIrrelevant(sl, m, sizes);
    var t := Pulls(sl, m, sizes);
    NoTake(t, m, stop);
  }

  lemma NoTake(t: Slave, m: seq<Cell>, stop: nat)
    requires t.Offset() < |m| == |t.Log()| && t.Offset() <= stop <= |m| && InStep(t) && WideEnough(t, m, stop)
    requires Pull(t, m, stop).at == t.at
    ensures PullAll(t, m) == Load(t, m, |m|)
  {
    var x, y := Load(t, m, stop), Load(t, m, |m|);
    if TakesRecord(x, stop) {
      ReplayTakes(x, stop);
      ReplayInStep(ApplyRecord(x), stop);
      assert false;
    }
    ReplayStops(x, stop);
    ReplayStops(y, |m|);
  }

  // ------------------------------------------------- the handler's own chunks

  /** No finished record is longer than a chunk. */
  ghost predicate ShortRecords(m: seq<Cell>) {
    forall p :: 0 <= p < |m| && Applies(Item(m, p).flags) ==> NTotal(Item(m, p)) <= REPLICATION_CHUNK
  }

  lemma ChunkIsWide(sl: Slave, m: seq<Cell>)
    requires sl.Offset() < |m| == |sl.Log()| && ShortRecords(m)
    ensures WideEnough(sl, m, ChunkEnd(sl))
  {
  }

  /** At most n rounds against the unchanging log `m`; the marker ends them. */
  function RoundsTo(sl: Slave, m: seq<Cell>, n: nat): (r: Slave)
    requires sl.Offset() <= |m| == |sl.Log()|
    ensures r.Offset() <= |m| == |r.Log()|
    decreases n
  {
    if n == 0 || sl.at.lapped then sl
    else
      ReplayOffset(Load(sl, m, ChunkEnd(sl)), ChunkEnd(sl));
      RoundsTo(Pull(sl, m, ChunkEnd(sl)), m, n - 1)
  }

  lemma RoundsToTakes(sl: Slave, m: seq<Cell>, n: nat)
    requires sl.Offset() <= |m| == |sl.Log()| && n > 0 && !sl.at.lapped
    ensures Pull(sl, m, ChunkEnd(sl)).Offset() <= |m|
    ensures RoundsTo(sl, m, n) == RoundsTo(Pull(sl, m, ChunkEnd(sl)), m, n - 1)
  {
    ReplayOffset(Load(sl, m, ChunkEnd(sl)), ChunkEnd(sl));
  }

  lemma RoundsToStops(sl: Slave, m: seq<Cell>, n: nat)
    requires sl.Offset() <= |m| == |sl.Log()| && sl.at.lapped
    ensures RoundsTo(sl, m, n) == sl
  {
  }

  lemma PullsTakes(sl: Slave, m: seq<Cell>, stop: nat, sizes: seq<nat>)
    requires sl.Offset() <= stop <= |m| == |sl.Log()| && !sl.at.lapped
    ensures Pull(sl, m, stop).Offset() <= |m|
    ensures Pulls(sl, m, [stop - sl.Offset()] + sizes) == Pulls(Pull(sl, m, stop), m, sizes)
  {
    ReplayOffset(Load(sl, m, stop), stop);
    assert ([stop - sl.Offset()] + sizes)[1..] == sizes;
  }

  /** The handler's rounds are pulls with the handler's chunk sizes, up to the marker. */
  lemma {:induction false} RoundsArePulls(sl: Slave, m: seq<Cell>, n: nat) returns (sizes: seq<nat>)
    requires sl.Offset() <= |m| == |sl.Log()|
    ensures RoundsTo(sl, m, n) == Pulls(sl, m, sizes)
    ensures |sizes| <= n && forall i :: 0 <= i < |sizes| ==> sizes[i] <= REPLICATION_CHUNK
    decreases n
  {
    if n == 0 || sl.at.lapped {
      sizes := [];
    } else {
      RoundsToTakes(sl, m, n);
      var stop := ChunkEnd(sl);
      var rest := RoundsArePulls(Pull(sl, m, stop), m, n - 1);
      PullsTakes(sl, m, stop, rest);
      sizes := [stop - sl.Offset()] + rest;
    }
  }

  function Same(m: seq<Cell>, n: nat): (ms: seq<seq<Cell>>)
    ensures |ms| == n && forall i :: 0 <= i < n ==> ms[i] == m
  {
    seq(n, _ => m)
  }

  /** They are the rounds of the handler on a log that does not change, all of them or up to the marker. */
  lemma {:induction false} RoundsToIsRounds(sl: Slave, m: seq<Cell>, n: nat) returns (j: nat)
    requires sl.Offset() <= |m| == |sl.Log()|
    ensures j <= n && Rounds(sl, Same(m, j)) == RoundsTo(sl, m, n)
    ensures !RoundsTo(sl, m, n).at.lapped ==> j == n
    decreases n
  {
    if n == 0 || sl.at.lapped {
      j := 0;
      assert Same(m, 0) == [];
    } else {
      RoundsToTakes(sl, m, n);
      j := RoundsToIsRounds(Pull(sl, m, ChunkEnd(sl)), m, n - 1);
      j := j + 1;
      assert Same(m, j)[1..] == Same(m, j - 1);
      RoundsTakes(sl, Same(m, j));
    }
  }

  /** Position and index are those of one pass over the whole log. */
  ghost predicate AsOnePass(t: Slave, sl: Slave, m: seq<Cell>)
    requires sl.Offset() <= |m| == |sl.Log()|
  {
    t.at == PullAll(sl, m).at && t.data.index == PullAll(sl, m).data.index
  }

  /** Replay that comes back to its offset has applied nothing. */
  lemma ReplayUnmoved(sl: Slave, stop: nat)
    requires sl.Offset() <= stop <= |sl.Log()| && InStep(sl)
    requires var r := Replay(sl, stop); !r.at.lapped && r.Offset() == sl.Offset()
    ensures !TakesRecord(sl, stop) && Replay(sl, stop) == sl
  {
    if TakesRecord(sl, stop) {
      ReplayTakes(sl, stop);
      ReplayInStep(ApplyRecord(sl), stop);
      assert false;
    }
    ReplayStops(sl, stop);
  }

  /** A round that does not move the slave only loads the chunk, and so do all rounds after it. */
  lemma RoundIdles(sl: Slave, m: seq<Cell>, n: nat)
    requires sl.Offset() <= |m| == |sl.Log()| && InStep(sl)
    requires var r := Pull(sl, m, ChunkEnd(sl)); !r.at.lapped && r.Offset() == sl.Offset()
    ensures RoundsTo(sl, m, n).at == sl.at && RoundsTo(sl, m, n).data.index == sl.data.index
  {
    var stop := ChunkEnd(sl);
    var r := Load(sl, m, stop);
    ReplayUnmoved(r, stop);
    if n > 0 {
      RoundsToTakes(sl, m, n);
      assert Load(r, m, stop).Log() == r.Log();
      RoundsFixed(r, m, n - 1);
    }
  }

  lemma {:induction false} RoundsFixed(r: Slave, m: seq<Cell>, n: nat)
    requires r.Offset() <= |m| == |r.Log()| && Pull(r, m, ChunkEnd(r)) == r
    ensures RoundsTo(r, m, n) == r
    decreases n
  {
    if n > 0 && !r.at.lapped {
      RoundsToTakes(r, m, n);
      RoundsFixed(r, m, n - 1);
    }
  }

  /** Nothing at the end of the log. */
  lemma PullAtEnd(sl: Slave, m: seq<Cell>)
    requires sl.Offset() == |m| == |sl.Log()|
    ensures PullAll(sl, m) == Load(sl, m, |m|)
  {
    ReplayStops(Load(sl, m, |m|), |m|);
  }

  /** A round that does not move the slave has found nothing that one pass would still apply. */
  lemma UnmovedIsDone(sl: Slave, m: seq<Cell>, n: nat)
    requires sl.Offset() <= |m| == |sl.Log()| && InStep(sl) && ShortRecords(m)
    requires var r := Pull(sl, m, ChunkEnd(sl)); !r.at.lapped && r.Offset() == sl.Offset()
    ensures AsOnePass(RoundsTo(sl, m, n), sl, m)
  {
    RoundIdles(sl, m, n);
    if sl.Offset() == |m| {
      PullAtEnd(sl, m);
    } else {
      ChunkIsWide(sl, m);
      ReplayUnmoved(Load(sl, m, ChunkEnd(sl)), ChunkEnd(sl));
      NoTake(sl, m, ChunkEnd(sl));
    }
  }

  /**
   With records no longer than a chunk, finitely many rounds of the handler have the effect
   of one pass over the whole log, and rounds after them change nothing more.
   */
  lemma {:induction false} HandlerFinishes(sl: Slave, m: seq<Cell>, n: nat)
    requires sl.Offset() <= |m| == |sl.Log()| && InStep(sl) && ShortRecords(m) && n > |m| - sl.Offset()
    ensures AsOnePass(RoundsTo(sl, m, n), sl, m)
    decreases n
  {
    var r := PullResumes(sl, m, ChunkEnd(sl));
    if !r.at.lapped && r.Offset() == sl.Offset() {
      UnmovedIsDone(sl, m, n);
    } else {
      RoundsToTakes(sl, m, n);
      if r.at.lapped {
        RoundsToStops(r, m, n - 1);
      } else {
        HandlerFinishes(r, m, n - 1);
      }
    }
  }

  /** So the handler's own loop on a log that does not change, run long enough, is one pass over it. */
  lemma RoundsDoOnePass(sl: Slave, m: seq<Cell>, n: nat) returns (j: nat)
    requires sl.Offset() <= |m| == |sl.Log()| && InStep(sl) && ShortRecords(m) && n > |m| - sl.Offset()
    ensures j <= n && AsOnePass(Rounds(sl, Same(m, j)), sl, m)
    ensures !PullAll(sl, m).at.lapped ==> j == n
  {
    HandlerFinishes(sl, m, n);
    j := RoundsToIsRounds(sl, m, n);
  }
}
