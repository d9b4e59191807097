/**
 The circular log (memlog.c) and the writes that items.c and memcached.c make to the
 records in it: the code's own operations on the log, on the ring counters (as offsets
 from mem_base) and on the key index.
 */
module MemLog {
  import opened Common
  import opened Layout

  datatype Option<+T> = None | Some(value: T)

  datatype Mem = Mem(log: seq<Cell>, current: nat, avail: nat, freeBeg: nat, freeing: nat,
                     index: map<seq<Cell>, nat>)

  // ------------------------------------------------- memory_allocate

  /** What memory_allocate prints into its buffer to know the length of a number. */
  function Printed(avail: nat): seq<Cell> {
    SignedDecimal(avail - HEADER - 2 - 4)
  }

  lemma PrintedLength(avail: nat, d: nat)
    requires 1 <= d && (if avail >= 22 then avail - 22 < Pow10(d) else 22 - avail < Pow10(d - 1))
    ensures |Printed(avail)| <= d
  {
    if avail >= 22 {
      DigitsLength(avail - 22, d);
    } else {
      assert d > 1;
      DigitsLength(22 - avail, d - 1);
    }
  }

  /** The integer division of a small number by -16, -2, -4 and -2 taken as unsigned 64-bit values. */
  lemma HugeDivisors(n: nat)
    requires n < 12
    ensures n / 0xffff_ffff_ffff_fff0 / 0xffff_ffff_ffff_fffe / 0xffff_ffff_ffff_fffc / 0xffff_ffff_ffff_fffe == 0
  {
  }

  /**
   The `nbytes` that memory_allocate computes for a cycle record: what the chain of "/"
   subtracts is zero, so the record covers all that is left of the log.
   */
  function CycleBytes(avail: nat): (r: Length)
    requires avail < 0x8000_0000
    ensures r == avail
  {
    PrintedShort(avail);
    HugeDivisors(|Printed(avail)|);
    avail - |Printed(avail)|
            / 0xffff_ffff_ffff_fff0 / 0xffff_ffff_ffff_fffe / 0xffff_ffff_ffff_fffc / 0xffff_ffff_ffff_fffe
  }

  lemma PrintedShort(avail: nat)
    requires avail < 0x8000_0000
    ensures |Printed(avail)| <= 10
  {
    assert Pow10(10) == 10_000_000_000 && Pow10(9) == 1_000_000_000;
    PrintedLength(avail, 10);
  }

  function SetFlags(log: seq<Cell>, p: nat, f: Flags): (r: seq<Cell>)
    requires p < |log|
    ensures |r| == |log|
  {
    log[p := Head(Item(log, p).(flags := f))]
  }

  /** The marker of memory_allocate. */
  function WriteCycle(log: seq<Cell>, p: nat, nbytes: Length): (r: seq<Cell>)
    requires p < |log|
    ensures |r| == |log|
  {
    var log1 := SetFlags(log, p, Item(log, p).flags.(dirty := true).(cycle := true));
    var log2 := log1[p := Head(Item(log1, p).(nkey := 1).(nbytes := nbytes))];
    SetFlags(log2, p, Item(log2, p).flags.(dirty := false).(stored := true))
  }

  /** memory_allocate starts over from the base of the log. */
  predicate Wraps(m: Mem, size: nat) {
    m.current + size > |m.log| - MIN_ITEM
  }

  predicate CanAllocate(m: Mem) {
    m.current < |m.log| && m.avail < 0x8000_0000
  }

  function Wrap(m: Mem): Mem
    requires CanAllocate(m)
  {
    m.(log := WriteCycle(m.log, m.current, CycleBytes(m.avail)), current := 0, avail := m.freeBeg, freeBeg := 0)
  }

  function Allocate(m: Mem, size: nat): (Mem, Option<nat>)
    requires CanAllocate(m)
  {
    var m1 := if Wraps(m, size) then Wrap(m) else m;
    if size > m1.avail then (m1, None)
    else (m1.(current := m1.current + size, avail := m1.avail - size), Some(m1.current))
  }

  // ------------------------------------------------- memlog_free_item, do_memlog_clean

  predicate IsMeta(f: Flags) {
    f.corrupted || f.deleted
  }

  /** How far the cleaner moves over the record with header `h`. */
  function FreeLength(h: Header): nat {
    if !IsMeta(h.flags) && h.flags.cycle then h.nbytes else NTotal(h)
  }

  predicate CanFree(m: Mem) {
    m.freeing < |m.log| && m.freeing + FreeLength(Item(m.log, m.freeing)) <= |m.log|
  }

  function FreeIndex(m: Mem): map<seq<Cell>, nat>
    requires m.freeing < |m.log|
  {
    var f := Item(m.log, m.freeing).flags;
    var k := KeyAt(m.log, m.freeing);
    if !IsMeta(f) && !f.cycle && k in m.index && m.index[k] == m.freeing then m.index - {k} else m.index
  }

  function FreeItem(m: Mem): (Mem, nat)
    requires CanFree(m)
  {
    var n := FreeLength(Item(m.log, m.freeing));
    (m.(log := Zero(m.log, m.freeing, n), freeing := m.freeing + n, index := FreeIndex(m)), n)
  }

  /** Every record that a chunk clean will meet, having freed `freed` bytes, ends inside the log. */
  predicate CanClean(m: Mem, freed: nat)
    decreases |m.log| - m.freeing
  {
    || freed >= |m.log| / 8
    || m.freeing >= |m.log|
    || (CanFree(m) && FreeItem(m).1 > 0 && CanClean(FreeItem(m).0, freed + FreeItem(m).1))
  }

  /** memlog_free_chunk: free records until an eighth of the log is free or its end is reached. */
  function FreeChunk(m: Mem, freed: nat): (Mem, nat)
    requires CanClean(m, freed)
    decreases |m.log| - m.freeing
  {
    if freed >= |m.log| / 8 || m.freeing >= |m.log| then (m, freed)
    else FreeChunk(FreeItem(m).0, freed + FreeItem(m).1)
  }

  /** The counter update at the end of do_memlog_clean. */
  function FinishClean(m: Mem, freed: nat): Mem
  {
    if freed == 0 then m
    else
      var m1 := if m.current <= m.freeing then m.(avail := m.avail + freed)
                else m.(freeBeg := m.freeBeg + freed);
      if m1.freeing >= |m1.log| then m1.(freeing := 0) else m1
  }

  // ------------------------------------------------- extents

  /**
   Life of a record: reserved by memory_allocate, filled by do_item_alloc (a tombstone
   is then finished), then linked and committed, spoiled (bad data chunk) or abandoned
   (a store that failed, which leaves it dirty).
   */
  datatype Kind = Reserved | Pending | Linked | Committed | Abandoned | Corrupt | Tombstone | Cycle

  /** A stretch of the log handed out to one record, and what it was handed out for. */
  datatype Extent = Extent(start: nat, size: nat, key: Key, suffix: seq<Cell>, deleted: bool, nbytes: nat, kind: Kind) {
    function End(): nat { start + size }
  }

  /** No thread will write to the record again. */
  predicate Settled(k: Kind) {
    k != Reserved && k != Pending && k != Linked
  }

  ghost predicate Tiles(xs: seq<Extent>, lo: nat, hi: nat) {
    if xs == [] then lo == hi
    else xs[0].start == lo && xs[0].size > 0 && Tiles(xs[1..], xs[0].End(), hi)
  }

  lemma {:induction false} TilesAppend(xs: seq<Extent>, lo: nat, hi: nat, e: Extent)
    requires Tiles(xs, lo, hi) && e.start == hi && e.size > 0
    ensures Tiles(xs + [e], lo, e.End())
  {
    if xs == [] {
      assert Tiles([], e.End(), e.End());
      assert (xs + [e])[1..] == [];
    } else {
      TilesAppend(xs[1..], xs[0].End(), hi, e);
      assert (xs + [e])[1..] == xs[1..] + [e];
    }
  }

  lemma {:induction false} TilesUpdate(xs: seq<Extent>, lo: nat, hi: nat, i: nat, e: Extent)
    requires Tiles(xs, lo, hi) && i < |xs|
    requires e.start == xs[i].start && e.size == xs[i].size
    ensures Tiles(xs[i := e], lo, hi)
  {
    if i == 0 {
      assert xs[0 := e][1..] == xs[1..];
    } else {
      TilesUpdate(xs[1..], xs[0].End(), hi, i - 1, e);
      assert xs[i := e][1..] == xs[1..][i - 1 := e];
    }
  }

  lemma {:induction false} TilesOrdered(xs: seq<Extent>, lo: nat, hi: nat)
    requires Tiles(xs, lo, hi)
    ensures lo <= hi && (xs != [] ==> lo < hi)
    ensures forall i :: 0 <= i < |xs| ==> lo <= xs[i].start < xs[i].End() <= hi
    ensures forall i, j :: 0 <= i < j < |xs| ==> xs[i].End() <= xs[j].start
  {
    if xs != [] {
      TilesOrdered(xs[1..], xs[0].End(), hi);
      assert forall i :: 0 < i < |xs| ==> xs[i] == xs[1..][i - 1];
    }
  }

  // ------------------------------------------------- what the cells of an extent hold

  function FlagsOf(k: Kind): Flags {
    match k
    case Reserved => NO_FLAGS
    case Pending | Linked | Abandoned => NO_FLAGS.(cas := true, dirty := true)
    case Committed => NO_FLAGS.(cas := true, stored := true)
    case Corrupt => NO_FLAGS.(cas := true, corrupted := true, stored := true)
    case Tombstone => NO_FLAGS.(deleted := true, stored := true)
    case Cycle => NO_FLAGS.(cycle := true, stored := true)
  }

  ghost predicate ZeroIn(log: seq<Cell>, lo: nat, hi: nat) {
    forall i :: lo <= i < hi && i < |log| ==> log[i] == ZERO
  }

  predicate WellSized(e: Extent) {
    && 6 <= |e.suffix| <= 24 && e.nbytes < 0x8000_0000
    && e.size == HEADER + |e.key| + 1 + |e.suffix| + e.nbytes + CAS_SIZE
    && (e.kind != Reserved ==> (e.kind == Tombstone <==> e.deleted))
  }

  /** Where the key of a filled record starts: only tombstones carry no CAS id. */
  function KeyStart(e: Extent): nat {
    e.start + HEADER + (if e.kind == Tombstone then 0 else CAS_SIZE)
  }

  function SuffixStart(e: Extent): nat {
    KeyStart(e) + |e.key| + 1
  }

  ghost predicate Holds(log: seq<Cell>, p: nat, bytes: seq<Cell>) {
    p + |bytes| <= |log| && forall i :: p <= i < p + |bytes| ==> log[i] == bytes[i - p]
  }

  /** Header, key and suffix are those the extent was reserved for. */
  ghost predicate Describes(log: seq<Cell>, e: Extent)
    requires e.start < |log|
  {
    var h := Item(log, e.start);
    && h.flags == FlagsOf(e.kind)
    && h.nkey == |e.key| && h.nsuffix == |e.suffix| && h.nbytes == e.nbytes
    && Holds(log, KeyStart(e), e.key)
    && Holds(log, SuffixStart(e), e.suffix)
  }

  ghost predicate RecordOk(log: seq<Cell>, e: Extent) {
    && e.End() <= |log|
    && HEADER <= e.size
    && if e.kind == Cycle then
         Item(log, e.start).flags == FlagsOf(Cycle) && Item(log, e.start).nbytes == e.size
       else
         && WellSized(e)
         && (if e.kind == Reserved then ZeroIn(log, e.start, e.End()) else Describes(log, e))
  }

  /** RecordOk looks only at the extent's own cells. */
  lemma RecordFrame(log: seq<Cell>, log': seq<Cell>, e: Extent)
    requires RecordOk(log, e) && |log| == |log'|
    requires forall i :: e.start <= i < e.End() ==> log[i] == log'[i]
    ensures RecordOk(log', e)
  {
  }

  ghost predicate AllOk(log: seq<Cell>, xs: seq<Extent>) {
    forall i {:trigger RecordOk(log, xs[i])} :: 0 <= i < |xs| ==> RecordOk(log, xs[i])
  }

  lemma AllOkAppend(log: seq<Cell>, xs: seq<Extent>, e: Extent)
    requires AllOk(log, xs) && RecordOk(log, e)
    ensures AllOk(log, xs + [e])
  {
    forall i | 0 <= i < |xs| + 1
      ensures RecordOk(log, (xs + [e])[i])
    {
      assert i < |xs| ==> RecordOk(log, xs[i]);
    }
  }

  /** A write inside extent `i` leaves the others as they were. */
  lemma AllOkUpdate(log: seq<Cell>, log': seq<Cell>, xs: seq<Extent>, lo: nat, hi: nat, i: nat, e: Extent)
    requires AllOk(log, xs) && Tiles(xs, lo, hi) && i < |xs| && hi <= |log| == |log'|
    requires RecordOk(log', e)
    requires forall j :: lo <= j < hi && !(xs[i].start <= j < xs[i].End()) ==> log[j] == log'[j]
    ensures AllOk(log', xs[i := e])
  {
    TilesOrdered(xs, lo, hi);
    forall j {:trigger xs[i := e][j]} | 0 <= j < |xs|
      ensures RecordOk(log', xs[i := e][j])
    {
      if j != i {
        assert RecordOk(log, xs[j]);
        RecordFrame(log, log', xs[j]);
      }
    }
  }

  lemma AllOkFrame(log: seq<Cell>, log': seq<Cell>, xs: seq<Extent>, lo: nat, hi: nat)
    requires AllOk(log, xs) && Tiles(xs, lo, hi) && hi <= |log| == |log'|
    requires forall i :: lo <= i < hi ==> log[i] == log'[i]
    ensures AllOk(log', xs)
  {
    TilesOrdered(xs, lo, hi);
    forall j | 0 <= j < |xs|
      ensures RecordOk(log', xs[j])
    {
      assert RecordOk(log, xs[j]);
      RecordFrame(log, log', xs[j]);
    }
  }

  /**
   A filled record is self-describing: ITEM_ntotal, recomputed from the header, is the
   size that was allocated, and ITEM_key finds the key it was allocated for.
   */
  lemma SelfDescribing(log: seq<Cell>, e: Extent)
    requires RecordOk(log, e) && e.kind != Reserved && e.kind != Cycle
    ensures NTotal(Item(log, e.start)) == e.size
    ensures KeyAt(log, e.start) == e.key
    ensures SuffixPos(log, e.start) == SuffixStart(e)
  {
    assert log[KeyStart(e)..KeyStart(e) + |e.key|] == e.key;
  }

  // ------------------------------------------------- what the writers do to a record

  /** The writes that items.c and memcached.c make to one record. */
  datatype Op =
    | Fill(exptime: nat)            // do_item_alloc
    | SetCas(cas: nat)              // process_update_command: the id the client sent
    | SetValue(data: seq<Cell>)     // conn_nread: the value arrives from the socket
    | Link(cas: nat)                // do_item_link, do_item_replace: the item's own id
    | Commit                        // the end of do_store_item
    | Spoil                         // complete_nread_ascii: bad data chunk
    | Abandon                       // a store that failed

  predicate OpEnabled(e: Extent, op: Op) {
    match op
    case Fill(exptime) => e.kind == Reserved
    case SetCas(cas) => e.kind == Pending
    case SetValue(data) => e.kind == Pending && |data| == e.nbytes
    case Link(cas) => e.kind == Pending
    case Commit => e.kind == Linked
    case Spoil => e.kind == Pending
    case Abandon => e.kind == Pending
  }

  function OpKind(e: Extent, op: Op): Kind {
    match op
    case Fill(_) => if e.deleted then Tombstone else Pending
    case SetCas(_) | SetValue(_) => e.kind
    case Link(_) => Linked
    case Commit => Committed
    case Spoil => Corrupt
    case Abandon => Abandoned
  }

  /** Lengths, key and suffix of a record whose flags are in place. */
  function FillText(log: seq<Cell>, e: Extent): (r: seq<Cell>)
    requires e.End() <= |log| && WellSized(e)
    ensures |r| == |log|
  {
    var p := e.start;
    var log1 := log[p := Head(Item(log, p).(nkey := |e.key|).(nbytes := e.nbytes))];
    var log2 := Write(log1, KeyPos(log1, p), e.key);
    var log3 := Write(log2, SuffixPos(log2, p), e.suffix);
    log3[p := Head(Item(log3, p).(nsuffix := |e.suffix|))]
  }

  /** do_item_alloc for a delete: the record is finished when it is filled. */
  function FillTombstone(log: seq<Cell>, e: Extent): (r: seq<Cell>)
    requires e.End() <= |log| && WellSized(e)
    ensures |r| == |log|
  {
    var p := e.start;
    var log1 := FillText(SetFlags(log, p, Item(log, p).flags.(deleted := true)), e);
    SetFlags(log1, p, Item(log1, p).flags.(dirty := false).(stored := true))
  }

  /** do_item_alloc for a store: the record stays dirty until the store is complete. */
  function FillItem(log: seq<Cell>, e: Extent, exptime: nat): (r: seq<Cell>)
    requires e.End() <= |log| && WellSized(e)
    ensures |r| == |log|
  {
    var p := e.start;
    var log1 := FillText(SetFlags(log, p, Item(log, p).flags.(cas := true).(dirty := true)), e);
    log1[p := Head(Item(log1, p).(exptime := exptime))]
  }

  /** ITEM_set_cas. */
  function SetCasId(log: seq<Cell>, p: nat, id: nat): (r: seq<Cell>)
    requires p + HEADER < |log|
    ensures |r| == |log|
  {
    if Item(log, p).flags.cas then log[p + HEADER := Cas(id)] else log
  }

  function OpLog(log: seq<Cell>, e: Extent, op: Op): (r: seq<Cell>)
    requires RecordOk(log, e) && OpEnabled(e, op)
    ensures |r| == |log|
  {
    var p := e.start;
    var f := Item(log, p).flags;
    match op
    case Fill(exptime) => if e.deleted then FillTombstone(log, e) else FillItem(log, e, exptime)
    case SetCas(cas) => SetCasId(log, p, cas)
    case SetValue(data) => Write(log, DataPos(log, p), data)
    case Link(cas) => SetCasId(log, p, cas)
    case Commit => SetFlags(log, p, f.(dirty := false).(stored := true))
    case Spoil => SetFlags(log, p, f.(corrupted := true).(dirty := false).(stored := true))
    case Abandon => log
  }

  lemma FillTextDescribes(log: seq<Cell>, e: Extent)
    requires e.End() <= |log| && WellSized(e)
    requires Item(log, e.start).flags.cas <==> e.kind != Tombstone
    ensures var r := FillText(log, e);
            var h := Item(r, e.start);
            && (forall i :: 0 <= i < |log| && !(e.start <= i < e.End()) ==> r[i] == log[i])
            && h.flags == Item(log, e.start).flags
            && h.nkey == |e.key| && h.nsuffix == |e.suffix| && h.nbytes == e.nbytes
            && Holds(r, KeyStart(e), e.key)
            && Holds(r, SuffixStart(e), e.suffix)
  {
  }

  lemma FillTombstoneKeeps(log: seq<Cell>, e: Extent)
    requires e.End() <= |log| && WellSized(e) && e.kind == Tombstone && Item(log, e.start).flags == NO_FLAGS
    ensures RecordOk(FillTombstone(log, e), e)
    ensures forall i :: 0 <= i < |log| && !(e.start <= i < e.End()) ==> FillTombstone(log, e)[i] == log[i]
  {
    FillTextDescribes(SetFlags(log, e.start, NO_FLAGS.(deleted := true)), e);
  }

  lemma FillItemKeeps(log: seq<Cell>, e: Extent, exptime: nat)
    requires e.End() <= |log| && WellSized(e) && e.kind == Pending && Item(log, e.start).flags == NO_FLAGS
    ensures RecordOk(FillItem(log, e, exptime), e)
    ensures forall i :: 0 <= i < |log| && !(e.start <= i < e.End()) ==> FillItem(log, e, exptime)[i] == log[i]
  {
    FillTextDescribes(SetFlags(log, e.start, NO_FLAGS.(cas := true, dirty := true)), e);
  }

  /** A write that spares the lengths, key and suffix leaves the record well formed. */
  lemma RewriteKeeps(log: seq<Cell>, log': seq<Cell>, e: Extent, k: Kind)
    requires RecordOk(log, e) && |log| == |log'|
    requires e.kind != Reserved && e.kind != Cycle && e.kind != Tombstone
    requires k != Reserved && k != Cycle && k != Tombstone
    requires Item(log', e.start) == Item(log, e.start).(flags := FlagsOf(k))
    requires forall i :: KeyStart(e) <= i < SuffixStart(e) + |e.suffix| ==> log[i] == log'[i]
    ensures RecordOk(log', e.(kind := k))
  {
  }

  /** Every write keeps the record self-describing and stays inside its extent. */
  lemma OpKeepsRecord(log: seq<Cell>, e: Extent, op: Op)
    requires RecordOk(log, e) && OpEnabled(e, op)
    ensures RecordOk(OpLog(log, e, op), e.(kind := OpKind(e, op)))
    ensures forall i :: 0 <= i < |log| && !(e.start <= i < e.End()) ==> OpLog(log, e, op)[i] == log[i]
  {
    if op.Fill? && e.deleted {
      FillTombstoneKeeps(log, e.(kind := Tombstone));
    } else if op.Fill? {
      FillItemKeeps(log, e.(kind := Pending), op.exptime);
    } else {
      RewriteKeeps(log, OpLog(log, e, op), e, OpKind(e, op));
    }
  }
}
