/**
 The per-worker log buffers (logger.c). A worker writes entries into a bip-buffer under its
 mutex; the logger thread peeks at all of region A, parses it without the mutex while workers
 go on logging, and polls it away afterwards.
 */
module Logger {
  import opened BipBuffer
  import opened Common
  import Runs

  /** sizeof(logentry), and the reqlen of every entry kind. */
  const LOGENTRY: nat := 40
  const REQLEN: nat := 512

  /** The first byte of a logentry stands for its header, of which only `size` matters here. */
  datatype LogCell = Head(size: nat) | Body(b: nat)

  /** A sequence of whole entries, each as long as its own header says. */
  predicate Framed(s: seq<LogCell>)
    decreases |s|
  {
    s == [] || (s[0].Head? && LOGENTRY + s[0].size <= |s| && Framed(s[LOGENTRY + s[0].size..]))
  }

  lemma {:induction false} FramedConcat(a: seq<LogCell>, b: seq<LogCell>)
    requires Framed(a) && Framed(b)
    ensures Framed(a + b)
    decreases |a|
  {
    if a == [] {
      assert a + b == b;
    } else {
      var n := LOGENTRY + a[0].size;
      assert (a + b)[n..] == a[n..] + b;
      FramedConcat(a[n..], b);
    }
  }

  lemma OneFrame(f: seq<LogCell>)
    requires f != [] && f[0].Head? && |f| == LOGENTRY + f[0].size
    ensures Framed(f)
  {
    assert f[LOGENTRY + f[0].size..] == [];
  }

  // ------------------------------------------------- workers and the logger thread

  /** The logger thread holds nothing, or the bytes it peeked at. */
  datatype Reader = Resting | Parsing(at: nat, seen: seq<LogCell>)

  /** The buffer; the reader; then all bytes ever logged and all bytes polled away. */
  datatype State = State(r: Regions, data: seq<LogCell>, reader: Reader, logged: seq<LogCell>, taken: seq<LogCell>)

  datatype Step =
    | Log(fill: seq<LogCell>)  // logger_log: what it writes over the requested space, header first
    | Peek                     // bipbuf_peek_all
    | Poll                     // bipbuf_poll of the size that was peeked

  function Written(data: seq<LogCell>, at: nat, fill: seq<LogCell>): seq<LogCell>
    requires at + |fill| <= |data|
  {
    data[..at] + fill + data[at + |fill|..]
  }

  function RegionA(st: State): seq<LogCell>
    requires Valid(st.r) && |st.data| == st.r.size
  {
    st.data[st.r.aStart..st.r.aEnd]
  }

  predicate Enabled(st: State, step: Step) {
    match step
    case Log(fill) => |fill| == LOGENTRY + REQLEN && fill[0].Head?
    case Peek => st.reader == Resting
    case Poll => st.reader.Parsing?
  }

  /** bipbuf_push of n bytes at the write position. */
  function Queued(st: State, n: nat): State
    requires WritePos(st.r) + n <= |st.data|
  {
    st.(r := Grow(st.r, n), logged := st.logged + st.data[WritePos(st.r)..WritePos(st.r) + n])
  }

  /** logger_log: no space, an entry that does not fit after all, or an entry queued. */
  function Logged(st: State, fill: seq<LogCell>): State
    requires Valid(st.r) && |st.data| == st.r.size && fill != [] && fill[0].Head? && |fill| == LOGENTRY + REQLEN
  {
    if Unused(st.r) < |fill| then st
    else
      var at, n := WritePos(st.r), LOGENTRY + fill[0].size;
      var data := Written(st.data, at, fill);
      if n > Unused(st.r) then st.(data := data) else Queued(st.(data := data), n)
  }

  function Apply(st: State, step: Step): State
    requires Valid(st.r) && |st.data| == st.r.size && Enabled(st, step)
  {
    match step
    case Log(fill) => Logged(st, fill)
    case Peek => if st.r.aStart == st.r.aEnd then st else st.(reader := Parsing(st.r.aStart, RegionA(st)))
    case Poll => st.(r := Drop(st.r, |st.reader.seen|), reader := Resting, taken := st.taken + st.reader.seen)
  }

  /**
   What the logger thread peeked at is still the front of region A, byte for byte, and whole
   entries, as is the rest.
   */
  predicate SeenOk(r: Regions, data: seq<LogCell>, reader: Reader)
    requires Valid(r) && |data| == r.size
  {
    match reader
    case Resting => Framed(data[r.aStart..r.aEnd])
    case Parsing(at, seen) =>
      && at == r.aStart && 0 < |seen| <= r.aEnd - r.aStart && data[at..at + |seen|] == seen
      && Framed(seen) && Framed(data[at + |seen|..r.aEnd])
  }

  ghost predicate Good(r: Regions, data: seq<LogCell>, reader: Reader) {
    Valid(r) && |data| == r.size && SeenOk(r, data, reader) && Framed(data[..r.bEnd])
  }

  /** Nothing that was queued is lost or reordered. */
  ghost predicate InOrder(r: Regions, data: seq<LogCell>, logged: seq<LogCell>, taken: seq<LogCell>) {
    Valid(r) && |data| == r.size && taken + Contents(r, data) == logged
  }

  ghost predicate Inv(st: State) {
    Good(st.r, st.data, st.reader) && InOrder(st.r, st.data, st.logged, st.taken)
  }

  lemma WrittenSlice(data: seq<LogCell>, at: nat, fill: seq<LogCell>, lo: nat, hi: nat)
    requires at + |fill| <= |data| && lo <= hi <= |data| && (hi <= at || at + |fill| <= lo)
    ensures Written(data, at, fill)[lo..hi] == data[lo..hi]
  {
  }

  /** Filling the free space leaves both regions and what was peeked as they are. */
  lemma FillKeeps(r: Regions, data: seq<LogCell>, reader: Reader, fill: seq<LogCell>)
    requires Good(r, data, reader) && |fill| <= Unused(r)
    ensures WritePos(r) + |fill| <= |data| && Good(r, Written(data, WritePos(r), fill), reader)
    ensures Contents(r, Written(data, WritePos(r), fill)) == Contents(r, data)
  {
    var at := WritePos(r);
    WrittenSlice(data, at, fill, r.aStart, r.aEnd);
    WrittenSlice(data, at, fill, 0, r.bEnd);
    if reader.Parsing? {
      var mid := r.aStart + |reader.seen|;
      WrittenSlice(data, at, fill, r.aStart, mid);
      WrittenSlice(data, at, fill, mid, r.aEnd);
    }
  }

  /** A whole entry behind region A. */
  lemma GrowSeen(r: Regions, g: Regions, data: seq<LogCell>, reader: Reader)
    requires Valid(r) && Valid(g) && |data| == r.size == g.size && g.aStart == r.aStart && r.aEnd <= g.aEnd
    requires SeenOk(r, data, reader) && Framed(data[r.aEnd..g.aEnd])
    ensures SeenOk(g, data, reader)
  {
    var from := match reader case Resting => r.aStart case Parsing(at, seen) => at + |seen|;
    assert data[from..g.aEnd] == data[from..r.aEnd] + data[r.aEnd..g.aEnd];
    FramedConcat(data[from..r.aEnd], data[r.aEnd..g.aEnd]);
  }

  lemma GrownA(r: Regions, n: nat)
    requires Valid(r) && !r.bInuse && n <= Unused(r)
    ensures var g := Grow(r, n);
            Valid(g) && g.aStart == r.aStart && g.aEnd == r.aEnd + n && g.bEnd == 0 && g.size == r.size
  {
  }

  lemma GrowB(data: seq<LogCell>, b: nat, n: nat)
    requires b + n <= |data| && Framed(data[..b]) && Framed(data[b..b + n])
    ensures Framed(data[..b + n])
  {
    assert data[..b + n] == data[..b] + data[b..b + n];
    FramedConcat(data[..b], data[b..b + n]);
  }

  /** Queueing a whole entry at the write position. */
  lemma GrowGood(r: Regions, data: seq<LogCell>, reader: Reader, n: nat)
    requires Good(r, data, reader) && n <= Unused(r) && WritePos(r) + n <= |data|
             && Framed(data[WritePos(r)..WritePos(r) + n])
    ensures Good(Grow(r, n), data, reader)
  {
    if r.bInuse {
      GrowInB(r, data, reader, n);
    } else {
      GrowInA(r, data, reader, n);
    }
  }

  lemma GrowInOrder(r: Regions, data: seq<LogCell>, logged: seq<LogCell>, taken: seq<LogCell>, n: nat)
    requires InOrder(r, data, logged, taken) && n <= Unused(r) && WritePos(r) + n <= |data|
    ensures InOrder(Grow(r, n), data, logged + data[WritePos(r)..WritePos(r) + n], taken)
  {
    GrowKeeps(r, n, data);
    Associates(taken, Contents(r, data), data[WritePos(r)..WritePos(r) + n]);
  }

  lemma GrowInA(r: Regions, data: seq<LogCell>, reader: Reader, n: nat)
    requires Valid(r) && |data| == r.size && SeenOk(r, data, reader) && !r.bInuse && n <= Unused(r)
             && Framed(data[r.aEnd..r.aEnd + n])
    ensures Valid(Grow(r, n)) && SeenOk(Grow(r, n), data, reader) && Framed(data[..Grow(r, n).bEnd])
  {
    GrownA(r, n);
    GrowSeen(r, Grow(r, n), data, reader);
    NoB(data);
  }

  lemma NoB(data: seq<LogCell>)
    ensures Framed(data[..0])
  {
  }

  lemma GrowInB(r: Regions, data: seq<LogCell>, reader: Reader, n: nat)
    requires Valid(r) && |data| == r.size && SeenOk(r, data, reader) && r.bInuse && n <= Unused(r)
    requires Framed(data[..r.bEnd]) && Framed(data[r.bEnd..r.bEnd + n])
    ensures Valid(Grow(r, n)) && SeenOk(Grow(r, n), data, reader) && Framed(data[..Grow(r, n).bEnd])
  {
    GrowB(data, r.bEnd, n);
  }

  lemma QueueKeeps(st: State, n: nat)
    requires Inv(st) && n <= Unused(st.r) && WritePos(st.r) + n <= |st.data|
             && Framed(st.data[WritePos(st.r)..WritePos(st.r) + n])
    ensures Inv(Queued(st, n))
  {
    GrowGood(st.r, st.data, st.reader, n);
    GrowInOrder(st.r, st.data, st.logged, st.taken, n);
  }

  lemma LogKeeps(st: State, fill: seq<LogCell>)
    requires Inv(st) && Enabled(st, Log(fill))
    ensures Inv(Logged(st, fill))
  {
    if Unused(st.r) >= |fill| {
      FillKeeps(st.r, st.data, st.reader, fill);
      var at, n := WritePos(st.r), LOGENTRY + fill[0].size;
      var st1 := st.(data := Written(st.data, at, fill));
      if n <= Unused(st.r) {
        WrittenFrame(st.data, at, fill, n);
        QueueKeeps(st1, n);
      }
    }
  }

  /** The bytes queued are one entry, whatever the rest of it is. */
  lemma WrittenFrame(data: seq<LogCell>, at: nat, fill: seq<LogCell>, n: nat)
    requires at + |fill| <= |data| && fill != [] && fill[0].Head? && n == LOGENTRY + fill[0].size && at + n <= |data|
    ensures Framed(Written(data, at, fill)[at..at + n])
  {
    assert Written(data, at, fill)[at] == fill[0];
    OneFrame(Written(data, at, fill)[at..at + n]);
  }

  lemma PollGood(r: Regions, data: seq<LogCell>, reader: Reader)
    requires Good(r, data, reader) && reader.Parsing?
    ensures Good(Drop(r, |reader.seen|), data, Resting)
  {
    var n := |reader.seen|;
    DropKeeps(r, n, data);
    assert data[..0] == [] && data[0..0] == [];
    assert data[0..r.bEnd] == data[..r.bEnd];
  }

  /** What was peeked is the front of the queue. */
  lemma FrontSeen(r: Regions, data: seq<LogCell>, reader: Reader)
    requires Good(r, data, reader) && reader.Parsing?
    ensures |reader.seen| <= |Contents(r, data)| && Contents(r, data)[..|reader.seen|] == reader.seen
  {
    var n := |reader.seen|;
    assert data[r.aStart..r.aEnd][..n] == data[r.aStart..r.aStart + n];
  }

  lemma PollInOrder(r: Regions, data: seq<LogCell>, reader: Reader, logged: seq<LogCell>, taken: seq<LogCell>)
    requires Good(r, data, reader) && reader.Parsing? && InOrder(r, data, logged, taken)
    ensures InOrder(Drop(r, |reader.seen|), data, logged, taken + reader.seen)
  {
    var n, c := |reader.seen|, Contents(r, data);
    DropKeeps(r, n, data);
    FrontSeen(r, data, reader);
    assert c == c[..n] + c[n..];
    Associates(taken, c[..n], c[n..]);
  }

  ghost predicate Start(st: State) {
    && st.r == Regions(|st.data|, 0, 0, 0, false) && st.reader == Resting && st.logged == [] && st.taken == []
  }

  ghost predicate Next(st: State, step: Step, st': State) {
    Valid(st.r) && |st.data| == st.r.size && Enabled(st, step) && st' == Apply(st, step)
  }

  lemma StepKeeps(st: State, step: Step)
    requires Inv(st) && Enabled(st, step)
    ensures Inv(Apply(st, step))
  {
    match step {
      case Log(fill) => LogKeeps(st, fill);
      case Peek => PeekKeeps(st);
      case Poll =>
        PollGood(st.r, st.data, st.reader);
        PollInOrder(st.r, st.data, st.reader, st.logged, st.taken);
    }
  }

  lemma PeekKeeps(st: State)
    requires Inv(st) && st.reader == Resting
    ensures Inv(Apply(st, Peek))
  {
    assert st.data[st.r.aEnd..st.r.aEnd] == [];
  }

  lemma RunKeeps(states: seq<State>, steps: seq<Step>, n: nat)
    requires Runs.IsRun(Start, Next, states, steps) && n < |states|
    ensures Inv(states[n])
  {
    forall s, step, s' | Inv(s) && Next(s, step, s')
      ensures Inv(s')
    {
      StepKeeps(s, step);
    }
    forall s | Start(s)
      ensures Inv(s)
    {
      assert s.data[0..0] == [];
    }
    Runs.Invariance(Start, Next, Inv, states, steps, n);
  }

  /**
   While the logger thread parses, whatever was logged since its peek: the bytes it peeked at
   are still in place, they are whole entries, and bipbuf_poll of that size cannot return
   NIL. And nothing that was queued is lost or reordered.
   */
  lemma PeekIsStable(states: seq<State>, steps: seq<Step>, n: nat)
    requires Runs.IsRun(Start, Next, states, steps) && n < |states| && states[n].reader.Parsing?
    ensures var st := states[n]; var at, seen := st.reader.at, st.reader.seen;
            && at + |seen| <= |st.data| && st.data[at..at + |seen|] == seen && Framed(seen)
            && st.r.aStart == at < st.r.aEnd && at + |seen| <= st.r.size
    ensures states[n].taken + states[n].reader.seen <= states[n].logged
  {
    RunKeeps(states, steps, n);
    var st := states[n];
    FrontSeen(st.r, st.data, st.reader);
    assert st.taken + st.reader.seen == st.logged[..|st.taken| + |st.reader.seen|];
  }

  // ------------------------------------------------- the parse loop

  /**
   logger_thread_read's walk over the peeked bytes, with its assertion; `watching` says when
   the last watcher goes away.
   */
  method ParseEntries(data: seq<LogCell>, watching: nat) returns (pos: nat, ghost sizes: seq<nat>)
    requires Framed(data)
    ensures pos <= |data| && Framed(data[pos..])
    ensures watching >= |data| ==> pos == |data|
    ensures |sizes| <= watching && pos == Span(sizes)
  {
    pos, sizes := 0, [];
    var count := 0;
    while pos < |data| && count < watching
      invariant 0 <= pos <= |data| && Framed(data[pos..]) && |sizes| == count <= watching && pos == Span(sizes)
                && pos >= count
      decreases |data| - pos
    {
      var e := data[pos];
      assert data[pos..][0] == e && data[pos..][LOGENTRY + e.size..] == data[pos + LOGENTRY + e.size..];
      assert (sizes + [e.size])[..|sizes|] == sizes;
      sizes := sizes + [e.size];
      pos := pos + LOGENTRY + e.size;
      count := count + 1;
    }
    assert pos <= |data|;
  }

  function Span(sizes: seq<nat>): nat {
    if sizes == [] then 0 else Span(sizes[..|sizes| - 1]) + LOGENTRY + sizes[|sizes| - 1]
  }

  // ------------------------------------------------- logger.c in place

  /**
   The queue has grown by one entry of the size its header says; of an entry within REQLEN,
   every byte is as it was written.
   */
  ghost predicate QueuedEntry(before: seq<LogCell>, after: seq<LogCell>, entry: seq<LogCell>)
    requires entry != [] && entry[0].Head?
  {
    var n := LOGENTRY + entry[0].size;
    && |after| == |before| + n && after[..|before|] == before && after[|before|] == entry[0]
    && (n <= |entry| ==> after[|before|..] == entry[..n])
  }

  /** Growing over the entry, if it fits, queues it. */
  ghost predicate Filled(r: Regions, data: seq<LogCell>, entry: seq<LogCell>)
    requires Valid(r) && |data| == r.size && entry != [] && entry[0].Head?
  {
    var n := LOGENTRY + entry[0].size;
    n <= Unused(r) ==> Valid(Grow(r, n)) && QueuedEntry(Contents(r, data), Contents(Grow(r, n), data), entry)
  }

  lemma EntryFilled(r: Regions, data: seq<LogCell>, entry: seq<LogCell>)
    requires Valid(r) && |data| == r.size && entry != [] && entry[0].Head?
    requires WritePos(r) + |entry| <= r.size && data[WritePos(r)..WritePos(r) + |entry|] == entry
    ensures Filled(r, data, entry)
  {
    var n := LOGENTRY + entry[0].size;
    if n <= Unused(r) {
      GrowKeeps(r, n, data);
      FrontOfFill(data, WritePos(r), entry, n);
      EntryAppended(Contents(r, data), data[WritePos(r)..WritePos(r) + n], entry);
    }
  }

  lemma EntryAppended(before: seq<LogCell>, x: seq<LogCell>, entry: seq<LogCell>)
    requires entry != [] && entry[0].Head? && |x| == LOGENTRY + entry[0].size && x[0] == entry[0]
    requires |x| <= |entry| ==> x == entry[..|x|]
    ensures QueuedEntry(before, before + x, entry)
  {
  }

  lemma FrontOfFill(data: seq<LogCell>, at: nat, entry: seq<LogCell>, n: nat)
    requires at + |entry| <= |data| && at + n <= |data| && 0 < n && entry != [] && data[at..at + |entry|] == entry
    ensures data[at..at + n][0] == entry[0] && (n <= |entry| ==> data[at..at + n] == entry[..n])
  {
    assert data[at] == data[at..at + |entry|][0];
    if n <= |entry| {
      assert data[at..at + n] == data[at..at + |entry|][..n];
    }
  }

  lemma Moved(out: string, q: string, n: nat)
    requires n <= |q|
    ensures (out + q[..n]) + q[n..] == out + q
  {
  }

  datatype LogResult = LogOk | NoSpace | LogErr

  class WorkerLog {
    const buf: Buffer<LogCell>
    var written: nat
    var dropped: nat

    constructor (buf: Buffer<LogCell>)
      ensures this.buf == buf && written == 0 && dropped == 0
    {
      this.buf := buf;
      written, dropped := 0, 0;
    }

    /**
     logger_log. `entry` is what it writes over the space it requested; its size is at most
     REQLEN unless formatting failed and left it unset.
     */
    method LoggerLog(entry: seq<LogCell>) returns (ret: LogResult)
      requires buf.Ok() && |entry| == LOGENTRY + REQLEN && entry[0].Head?
      modifies this, buf, buf.data
      ensures buf.Ok()
      ensures ret == NoSpace <==> Unused(old(buf.Cursors())) < LOGENTRY + REQLEN
      ensures ret != NoSpace && entry[0].size <= REQLEN ==> ret == LogOk
      ensures written == old(written) + (if ret == LogOk then 1 else 0)
              && dropped == old(dropped) + if ret == NoSpace then 1 else 0
      ensures ret != LogOk ==> buf.Queue() == old(buf.Queue())
      ensures ret == LogOk ==> QueuedEntry(old(buf.Queue()), buf.Queue(), entry)
    {
      var at := buf.Request(LOGENTRY + REQLEN);
      if at == NIL {
        dropped := dropped + 1;
        return NoSpace;
      }
      var ok := StoreEntry(entry);
      if !ok {
        return LogErr;
      }
      written := written + 1;
      ret := LogOk;
    }

    /** Filling in the entry, and the push of its actual size. */
    method StoreEntry(entry: seq<LogCell>) returns (ok: bool)
      requires buf.Ok() && |entry| == LOGENTRY + REQLEN <= Unused(buf.Cursors()) && entry[0].Head?
      modifies buf, buf.data
      ensures buf.Ok() && (entry[0].size <= REQLEN ==> ok)
      ensures if ok then QueuedEntry(old(buf.Queue()), buf.Queue(), entry) else buf.Queue() == old(buf.Queue())
    {
      buf.Fill(entry);
      EntryFilled(buf.Cursors(), buf.data[..], entry);
      ok := PushEntry(entry);
    }

    /** The push of the entry that is written in the free space. */
    method PushEntry(entry: seq<LogCell>) returns (ok: bool)
      requires buf.Ok() && entry != [] && entry[0].Head? && Filled(buf.Cursors(), buf.data[..], entry)
      modifies buf`aEnd, buf`bEnd, buf`bInuse
      ensures buf.Ok() && (ok <==> LOGENTRY + entry[0].size <= Unused(old(buf.Cursors())))
      ensures if ok then QueuedEntry(old(buf.Queue()), buf.Queue(), entry) else buf.Queue() == old(buf.Queue())
    {
      var n := LOGENTRY + entry[0].size;
      ok := n <= Unused(buf.Cursors());
      var pushed := buf.Push(n);
      assert ok <==> pushed > 0;
    }

    /** logger_thread_read, with both its assertions. */
    method LoggerThreadRead(watching: nat) returns (size: nat)
      requires buf.Ok() && Framed(buf.data[buf.aStart..buf.aEnd])
      modifies this, buf`aStart, buf`aEnd, buf`bEnd, buf`bInuse
      ensures buf.Ok() && size == old(buf.aEnd - buf.aStart) && buf.Queue() == old(buf.Queue())[size..]
      ensures size > 0 ==> written == 0 && dropped == 0
    {
      var at, n := buf.PeekAll();
      if at == NIL {
        return 0;
      }
      size := n;
      var pos, _ := ParseEntries(buf.data[at..at + size], watching);
      assert pos <= size;
      var data := buf.Poll(size);
      written, dropped := 0, 0;
      assert data != NIL;
    }
  }

  function Decimal(n: nat): string {
    var d := Digits(n);
    seq(|d|, i requires 0 <= i < |d| => (48 + d[i]) as char)
  }

  /** "skipped=%llu\n" with its final NUL. */
  function SkippedLine(n: nat): string {
    "skipped=" + Decimal(n) + "\n\0"
  }

  /** What poll and the write after it have done with the bytes of one watcher. */
  datatype Polled =
    | PollFailed            // poll returns -1
    | NotReady              // the socket cannot take anything now
    | HungUp                // POLLHUP or POLLERR
    | Wrote(total: nat)     // a partial or a whole write
    | WouldBlock            // write fails with EAGAIN or EWOULDBLOCK
    | Broken                // write fails otherwise

  /** The results on which the watcher is closed. */
  predicate Closes(res: Polled) {
    res.HungUp? || res.Broken? || res == Wrote(0)
  }

  class Watcher {
    const buf: Buffer<char>
    var skipped: nat
    var failedFlush: bool
    var closed: bool
    ghost var out: string

    ghost predicate Ok()
      reads this, buf
    {
      buf.Ok()
    }

    /** Every byte for the client, written to it already or still queued. */
    ghost function Bytes(): string
      requires Ok()
      reads this, buf, buf.data
    {
      out + buf.Queue()
    }

    constructor (buf: Buffer<char>)
      ensures this.buf == buf && skipped == 0 && !failedFlush && !closed && out == []
    {
      this.buf := buf;
      skipped, failedFlush, closed, out := 0, false, false, [];
    }

    /**
     logger_thread_poll_watchers for this watcher. The socket takes any part of what is
     offered; a hang-up, a write of nothing and an error other than "try again" close it.
     */
    method Flush() returns (flushed: int, res: Polled)
      requires Ok() && !closed
      modifies this`failedFlush, this`closed, this`out, buf`aStart, buf`aEnd, buf`bEnd, buf`bInuse
      ensures Ok() && Bytes() == old(Bytes()) && !failedFlush
      ensures closed == Closes(res) && flushed == match res case Wrote(n) => n case PollFailed => -1 case _ => 0
      ensures |buf.Queue()| == old(|buf.Queue()|) - (if flushed > 0 then flushed else 0)
    {
      failedFlush, res, flushed := false, NotReady, 0;
      var at, n := buf.PeekAll();
      if at == NIL {
        return;
      }
      res :| res.Wrote? ==> res.total <= n;
      if res.Wrote? && res.total > 0 {
        ghost var q := buf.Queue();
        Moved(out, q, res.total);
        var _ := buf.Poll(res.total);
        out := out + q[..res.total];
        flushed := res.total;
      } else if res.PollFailed? {
        flushed := -1;
      } else {
        closed := Closes(res);
      }
    }

    /**
     logger_thread_write_entry for this watcher: the line is queued whole, after a note of what
     was skipped, or skipped whole; never for a watcher that its flushes closed.
     */
    method WriteEntry(scratch: string) returns (sent: bool)
      requires Ok() && !closed
      modifies this, buf`aStart, buf`aEnd, buf`bEnd, buf`bInuse, buf.data
      ensures Ok()
      ensures sent ==> skipped == 0
      ensures sent ==>
                Bytes() == old(Bytes()) + (if old(skipped) > 0 then SkippedLine(old(skipped)) else []) + scratch
      ensures !sent ==> skipped == old(skipped) + 1 && Bytes() == old(Bytes())
      ensures closed ==> !sent
    {
      var at := FindRoom(|scratch| + 128);
      if failedFlush {
        skipped := skipped + 1;
        return false;
      }
      if skipped > 0 {
        var line := SkippedLine(skipped);
        if |line| - 1 >= 128 {
          skipped := skipped + 1;
          return false;
        }
        PushLine(line);
        skipped := 0;
      }
      OfferLine(scratch);
      sent := true;
    }

    /** bipbuf_offer where it cannot fail. */
    method OfferLine(line: string)
      requires Ok() && |line| <= Unused(buf.Cursors())
      modifies buf`aEnd, buf`bEnd, buf`bInuse, buf.data
      ensures Ok() && Bytes() == old(Bytes()) + line
    {
      Associates(out, buf.Queue(), line);
      var offered := buf.Offer(line);
      assert offered == |line|;
    }

    /** The line is printed into the space that was requested, then pushed. */
    method PushLine(line: string)
      requires Ok() && |line| <= Unused(buf.Cursors())
      modifies buf`aEnd, buf`bEnd, buf`bInuse, buf.data
      ensures Ok() && Bytes() == old(Bytes()) + line && Unused(buf.Cursors()) >= Unused(old(buf.Cursors())) - |line|
    {
      Associates(out, buf.Queue(), line);
      ghost var before := buf.data[..];
      buf.Fill(line);
      OfferKeeps(buf.Cursors(), before, buf.data[..], line);
      var _ := buf.Push(|line|);
    }

    /** Flushing until the request is met or the socket takes no more. */
    method FindRoom(n: nat) returns (at: int)
      requires Ok() && !closed
      modifies this`failedFlush, this`closed, this`out, buf`aStart, buf`aEnd, buf`bEnd, buf`bInuse
      ensures Ok() && Bytes() == old(Bytes()) && (closed ==> failedFlush)
      ensures !failedFlush ==> at == WritePos(buf.Cursors()) && n <= Unused(buf.Cursors())
    {
      at := buf.Request(n);
      ghost var all := Bytes();
      while !failedFlush && at == NIL
        invariant Ok() && Bytes() == all && (closed ==> failedFlush)
        invariant at == if Unused(buf.Cursors()) < n then NIL else WritePos(buf.Cursors())
        decreases |buf.Queue()|, !failedFlush
      {
        var flushed, _ := Flush();
        if flushed <= 0 {
          failedFlush := true;
        }
        at := buf.Request(n);
      }
    }
  }
}
