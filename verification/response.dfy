/**
 Scatter/gather responses (memcached.c): add_iov appends fragments to the messages of a
 connection, add_msghdr opens a new message, ensure_iov_space regrows the fragment array and
 repoints every message; transmit then sends the messages piece by piece.
 */
module Response {

  const UDP_MAX_PAYLOAD_SIZE: nat := 1400
  const UDP_HEADER_SIZE: nat := 8
  const IOV_MAX: nat := 1024
  const IOV_LIST_INITIAL: nat := 400
  const MSG_LIST_INITIAL: nat := 10

  /** What a UDP message holds besides its header. */
  const UDP_ROOM: nat := UDP_MAX_PAYLOAD_SIZE - UDP_HEADER_SIZE

  /** A struct iovec by the bytes it points at; `hdr` marks the room left for a UDP header. */
  datatype Entry = Entry(hdr: bool, bytes: string)

  /** A struct msghdr: msg_iov as an array and an offset in it, and msg_iovlen. Regrowing the array makes a new one. */
  datatype Msg = Msg(block: nat, off: nat, len: nat)

  /** All bytes of some fragments in order, and those that are not headers. */
  function Wire(es: seq<Entry>): string {
    if es == [] then [] else es[0].bytes + Wire(es[1..])
  }

  function Payload(es: seq<Entry>): string {
    if es == [] then [] else (if es[0].hdr then [] else es[0].bytes) + Payload(es[1..])
  }

  lemma {:induction false} WireConcat(a: seq<Entry>, b: seq<Entry>)
    ensures Wire(a + b) == Wire(a) + Wire(b)
  {
    if a == [] {
      assert a + b == b;
    } else {
      assert (a + b)[1..] == a[1..] + b;
      WireConcat(a[1..], b);
    }
  }

  lemma {:induction false} PayloadConcat(a: seq<Entry>, b: seq<Entry>)
    ensures Payload(a + b) == Payload(a) + Payload(b)
  {
    if a == [] {
      assert a + b == b;
    } else {
      assert (a + b)[1..] == a[1..] + b;
      PayloadConcat(a[1..], b);
    }
  }

  /** Appending one fragment. */
  lemma AppendOne(a: seq<Entry>, e: Entry)
    ensures Wire(a + [e]) == Wire(a) + e.bytes
    ensures Payload(a + [e]) == Payload(a) + if e.hdr then [] else e.bytes
  {
    assert [e][1..] == [];
    WireConcat(a, [e]);
    PayloadConcat(a, [e]);
  }

  ghost predicate Plain(es: seq<Entry>) {
    forall i :: 0 <= i < |es| ==> !es[i].hdr
  }

  lemma {:induction false} WireIsPayload(es: seq<Entry>)
    requires Plain(es)
    ensures Wire(es) == Payload(es)
  {
    if es != [] {
      WireIsPayload(es[1..]);
    }
  }

  // ------------------------------------------------- the messages tile the fragments

  /** Fragments before message i. */
  function Start(msgs: seq<Msg>, i: nat): nat
    requires i <= |msgs|
  {
    if i == 0 then 0 else Start(msgs, i - 1) + msgs[i - 1].len
  }

  lemma {:induction false} StartSame(msgs: seq<Msg>, msgs': seq<Msg>, i: nat)
    requires i <= |msgs| && i <= |msgs'| && forall j :: 0 <= j < i ==> msgs'[j].len == msgs[j].len
    ensures Start(msgs', i) == Start(msgs, i)
  {
    if i > 0 {
      StartSame(msgs, msgs', i - 1);
    }
  }

  lemma {:induction false} StartUpTo(msgs: seq<Msg>, i: nat)
    requires i <= |msgs|
    ensures Start(msgs, i) <= Start(msgs, |msgs|)
    decreases |msgs| - i
  {
    if i < |msgs| {
      StartUpTo(msgs, i + 1);
    }
  }

  ghost predicate PlacedAt(msgs: seq<Msg>, block: nat, i: nat)
    requires i < |msgs|
  {
    msgs[i].block == block && msgs[i].off == Start(msgs, i)
  }

  /**
   Every message points into the current array, where the one before it ends; together they are
   the used fragments.
   */
  ghost predicate Tiled(msgs: seq<Msg>, block: nat, used: nat) {
    && Start(msgs, |msgs|) == used
    && forall i {:trigger PlacedAt(msgs, block, i)} :: 0 <= i < |msgs| ==> PlacedAt(msgs, block, i)
  }

  lemma TiledOpen(msgs: seq<Msg>, block: nat, used: nat)
    requires Tiled(msgs, block, used)
    ensures Tiled(msgs + [Msg(block, used, 0)], block, used)
  {
    var msgs' := msgs + [Msg(block, used, 0)];
    StartSame(msgs, msgs', |msgs|);
    forall i | 0 <= i < |msgs'|
      ensures PlacedAt(msgs', block, i)
    {
      if i < |msgs| {
        assert PlacedAt(msgs, block, i);
        StartSame(msgs, msgs', i);
      }
    }
  }

  lemma TiledAppend(msgs: seq<Msg>, block: nat, used: nat)
    requires Tiled(msgs, block, used) && msgs != []
    ensures var n := |msgs| - 1;
            && msgs[n].off + msgs[n].len == used
            && Tiled(msgs[n := msgs[n].(len := msgs[n].len + 1)], block, used + 1)
  {
    var n := |msgs| - 1;
    var msgs' := msgs[n := msgs[n].(len := msgs[n].len + 1)];
    assert PlacedAt(msgs, block, n);
    StartSame(msgs, msgs', n);
    forall i | 0 <= i < |msgs'|
      ensures PlacedAt(msgs', block, i)
    {
      assert PlacedAt(msgs, block, i);
      StartSame(msgs, msgs', i);
    }
  }

  /** The fragments of one message. */
  function Slice(iov: seq<Entry>, m: Msg): seq<Entry>
    requires m.off + m.len <= |iov|
  {
    iov[m.off..m.off + m.len]
  }

  // ------------------------------------------------- sizes and headers

  /** Which messages must stay within UDP_MAX_PAYLOAD_SIZE: all of a UDP response, the first of a TCP response. */
  predicate Bounded(udp: bool, i: nat) {
    udp || i == 0
  }

  ghost predicate MsgOk(udp: bool, iov: seq<Entry>, msgs: seq<Msg>, i: nat)
    requires i < |msgs|
  {
    && msgs[i].off + msgs[i].len <= |iov|
    && (Bounded(udp, i) ==> |Wire(Slice(iov, msgs[i]))| <= UDP_MAX_PAYLOAD_SIZE)
  }

  ghost predicate MsgsOk(udp: bool, iov: seq<Entry>, msgs: seq<Msg>, n: nat)
    requires n <= |msgs|
  {
    forall i {:trigger MsgOk(udp, iov, msgs, i)} :: 0 <= i < n ==> MsgOk(udp, iov, msgs, i)
  }

  ghost predicate Headed(iov: seq<Entry>, msgs: seq<Msg>, i: nat)
    requires i < |msgs|
  {
    msgs[i].len >= 1 && msgs[i].off < |iov| && iov[msgs[i].off].hdr
  }

  ghost predicate AllHeaded(iov: seq<Entry>, msgs: seq<Msg>, n: nat)
    requires n <= |msgs|
  {
    forall i {:trigger Headed(iov, msgs, i)} :: 0 <= i < n ==> Headed(iov, msgs, i)
  }

  /** `msgs'` has the same messages up to n, perhaps in a new array. */
  ghost predicate SamePlaces(msgs: seq<Msg>, msgs': seq<Msg>, n: nat) {
    && n <= |msgs| && n <= |msgs'|
    && forall i :: 0 <= i < n ==> msgs'[i].off == msgs[i].off && msgs'[i].len == msgs[i].len
  }

  /** Messages that end before the first changed fragment stay as they are. */
  lemma MsgsFrame(udp: bool, iov: seq<Entry>, iov': seq<Entry>, msgs: seq<Msg>, msgs': seq<Msg>, block: nat, n: nat,
                  used: nat)
    requires used <= |iov| && used <= |iov'| && iov'[..used] == iov[..used]
    requires Tiled(msgs, block, used) && SamePlaces(msgs, msgs', n)
    ensures MsgsOk(udp, iov, msgs, n) ==> MsgsOk(udp, iov', msgs', n)
    ensures AllHeaded(iov, msgs, n) ==> AllHeaded(iov', msgs', n)
  {
    forall i | 0 <= i < n
      ensures MsgOk(udp, iov, msgs, i) ==> MsgOk(udp, iov', msgs', i)
      ensures Headed(iov, msgs, i) ==> Headed(iov', msgs', i)
    {
      MsgEnds(msgs, block, used, i);
      var m := msgs[i];
      assert Slice(iov', msgs'[i]) == Slice(iov[..used], m) == Slice(iov, m);
      if m.len >= 1 {
        assert iov'[m.off] == iov'[..used][m.off] == iov[m.off];
      }
    }
  }

  lemma MsgEnds(msgs: seq<Msg>, block: nat, used: nat, i: nat)
    requires Tiled(msgs, block, used) && i < |msgs|
    ensures msgs[i].off + msgs[i].len == Start(msgs, i + 1) <= used
  {
    assert PlacedAt(msgs, block, i);
    StartUpTo(msgs, i + 1);
  }

  // ------------------------------------------------- one fragment more

  /** Transport, fragment array, iovused, messages and msgbytes. */
  datatype Out = Out(udp: bool, block: nat, iov: seq<Entry>, used: nat, msgs: seq<Msg>, bytes: nat)

  ghost predicate LastBytes(iov: seq<Entry>, msgs: seq<Msg>, n: nat) {
    && msgs != [] && msgs[|msgs| - 1].off + msgs[|msgs| - 1].len <= |iov|
    && n == |Wire(Slice(iov, msgs[|msgs| - 1]))|
  }

  ghost predicate Shaped(o: Out) {
    && 0 < |o.iov| && o.used <= |o.iov| && o.msgs != [] && Tiled(o.msgs, o.block, o.used)
    && MsgsOk(o.udp, o.iov, o.msgs, |o.msgs|) && LastBytes(o.iov, o.msgs, o.bytes)
  }

  /** What ensure_iov_space may change. */
  ghost predicate Regrown(o: Out, o': Out) {
    && o'.udp == o.udp && o'.used == o.used && o'.bytes == o.bytes && |o.iov| <= |o'.iov|
    && o.used <= |o.iov| && o'.iov[..o.used] == o.iov[..o.used]
    && |o'.msgs| == |o.msgs| && SamePlaces(o.msgs, o'.msgs, |o.msgs|) && Tiled(o'.msgs, o'.block, o'.used)
  }

  lemma SameSlice(a: seq<Entry>, b: seq<Entry>, used: nat, lo: nat, hi: nat)
    requires lo <= hi <= used <= |a| && used <= |b| && b[..used] == a[..used]
    ensures b[lo..hi] == a[lo..hi]
  {
    assert b[lo..hi] == b[..used][lo..hi] && a[lo..hi] == a[..used][lo..hi];
  }

  lemma RegrowKeeps(o: Out, o': Out, n: nat)
    requires Shaped(o) && Regrown(o, o') && n <= |o.msgs|
    ensures Shaped(o') && (AllHeaded(o.iov, o.msgs, n) ==> AllHeaded(o'.iov, o'.msgs, n))
  {
    MsgsFrame(o.udp, o.iov, o'.iov, o.msgs, o'.msgs, o.block, |o.msgs|, o.used);
    MsgsFrame(o.udp, o.iov, o'.iov, o.msgs, o'.msgs, o.block, n, o.used);
    var last := |o.msgs| - 1;
    MsgEnds(o.msgs, o.block, o.used, last);
    SameSlice(o.iov, o'.iov, o.used, o.msgs[last].off, o.msgs[last].off + o.msgs[last].len);
  }

  /** The fragment goes where the last message ends. */
  function Added(o: Out, e: Entry): Out
    requires o.msgs != [] && o.msgs[|o.msgs| - 1].off + o.msgs[|o.msgs| - 1].len < |o.iov|
  {
    var n := |o.msgs| - 1;
    var m := o.msgs[n];
    o.(iov := o.iov[m.off + m.len := e], used := o.used + 1, msgs := o.msgs[n := m.(len := m.len + 1)],
       bytes := o.bytes + |e.bytes|)
  }

  lemma AddedKeeps(o: Out, e: Entry)
    requires Shaped(o) && o.used < |o.iov|
    requires Bounded(o.udp, |o.msgs| - 1) ==> o.bytes + |e.bytes| <= UDP_MAX_PAYLOAD_SIZE
    ensures o.msgs[|o.msgs| - 1].off + o.msgs[|o.msgs| - 1].len == o.used
    ensures Shaped(Added(o, e)) && Added(o, e).iov[..o.used + 1] == o.iov[..o.used] + [e]
    ensures SamePlaces(o.msgs, Added(o, e).msgs, |o.msgs| - 1)
  {
    TiledAppend(o.msgs, o.block, o.used);
    var n := |o.msgs| - 1;
    var o' := Added(o, e);
    MsgsFrame(o.udp, o.iov, o'.iov, o.msgs, o'.msgs, o.block, n, o.used);
    assert MsgOk(o.udp, o.iov, o.msgs, n);
    assert Slice(o'.iov, o'.msgs[n]) == Slice(o.iov, o.msgs[n]) + [e];
    AppendOne(Slice(o.iov, o.msgs[n]), e);
    forall i | 0 <= i < |o.msgs|
      ensures MsgOk(o'.udp, o'.iov, o'.msgs, i)
    {
      assert i < n ==> MsgOk(o.udp, o.iov, o.msgs, i);
    }
  }

  /**
   A message that starts with its header still does; a message that was empty does when the
   header is what was added.
   */
  lemma AddedHeaded(o: Out, e: Entry)
    requires Shaped(o) && o.used < |o.iov|
    requires if o.msgs[|o.msgs| - 1].len == 0 then e.hdr && AllHeaded(o.iov, o.msgs, |o.msgs| - 1)
             else AllHeaded(o.iov, o.msgs, |o.msgs|)
    ensures o.msgs[|o.msgs| - 1].off + o.msgs[|o.msgs| - 1].len == o.used
    ensures AllHeaded(Added(o, e).iov, Added(o, e).msgs, |o.msgs|)
  {
    TiledAppend(o.msgs, o.block, o.used);
    var n := |o.msgs| - 1;
    var o' := Added(o, e);
    assert o.msgs[n].len > 0 ==> Headed(o.iov, o.msgs, n);
    forall i | 0 <= i < |o.msgs|
      ensures Headed(o'.iov, o'.msgs, i)
    {
      if i < n {
        assert Headed(o.iov, o.msgs, i);
        MsgEnds(o.msgs, o.block, o.used, i);
      }
    }
  }

  /**
   Shaped; every UDP message starts with room for its header, unless memory for fragments was
   ever refused; no such room over TCP.
   */
  ghost predicate Good(o: Out, starved: bool) {
    && Shaped(o) && (o.udp && !starved ==> AllHeaded(o.iov, o.msgs, |o.msgs|))
    && (!o.udp ==> Plain(o.iov[..o.used]))
  }

  /**
   The fragment does not make the last message too long, and the fragment is the header if it
   is a UDP message's first.
   */
  ghost predicate Fits(o: Out, e: Entry, starved: bool) {
    && Shaped(o)
    && (Bounded(o.udp, |o.msgs| - 1) ==> o.bytes + |e.bytes| <= UDP_MAX_PAYLOAD_SIZE)
    && (o.udp && !starved ==>
          if o.msgs[|o.msgs| - 1].len == 0 then e.hdr && AllHeaded(o.iov, o.msgs, |o.msgs| - 1)
          else AllHeaded(o.iov, o.msgs, |o.msgs|))
    && (!o.udp ==> !e.hdr && Plain(o.iov[..o.used]))
  }

  lemma RegrowFits(o: Out, o': Out, e: Entry, starved: bool)
    requires Fits(o, e, starved) && Regrown(o, o')
    ensures Fits(o', e, starved) && Good(o', true)
  {
    RegrowKeeps(o, o', if o.msgs[|o.msgs| - 1].len == 0 then |o.msgs| - 1 else |o.msgs|);
  }

  lemma AddedGood(o: Out, e: Entry, starved: bool)
    requires Fits(o, e, starved) && o.used < |o.iov|
    ensures o.msgs[|o.msgs| - 1].off + o.msgs[|o.msgs| - 1].len == o.used
    ensures Good(Added(o, e), starved) && Added(o, e).iov[..o.used + 1] == o.iov[..o.used] + [e]
  {
    AddedKeeps(o, e);
    if o.udp && !starved {
      AddedHeaded(o, e);
    }
  }

  // ------------------------------------------------- fragments per message

  /** Some message has more fragments than sendmsg takes. */
  ghost predicate TooMany(msgs: seq<Msg>) {
    exists i :: 0 <= i < |msgs| && msgs[i].len > IOV_MAX
  }

  /** Only the last message has changed its length. */
  ghost predicate LastGrew(msgs: seq<Msg>, msgs': seq<Msg>, d: nat) {
    && msgs != [] && |msgs'| == |msgs| && msgs'[|msgs| - 1].len == msgs[|msgs| - 1].len + d
    && forall i :: 0 <= i < |msgs| - 1 ==> msgs'[i].len == msgs[i].len
  }

  /** A fragment added after the array was regrown. */
  lemma AppendedGood(o: Out, o': Out, e: Entry, starved: bool)
    requires Fits(o, e, starved) && Regrown(o, o') && o'.used < |o'.iov|
    ensures o'.msgs != [] && o'.msgs[|o'.msgs| - 1].off + o'.msgs[|o'.msgs| - 1].len == o'.used
    ensures Good(Added(o', e), starved) && Added(o', e).iov[..o.used + 1] == o.iov[..o.used] + [e]
    ensures LastGrew(o.msgs, Added(o', e).msgs, 1)
  {
    RegrowFits(o, o', e, starved);
    AddedGood(o', e, starved);
  }

  /** None added. */
  lemma RegrownGood(o: Out, o': Out, e: Entry, starved: bool)
    requires Fits(o, e, starved) && Regrown(o, o')
    ensures Good(o', true) && o'.iov[..o.used] == o.iov[..o.used] + [] && LastGrew(o.msgs, o'.msgs, 0)
  {
    RegrowFits(o, o', e, starved);
  }

  lemma TooManyGrew(msgs: seq<Msg>, msgs': seq<Msg>, d: nat)
    requires LastGrew(msgs, msgs', d) && d <= 1
    ensures TooMany(msgs') <==> TooMany(msgs) || (d == 1 && msgs[|msgs| - 1].len >= IOV_MAX)
  {
    if TooMany(msgs) {
      var i :| 0 <= i < |msgs| && msgs[i].len > IOV_MAX;
      assert msgs'[i].len > IOV_MAX;
    }
    if TooMany(msgs') {
      var i :| 0 <= i < |msgs'| && msgs'[i].len > IOV_MAX;
      assert i < |msgs| - 1 ==> msgs[i].len > IOV_MAX;
    }
  }

  lemma TooManyOpen(msgs: seq<Msg>, m: Msg)
    requires m.len == 0
    ensures TooMany(msgs + [m]) <==> TooMany(msgs)
  {
    if TooMany(msgs) {
      var i :| 0 <= i < |msgs| && msgs[i].len > IOV_MAX;
      assert (msgs + [m])[i].len > IOV_MAX;
    }
  }

  lemma RepointedTiles(msgs: seq<Msg>, msgs': seq<Msg>, block: nat, block': nat, used: nat)
    requires Tiled(msgs, block, used) && |msgs'| == |msgs| && SamePlaces(msgs, msgs', |msgs|)
    requires forall i :: 0 <= i < |msgs| ==> msgs'[i].block == block'
    ensures Tiled(msgs', block', used)
  {
    StartSame(msgs, msgs', |msgs|);
    forall i | 0 <= i < |msgs'|
      ensures PlacedAt(msgs', block', i)
    {
      assert PlacedAt(msgs, block, i);
      StartSame(msgs, msgs', i);
    }
  }

  /** add_msghdr up to the room for the header. */
  function Opened(o: Out): Out {
    o.(msgs := o.msgs + [Msg(o.block, o.used, 0)], bytes := 0)
  }

  lemma OpenedKeeps(o: Out)
    requires 0 < |o.iov| && o.used <= |o.iov| && Tiled(o.msgs, o.block, o.used)
             && MsgsOk(o.udp, o.iov, o.msgs, |o.msgs|)
    ensures Shaped(Opened(o))
    ensures AllHeaded(o.iov, o.msgs, |o.msgs|) ==> AllHeaded(o.iov, Opened(o).msgs, |o.msgs|)
  {
    TiledOpen(o.msgs, o.block, o.used);
    var o' := Opened(o);
    MsgsFrame(o.udp, o.iov, o.iov, o.msgs, o'.msgs, o.block, |o.msgs|, o.used);
    assert Slice(o.iov, o'.msgs[|o.msgs|]) == [];
    forall i | 0 <= i < |o'.msgs|
      ensures MsgOk(o'.udp, o'.iov, o'.msgs, i)
    {
      assert i < |o.msgs| ==> MsgOk(o.udp, o.iov, o.msgs, i);
    }
  }

  /** Mentioned where a proof looks into a connection's invariant. */
  predicate Look(x: nat) {
    true
  }

  // ------------------------------------------------- the fragment array

  /** What the allocator answers during one call when the fragment array has to grow. */
  datatype Memory = Granted | Refused | Mixed

  /** Fragments were added behind those there were; the array has grown only if it had to. */
  ghost predicate Grown(iov: seq<Entry>, used: nat, iov': seq<Entry>, used': nat) {
    && used <= |iov| && used <= used' <= |iov'| && iov'[..used] == iov[..used]
    && |iov| <= |iov'| && (used' <= |iov| ==> |iov'| == |iov|)
  }

  /** A call that failed found the array full; one that did not has added fragments; refused memory leaves its size. */
  predicate Spent(memory: Memory, ok: bool, used: nat, size: nat, used': nat, size': nat) {
    (if ok then used < used' else used' == size') && (memory == Refused ==> size' == size)
  }

  lemma GrownOn(a: seq<Entry>, an: nat, b: seq<Entry>, bn: nat, c: seq<Entry>, cn: nat)
    requires Grown(a, an, b, bn) && Grown(b, bn, c, cn)
    ensures Grown(a, an, c, cn)
  {
    assert c[..an] == c[..bn][..an] && b[..an] == b[..bn][..an];
  }

  // ------------------------------------------------- what a call does to the counts

  /**
   Transport, number of messages and size of their list, fragments and bytes of the last
   message, fragments of all, and whether some message has too many.
   */
  datatype Counts = Counts(udp: bool, n: nat, size: nat, last: nat, bytes: nat, used: nat, over: bool)

  predicate Limited(q: Counts) {
    q.udp || q.n == 1
  }

  /** There is a message, and one that is bounded is within the bound. */
  predicate WithinMtu(q: Counts) {
    q.n > 0 && (Limited(q) ==> q.bytes <= UDP_MAX_PAYLOAD_SIZE)
  }

  /** add_iov wants a new message. */
  predicate IsFull(q: Counts) {
    q.last == IOV_MAX || (Limited(q) && q.bytes >= UDP_MAX_PAYLOAD_SIZE)
  }

  /** Opening it needs memory for the list. */
  predicate Asks(q: Counts) {
    IsFull(q) && q.n == q.size
  }

  function Opening(q: Counts): Counts {
    q.(n := q.n + 1, size := if q.n == q.size then q.size * 2 else q.size,
       last := if q.udp then 1 else 0, bytes := if q.udp then UDP_HEADER_SIZE else 0,
       used := if q.udp then q.used + 1 else q.used)
  }

  function Put(q: Counts, len: nat): Counts {
    q.(last := q.last + 1, bytes := q.bytes + len, used := q.used + 1, over := q.over || q.last >= IOV_MAX)
  }

  /** A new message; `ok` says whether there was memory for the room of a UDP header. */
  predicate Started(q: Counts, t: Counts, ok: bool) {
    if ok then t == Opening(q)
    else t == Opening(q).(last := 0, bytes := 0, used := q.used)
  }

  /** The message that takes the next piece. */
  function Target(q: Counts, refuse: bool): Counts {
    if IsFull(q) && !(Asks(q) && refuse) then Opening(q) else q
  }

  /** How much of `rest` bytes goes there. */
  function Piece(q: Counts, rest: nat, refuse: bool): (len: nat)
    requires WithinMtu(q)
    ensures len <= rest
  {
    var t := Target(q, refuse);
    if Limited(q) && rest + t.bytes > UDP_MAX_PAYLOAD_SIZE then UDP_MAX_PAYLOAD_SIZE - t.bytes else rest
  }

  /** One turn of add_iov's loop. */
  function Turn(q: Counts, rest: nat, refuse: bool): (t: Counts)
    requires WithinMtu(q)
    ensures WithinMtu(t)
  {
    Put(Target(q, refuse), Piece(q, rest, refuse))
  }

  /**
   Whether the list is refused memory when it next asks. `refusals` are the answers to come;
   behind their end the list is granted what it asks for.
   */
  predicate Next(refusals: seq<bool>) {
    refusals != [] && refusals[0]
  }

  /** The list gets all it asks for. */
  ghost predicate AllGranted(refusals: seq<bool>) {
    forall i :: 0 <= i < |refusals| ==> !refusals[i]
  }

  function Later(q: Counts, refusals: seq<bool>): seq<bool> {
    if Asks(q) && refusals != [] then refusals[1..] else refusals
  }

  /** The whole loop. */
  function Turns(q: Counts, rest: nat, refusals: seq<bool>): Counts
    requires WithinMtu(q)
    decreases rest, |refusals|
  {
    var len := Piece(q, rest, Next(refusals));
    var t := Turn(q, rest, Next(refusals));
    if len == rest then t else Turns(t, rest - len, Later(q, refusals))
  }

  lemma {:induction false} TurnsMonotone(q: Counts, rest: nat, refusals: seq<bool>)
    requires WithinMtu(q)
    ensures q.over ==> Turns(q, rest, refusals).over
    ensures Turn(q, rest, Next(refusals)).over ==> Turns(q, rest, refusals).over
    decreases rest, |refusals|
  {
    var len := Piece(q, rest, Next(refusals));
    if len < rest {
      TurnsMonotone(Turn(q, rest, Next(refusals)), rest - len, Later(q, refusals));
    }
  }

  /** A call without bytes, with memory for whatever it asks for, adds one empty fragment. */
  lemma EmptyTurn(q: Counts)
    requires WithinMtu(q)
    ensures Turns(q, 0, []) == Put(Target(q, false), 0)
  {
    TurnsGoOn(q, 0, []);
  }

  /** The refusals in a row at the start. */
  function Leading(refusals: seq<bool>): (k: nat)
    ensures k <= |refusals|
  {
    if refusals == [] || !refusals[0] then 0 else 1 + Leading(refusals[1..])
  }

  /** The answers behind those refusals and the grant that ends them. */
  function Behind(refusals: seq<bool>): seq<bool> {
    if Leading(refusals) < |refusals| then refusals[Leading(refusals) + 1..] else []
  }

  /**
   With n messages in a list of `size`, the last one full with `last` fragments, and `rest` bytes
   to add: some message gets more than IOV_MAX fragments exactly when the refusals in a row are
   more than the last message has room for fragments (a call without bytes asks once), or a
   later message of a UDP response gets there.
   */
  predicate BurstsFull(udp: bool, n: nat, size: nat, last: nat, rest: nat, refusals: seq<bool>)
    decreases rest
  {
    || (n == size && last + (if rest == 0 && Leading(refusals) > 0 then 1 else Leading(refusals)) > IOV_MAX)
    || (udp && rest > UDP_ROOM
        && BurstsFull(udp, n + 1, if n == size then size * 2 else size, 2, rest - UDP_ROOM,
                      if n == size then Behind(refusals) else refusals))
  }

  /** The same for any message: bytes that still fit add one fragment to it. */
  predicate Bursts(q: Counts, rest: nat, refusals: seq<bool>)
    requires WithinMtu(q)
  {
    if IsFull(q) then BurstsFull(q.udp, q.n, q.size, q.last, rest, refusals)
    else
      var room := UDP_MAX_PAYLOAD_SIZE - q.bytes;
      Limited(q) && rest > room && BurstsFull(q.udp, q.n, q.size, q.last + 1, rest - room, refusals)
  }

  lemma TurnsGoOn(q: Counts, rest: nat, refusals: seq<bool>)
    requires WithinMtu(q)
    ensures var len, t := Piece(q, rest, Next(refusals)), Turn(q, rest, Next(refusals));
            Turns(q, rest, refusals) == if len == rest then t else Turns(t, rest - len, Later(q, refusals))
  {
  }

  /** Mentioned where a proof looks into the turns to come. */
  predicate Ahead(x: nat) {
    true
  }

  /** The turns to come lead to `goal`. */
  ghost predicate Leads(q: Counts, rest: nat, refusals: seq<bool>, goal: Counts) {
    forall x: nat {:trigger Ahead(x)} :: Ahead(x) ==>
      if rest > 0 then WithinMtu(q) && Turns(q, rest, refusals) == goal else q == goal
  }

  lemma LeadsOn(q: Counts, rest: nat, refusals: seq<bool>, goal: Counts)
    requires Leads(q, rest, refusals, goal) && rest > 0
    ensures WithinMtu(q) && (q.over ==> goal.over)
    ensures Leads(Turn(q, rest, Next(refusals)), rest - Piece(q, rest, Next(refusals)), Later(q, refusals), goal)
  {
    assert Ahead(0);
    TurnsGoOn(q, rest, refusals);
    TurnsMonotone(q, rest, refusals);
  }

  lemma LeadsThere(q: Counts, refusals: seq<bool>, goal: Counts)
    requires Leads(q, 0, refusals, goal)
    ensures q == goal
  {
    assert Ahead(0);
  }

  /** A refusal to a full message. */
  lemma {:induction false} RefusedBursts(q: Counts, rest: nat, refusals: seq<bool>)
    requires WithinMtu(q) && !q.over && q.last <= IOV_MAX && Asks(q) && Next(refusals)
    ensures Turns(q, rest, refusals).over <==> BurstsFull(q.udp, q.n, q.size, q.last, rest, refusals)
    decreases rest, |refusals|, 0
  {
    TurnsGoOn(q, rest, refusals);
    if q.last == IOV_MAX {
      TurnsMonotone(q, rest, refusals);
    } else if rest > 0 {
      var t := Turn(q, rest, true);
      FullBursts(t, rest, refusals[1..]);
      assert BurstsFull(q.udp, q.n, q.size, q.last + 1, rest, refusals[1..])
        <==> BurstsFull(q.udp, q.n, q.size, q.last, rest, refusals);
    }
  }

  /** A full message that is followed by a new one. */
  lemma {:induction false} OpenedBursts(q: Counts, rest: nat, refusals: seq<bool>)
    requires WithinMtu(q) && !q.over && q.last <= IOV_MAX && IsFull(q) && !(Asks(q) && Next(refusals))
    ensures Turns(q, rest, refusals).over <==> BurstsFull(q.udp, q.n, q.size, q.last, rest, refusals)
    decreases rest, |refusals|, 0
  {
    TurnsGoOn(q, rest, refusals);
    var t := Turn(q, rest, Next(refusals));
    var len := Piece(q, rest, Next(refusals));
    if len < rest {
      if q.udp {
        FullBursts(t, rest - len, Later(q, refusals));
      } else {
        TurnsGoOn(t, rest - len, Later(q, refusals));
      }
    }
  }

  lemma {:induction false} FullBursts(q: Counts, rest: nat, refusals: seq<bool>)
    requires WithinMtu(q) && !q.over && q.last <= IOV_MAX && IsFull(q)
    ensures Turns(q, rest, refusals).over <==> BurstsFull(q.udp, q.n, q.size, q.last, rest, refusals)
    decreases rest, |refusals|, 1
  {
    if Asks(q) && Next(refusals) {
      RefusedBursts(q, rest, refusals);
    } else {
      OpenedBursts(q, rest, refusals);
    }
  }

  /**
   After a call some message has more than IOV_MAX fragments exactly when one had before, or the
   refusals of a new message outnumber the fragments that a full message has room for.
   */
  lemma CallBursts(q: Counts, rest: nat, refusals: seq<bool>)
    requires WithinMtu(q) && (q.last > IOV_MAX ==> q.over)
    ensures Turns(q, rest, refusals).over <==> q.over || Bursts(q, rest, refusals)
  {
    TurnsMonotone(q, rest, refusals);
    if !q.over {
      if IsFull(q) {
        FullBursts(q, rest, refusals);
      } else {
        TurnsGoOn(q, rest, refusals);
        var len := Piece(q, rest, Next(refusals));
        if len < rest {
          FullBursts(Turn(q, rest, Next(refusals)), rest - len, refusals);
        }
      }
    }
  }

  /** Over TCP only the first message is bounded, so a later one bursts at the first refusal or not at all. */
  lemma TcpBurstsIff(q: Counts, rest: nat, refusals: seq<bool>)
    requires WithinMtu(q) && !q.udp && q.n > 1
    ensures Bursts(q, rest, refusals) <==> q.last == IOV_MAX && q.n == q.size && Next(refusals)
  {
  }

  // ------------------------------------------------- the connection

  class Conn {
    const udp: bool
    var block: nat
    var iov: seq<Entry>
    var iovused: nat
    var msgs: seq<Msg>
    var msgbytes: nat
    var msgsize: nat
    var msgcurr: nat
    ghost var starved: bool
    ghost var overfull: bool
    ghost var stream: string
    ghost var sent: string

    ghost function View(): Out
      reads this
    {
      Out(udp, block, iov, iovused, msgs, msgbytes)
    }

    ghost function Counted(): Counts
      reads this
    {
      Counts(udp, |msgs|, msgsize, if msgs == [] then 0 else msgs[|msgs| - 1].len, msgbytes, iovused, overfull)
    }

    /** The messages are as they should be, and `stream` is what the fragments say, headers apart. */
    ghost predicate Whole()
      reads this
    {
      Good(View(), starved) && stream == Payload(iov[..iovused])
    }

    /** Whole is looked into only where Look says so. */
    ghost predicate Valid()
      reads this
    {
      && (overfull <==> TooMany(msgs)) && 0 < |msgs| <= msgsize && iovused <= |iov|
      && forall x: nat {:trigger Look(x)} :: Look(x) ==> Whole()
    }

    /** No message yet. */
    ghost predicate Blank()
      reads this
    {
      0 < |iov| && iovused == 0 && msgs == [] && !overfull && 0 < msgsize && stream == []
    }

    constructor (udp: bool)
      ensures this.udp == udp && !starved && Blank() && msgcurr == 0 && sent == []
      ensures |iov| == IOV_LIST_INITIAL && msgsize == MSG_LIST_INITIAL
    {
      this.udp := udp;
      block, iov, iovused := 0, seq(IOV_LIST_INITIAL, _ => Entry(false, [])), 0;
      msgs, msgbytes, msgcurr, msgsize := [], 0, 0, MSG_LIST_INITIAL;
      starved, overfull, stream, sent := false, false, [], [];
    }

    /** ensure_iov_space; the allocator may refuse. */
    method EnsureIovSpace(memory: Memory) returns (ok: bool)
      requires 0 < |iov| && iovused <= |iov| && Tiled(msgs, block, iovused)
      modifies this`iov, this`msgs, this`block
      ensures (ok ==> iovused < |iov|) && Regrown(old(View()), View())
      ensures (memory == Granted ==> ok) && (memory == Refused ==> (ok <==> old(iovused < |iov|)))
      ensures old(iovused < |iov|) || !ok ==> |iov| == old(|iov|)
      ensures (!ok ==> iovused == |iov|) && (memory == Refused ==> |iov| == old(|iov|))
    {
      if iovused < |iov| {
        return true;
      }
      var granted: bool := *;
      if memory == Refused || (memory == Mixed && !granted) {
        return false;
      }
      iov := iov + seq(|iov|, _ => Entry(false, []));
      block := block + 1;
      ghost var before, grown, moved := msgs, iov, block;
      assert grown[..iovused] == old(iov[..iovused]);
      var i, iovnum := 0, 0;
      while i < |msgs|
        invariant iov == grown && block == moved && 0 <= i <= |msgs| == |before| && iovnum == Start(before, i)
        invariant forall j :: 0 <= j < |msgs| ==> msgs[j].len == before[j].len && msgs[j].off == before[j].off
        invariant forall j :: 0 <= j < i ==> msgs[j].block == block
      {
        assert PlacedAt(before, old(block), i);
        msgs := msgs[i := Msg(block, iovnum, msgs[i].len)];
        iovnum := iovnum + msgs[i].len;
        i := i + 1;
      }
      RepointedTiles(before, msgs, old(block), block, iovused);
      ok := true;
    }

    /** The part of add_iov that adds one fragment to the last message. */
    method AppendEntry(e: Entry, memory: Memory) returns (ok: bool)
      requires Fits(View(), e, starved)
      modifies this`iov, this`msgs, this`block, this`iovused, this`msgbytes, this`starved
      ensures Good(View(), starved) && |msgs| == old(|msgs|) && starved == (old(starved) || !ok)
      ensures iovused == old(iovused) + (if ok then 1 else 0)
      ensures iov[..iovused] == old(iov[..iovused]) + if ok then [e] else []
      ensures msgbytes == old(msgbytes) + if ok then |e.bytes| else 0
      ensures LastGrew(old(msgs), msgs, if ok then 1 else 0)
      ensures (memory == Granted ==> ok) && (memory == Refused ==> (ok <==> old(iovused < |iov|)))
      ensures Spent(memory, ok, old(iovused), old(|iov|), iovused, |iov|)
      ensures |iov| >= old(|iov|) && (iovused <= old(|iov|) ==> |iov| == old(|iov|))
    {
      ok := EnsureIovSpace(memory);
      if ok {
        AppendedGood(old(View()), View(), e, starved);
        WriteEntry(e);
      } else {
        RegrownGood(old(View()), View(), e, starved);
        starved := true;
      }
    }

    /** The same, with the stream. */
    method AppendStreamed(e: Entry, memory: Memory) returns (ok: bool)
      requires Fits(View(), e, starved) && stream == Payload(iov[..iovused])
      modifies this`iov, this`msgs, this`block, this`iovused, this`msgbytes, this`starved, this`stream
      ensures Whole() && starved == (old(starved) || !ok)
      ensures iovused == old(iovused) + (if ok then 1 else 0) && LastGrew(old(msgs), msgs, if ok then 1 else 0)
      ensures msgbytes == old(msgbytes) + if ok then |e.bytes| else 0
      ensures stream == old(stream) + if ok && !e.hdr then e.bytes else []
      ensures (memory == Granted ==> ok) && (memory == Refused ==> (ok <==> old(iovused < |iov|)))
      ensures Spent(memory, ok, old(iovused), old(|iov|), iovused, |iov|)
      ensures Grown(old(iov), old(iovused), iov, iovused)
    {
      ghost var before := iov[..iovused];
      AppendOne(before, e);
      ok := AppendEntry(e, memory);
      assert before + [] == before && stream + [] == stream;
      stream := stream + if ok && !e.hdr then e.bytes else [];
    }

    /** The same, with the counts. */
    method AppendCounted(e: Entry, memory: Memory) returns (ok: bool)
      requires Fits(View(), e, starved) && (overfull <==> TooMany(msgs)) && |msgs| <= msgsize
      requires stream == Payload(iov[..iovused])
      modifies this`iov, this`msgs, this`block, this`iovused, this`msgbytes, this`starved, this`overfull, this`stream
      ensures Valid() && starved == (old(starved) || !ok)
      ensures Counted() == if ok then Put(old(Counted()), |e.bytes|) else old(Counted())
      ensures stream == old(stream) + if ok && !e.hdr then e.bytes else []
      ensures (memory == Granted ==> ok) && (memory == Refused ==> (ok <==> old(iovused < |iov|)))
      ensures Spent(memory, ok, old(iovused), old(|iov|), iovused, |iov|)
      ensures Grown(old(iov), old(iovused), iov, iovused)
    {
      ghost var before := msgs;
      ok := AppendStreamed(e, memory);
      TooManyGrew(before, msgs, if ok then 1 else 0);
      overfull := overfull || (ok && before[|before| - 1].len >= IOV_MAX);
    }

    method WriteEntry(e: Entry)
      requires msgs != [] && msgs[|msgs| - 1].off + msgs[|msgs| - 1].len < |iov|
      modifies this`iov, this`msgs, this`iovused, this`msgbytes
      ensures View() == Added(old(View()), e)
    {
      var n := |msgs| - 1;
      iov := iov[msgs[n].off + msgs[n].len := e];
      msgbytes := msgbytes + |e.bytes|;
      iovused := iovused + 1;
      msgs := msgs[n := msgs[n].(len := msgs[n].len + 1)];
    }

    /**
     add_msghdr; when the list of messages is full and cannot grow (`refuse`), nothing is added.
     In a message without fragments add_iov adds the header's room as it is.
     */
    method AddMsghdr(refuse: bool, memory: Memory) returns (ok: bool)
      requires Blank() || Valid()
      modifies this`iov, this`msgs, this`block, this`iovused, this`msgbytes, this`starved, this`overfull,
               this`msgsize, this`stream
      ensures old(|msgs| == msgsize) && refuse ==>
                !ok && View() == old(View()) && starved == old(starved) && Counted() == old(Counted())
      ensures !(old(|msgs| == msgsize) && refuse) ==> Valid() && Started(old(Counted()), Counted(), ok)
      ensures !(old(|msgs| == msgsize) && refuse) ==> starved == (old(starved) || !ok)
      ensures !(old(|msgs| == msgsize) && refuse) && (memory == Granted || !udp) ==> ok
      ensures memory == Refused && old(iovused == |iov|) && udp ==> !ok
      ensures old(Valid()) ==> Valid()
      ensures Grown(old(iov), old(iovused), iov, iovused) && stream == old(stream)
      ensures memory == Refused ==> |iov| == old(|iov|)
    {
      assert Look(0);
      if |msgs| == msgsize {
        if refuse {
          return false;
        }
        msgsize := msgsize * 2;
      }
      ok := StartMessage(memory);
    }

    /** A new message, over UDP with room for its header. */
    method StartMessage(memory: Memory) returns (ok: bool)
      requires (Blank() || (Whole() && (overfull <==> TooMany(msgs)))) && |msgs| < msgsize
      modifies this`iov, this`msgs, this`block, this`iovused, this`msgbytes, this`starved, this`overfull, this`stream
      ensures Valid() && starved == (old(starved) || !ok) && Started(old(Counted()), Counted(), ok)
      ensures (memory == Granted || !udp ==> ok) && (memory == Refused && old(iovused == |iov|) && udp ==> !ok)
      ensures Grown(old(iov), old(iovused), iov, iovused) && stream == old(stream)
      ensures memory == Refused ==> |iov| == old(|iov|)
    {
      OpenMessage();
      ok := true;
      if udp {
        ok := AppendCounted(Entry(true, seq(UDP_HEADER_SIZE, _ => '0')), memory);
      }
    }

    /** A message without fragments behind the others. */
    method OpenMessage()
      requires if msgs == [] then 0 < |iov| && iovused == 0 else Good(View(), starved)
      requires overfull <==> TooMany(msgs)
      modifies this`msgs, this`msgbytes
      ensures View() == Opened(old(View())) && Shaped(View()) && (overfull <==> TooMany(msgs))
      ensures udp && !starved ==> AllHeaded(iov, msgs, |msgs| - 1)
      ensures !udp ==> Good(View(), starved)
    {
      OpenedKeeps(View());
      TooManyOpen(msgs, Msg(block, iovused, 0));
      msgs := msgs + [Msg(block, iovused, 0)];
      msgbytes := 0;
    }

    /**
     add_iov. When memory for fragments is refused, what was added so far stays: a prefix of the
     buffer. When a new message is refused, the fragment goes to the message that is full; only
     that can give a message more than IOV_MAX fragments, and the bytes of a message stay
     bounded even so.
     */
    method AddIov(buf: string, refusals: seq<bool>, memory: Memory) returns (ok: bool, ghost taken: nat)
      requires Valid()
      modifies this`iov, this`msgs, this`block, this`iovused, this`msgbytes, this`starved, this`overfull,
               this`msgsize, this`stream
      ensures Valid() && taken <= |buf| && (ok ==> taken == |buf|) && (memory == Granted ==> ok)
      ensures Spent(memory, ok, old(iovused), old(|iov|), iovused, |iov|)
      ensures Grown(old(iov), old(iovused), iov, iovused) && stream == old(stream) + buf[..taken]
      ensures |msgs| >= old(|msgs|)
      ensures AllGranted(refusals) ==> (TooMany(msgs) <==> TooMany(old(msgs)))
      ensures WithinMtu(old(Counted())) && (TooMany(old(msgs)) ==> TooMany(msgs))
      ensures ok && (memory == Granted || !udp) ==> Counted() == Turns(old(Counted()), |buf|, refusals)
      ensures ok && (memory == Granted || !udp) ==>
                (TooMany(msgs) <==> TooMany(old(msgs)) || Bursts(old(Counted()), |buf|, refusals))
      ensures TooMany(msgs) && (memory == Granted || !udp) ==>
                TooMany(old(msgs)) || Bursts(old(Counted()), |buf|, refusals)
      ensures memory == Refused && old(iovused == |iov|) ==> !ok && taken == 0
      ensures memory == Refused && old(iovused < |iov|) && !udp ==>
                && (Piece(old(Counted()), |buf|, Next(refusals)) == |buf| ==> ok)
                && (refusals == [] && buf != [] ==> taken > 0)
    {
      MtuHolds();
      CallBursts(Counted(), |buf|, refusals);
      ok, taken := AddAll(buf, refusals, memory);
    }

    /** add_iov: a first turn, then turns while something is left. */
    method AddAll(buf: string, refusals: seq<bool>, memory: Memory) returns (ok: bool, ghost taken: nat)
      requires Valid()
      modifies this`iov, this`msgs, this`block, this`iovused, this`msgbytes, this`starved, this`overfull,
               this`msgsize, this`stream
      ensures Valid() && taken <= |buf| && (ok ==> taken == |buf|) && (memory == Granted ==> ok)
      ensures Spent(memory, ok, old(iovused), old(|iov|), iovused, |iov|)
      ensures Grown(old(iov), old(iovused), iov, iovused) && stream == old(stream) + buf[..taken]
      ensures |msgs| >= old(|msgs|)
      ensures AllGranted(refusals) ==> overfull == old(overfull)
      ensures WithinMtu(old(Counted())) && (old(overfull) ==> overfull)
      ensures ok && (memory == Granted || !udp) ==> Counted() == Turns(old(Counted()), |buf|, refusals)
      ensures overfull && (memory == Granted || !udp) ==> Turns(old(Counted()), |buf|, refusals).over
      ensures memory == Refused && old(iovused == |iov|) ==> !ok && taken == 0
      ensures memory == Refused && old(iovused < |iov|) && !udp ==>
                && (Piece(old(Counted()), |buf|, Next(refusals)) == |buf| ==> ok)
                && (refusals == [] && buf != [] ==> taken > 0)
    {
      MtuHolds();
      ghost var iov0, used0, stream0 := iov, iovused, stream;
      TurnsGoOn(Counted(), |buf|, refusals);
      TurnsMonotone(Counted(), |buf|, refusals);
      var asks := AsksForList();
      var len;
      ok, len := AddPiece(buf, refusals != [] && refusals[0], memory);
      taken := if ok then len else 0;
      if ok && len < |buf| {
        ok, taken := AddBehind(buf, len, if asks && refusals != [] then refusals[1..] else refusals, memory,
                               stream0, iov0, used0);
      }
    }

    /** The bytes of the buffer from `len` on. */
    method AddBehind(buf: string, len: nat, refusals: seq<bool>, memory: Memory,
                     ghost stream0: string, ghost iov0: seq<Entry>, ghost used0: nat)
      returns (ok: bool, ghost taken: nat)
      requires Valid() && len < |buf| && stream == stream0 + buf[..len] && Grown(iov0, used0, iov, iovused)
      modifies this`iov, this`msgs, this`block, this`iovused, this`msgbytes, this`starved, this`overfull,
               this`msgsize, this`stream
      ensures Valid() && len <= taken <= |buf| && (ok ==> taken == |buf|) && (memory == Granted ==> ok)
      ensures Spent(memory, ok, old(iovused), old(|iov|), iovused, |iov|)
      ensures Grown(iov0, used0, iov, iovused) && stream == stream0 + buf[..taken]
      ensures |msgs| >= old(|msgs|)
      ensures AllGranted(refusals) ==> overfull == old(overfull)
      ensures WithinMtu(old(Counted())) && (old(overfull) ==> overfull)
      ensures ok && (memory == Granted || !udp) ==> Counted() == Turns(old(Counted()), |buf| - len, refusals)
      ensures overfull && (memory == Granted || !udp) ==> Turns(old(Counted()), |buf| - len, refusals).over
    {
      ghost var more, iov1, used1 := 0, iov, iovused;
      MtuHolds();
      ok, more := AddRest(buf[len..], refusals, memory, Turns(Counted(), |buf| - len, refusals));
      GrownOn(iov0, used0, iov1, used1, iov, iovused);
      Joined(stream0, buf, len, more);
      taken := len + more;
    }

    /** The loop's further turns. */
    method AddRest(buf: string, refusals: seq<bool>, memory: Memory, ghost goal: Counts)
      returns (ok: bool, ghost taken: nat)
      requires Valid() && buf != [] && (memory == Granted || !udp ==> Leads(Counted(), |buf|, refusals, goal))
      modifies this`iov, this`msgs, this`block, this`iovused, this`msgbytes, this`starved, this`overfull,
               this`msgsize, this`stream
      ensures Valid() && taken <= |buf| && (ok ==> taken == |buf|) && (memory == Granted ==> ok)
      ensures Spent(memory, ok, old(iovused), old(|iov|), iovused, |iov|)
      ensures Grown(old(iov), old(iovused), iov, iovused) && stream == old(stream) + buf[..taken]
      ensures AllGranted(refusals) ==> overfull == old(overfull)
      ensures |msgs| >= old(|msgs|)
      ensures old(overfull) ==> overfull
      ensures ok && (memory == Granted || !udp) ==> Counted() == goal
      ensures overfull && (memory == Granted || !udp) ==> goal.over
    {
      var rest, left := buf, refusals;
      ghost var done := [];
      ghost var iov0, used0, stream0, over0, count0 := iov, iovused, stream, overfull, |msgs|;
      while rest != []
        invariant Valid() && buf == done + rest && (over0 ==> overfull)
        invariant Grown(iov0, used0, iov, iovused) && stream == stream0 + done
        invariant (done == [] && rest == buf) || used0 < iovused
        invariant memory == Refused ==> |iov| == |iov0|
        invariant |msgs| >= count0
        invariant memory == Granted || !udp ==> Leads(Counted(), |rest|, left, goal)
        invariant AllGranted(refusals) ==> AllGranted(left) && overfull == over0
        decreases |rest|, |left|
      {
        ghost var iov1, used1 := iov, iovused;
        var len;
        ok, len, left := RestTurn(rest, left, memory, goal);
        GrownOn(iov0, used0, iov1, used1, iov, iovused);
        if !ok {
          taken := |done|;
          return;
        }
        Shifted(stream0, done, rest, len);
        done, rest := done + rest[..len], rest[len..];
      }
      if memory == Granted || !udp {
        LeadsThere(Counted(), left, goal);
      }
      ok, taken := true, |done|;
    }

    /** One of them, and the answers that are left. */
    method RestTurn(rest: string, left: seq<bool>, memory: Memory, ghost goal: Counts)
      returns (ok: bool, len: nat, left': seq<bool>)
      requires Valid() && rest != [] && (memory == Granted || !udp ==> Leads(Counted(), |rest|, left, goal))
      modifies this`iov, this`msgs, this`block, this`iovused, this`msgbytes, this`starved, this`overfull,
               this`msgsize, this`stream
      ensures Valid() && len <= |rest| && (memory == Granted ==> ok) && (old(overfull) ==> overfull)
      ensures Spent(memory, ok, old(iovused), old(|iov|), iovused, |iov|)
      ensures Grown(old(iov), old(iovused), iov, iovused)
      ensures |msgs| >= old(|msgs|)
      ensures stream == old(stream) + if ok then rest[..len] else []
      ensures |left'| <= |left| && (ok ==> len > 0 || |left'| < |left|)
      ensures ok && (memory == Granted || !udp) ==> Leads(Counted(), |rest| - len, left', goal)
      ensures AllGranted(left) ==> AllGranted(left') && overfull == old(overfull)
      ensures !ok && (memory == Granted || !udp) ==> overfull ==> goal.over
    {
      if memory == Granted || !udp {
        LeadsOn(Counted(), |rest|, left, goal);
      }
      var asks := AsksForList();
      ok, len := AddPiece(rest, left != [] && left[0], memory);
      left' := if asks && left != [] then left[1..] else left;
    }

    /** Whether add_msghdr will have to grow its list. */
    method AsksForList() returns (asks: bool)
      requires Valid()
      ensures asks == Asks(Counted())
    {
      var full := msgs[|msgs| - 1].len == IOV_MAX || ((udp || 1 == |msgs|) && msgbytes >= UDP_MAX_PAYLOAD_SIZE);
      asks := full && |msgs| == msgsize;
    }

    lemma MtuHolds()
      requires Valid()
      ensures WithinMtu(Counted()) && (Counted().last > IOV_MAX ==> overfull)
    {
      assert Look(0);
      assert MsgOk(udp, iov, msgs, |msgs| - 1);
    }

    /**
     One turn of the loop: all of `rest`, or as much of it as the message has room for, or
     nothing when a new message was refused.
     */
    method AddPiece(rest: string, refuse: bool, memory: Memory) returns (ok: bool, len: nat)
      requires Valid()
      modifies this`iov, this`msgs, this`block, this`iovused, this`msgbytes, this`starved, this`overfull,
               this`msgsize, this`stream
      ensures Valid() && len <= |rest| && (memory == Granted ==> ok) && WithinMtu(old(Counted()))
      ensures Spent(memory, ok, old(iovused), old(|iov|), iovused, |iov|)
      ensures Grown(old(iov), old(iovused), iov, iovused)
      ensures stream == old(stream) + if ok then rest[..len] else []
      ensures |msgs| >= old(|msgs|)
      ensures ok ==> len == |rest| || len > 0 || (refuse && Asks(old(Counted())))
      ensures ok && (memory == Granted || !udp) ==>
                Counted() == Turn(old(Counted()), |rest|, refuse) && len == Piece(old(Counted()), |rest|, refuse)
      ensures (!ok && !udp) || !refuse ==> overfull == old(overfull)
      ensures old(overfull) ==> overfull
      ensures memory == Refused && (old(iovused == |iov|) || !udp) ==> (ok <==> old(iovused < |iov|))
      ensures memory == Refused && old(iovused == |iov|) ==> iovused == old(iovused)
    {
      MtuHolds();
      ghost var iov0, used0 := iov, iovused;
      var limit := udp || 1 == |msgs|;
      OpenIfFull(limit, refuse, memory);
      MtuHolds();
      ghost var iov1, used1 := iov, iovused;
      len := |rest|;
      if limit && len + msgbytes > UDP_MAX_PAYLOAD_SIZE {
        len := UDP_MAX_PAYLOAD_SIZE - msgbytes;
      }
      ok := AppendPiece(rest[..len], memory);
      GrownOn(iov0, used0, iov1, used1, iov, iovused);
    }

    /**
     A message that is full is followed by a new one, unless that is refused: the result of
     add_msghdr is not looked at.
     */
    method OpenIfFull(limit: bool, refuse: bool, memory: Memory)
      requires Valid() && limit == Limited(Counted())
      modifies this`iov, this`msgs, this`block, this`iovused, this`msgbytes, this`starved, this`overfull,
               this`msgsize, this`stream
      ensures Valid() && overfull == old(overfull)
      ensures Grown(old(iov), old(iovused), iov, iovused) && stream == old(stream)
      ensures memory == Refused ==> |iov| == old(|iov|)
      ensures !(refuse && Asks(old(Counted()))) ==> !limit || msgbytes < UDP_MAX_PAYLOAD_SIZE
      ensures |msgs| >= old(|msgs|)
      ensures limit ==> msgbytes <= UDP_MAX_PAYLOAD_SIZE
      ensures !refuse ==> Counted().last != IOV_MAX
      ensures memory == Granted || !udp ==> Counted() == Target(old(Counted()), refuse)
      ensures memory == Refused && (old(iovused == |iov|) || !udp) ==> iovused == old(iovused)
    {
      MtuHolds();
      if msgs[|msgs| - 1].len == IOV_MAX || (limit && msgbytes >= UDP_MAX_PAYLOAD_SIZE) {
        var _ := AddMsghdr(refuse, memory);
      }
    }

    method AppendPiece(piece: string, memory: Memory) returns (ok: bool)
      requires Valid()
      requires Bounded(udp, |msgs| - 1) ==> msgbytes + |piece| <= UDP_MAX_PAYLOAD_SIZE
      modifies this`iov, this`msgs, this`block, this`iovused, this`msgbytes, this`starved, this`overfull, this`stream
      ensures Valid() && Counted() == if ok then Put(old(Counted()), |piece|) else old(Counted())
      ensures Grown(old(iov), old(iovused), iov, iovused) && stream == old(stream) + if ok then piece else []
      ensures (memory == Granted ==> ok) && (memory == Refused ==> (ok <==> old(iovused < |iov|)))
      ensures Spent(memory, ok, old(iovused), old(|iov|), iovused, |iov|)
    {
      assert Look(0);
      HeadedLast(View(), starved);
      ok := AppendCounted(Entry(false, piece), memory);
    }

    ghost function Rest(): string
      requires msgcurr <= |msgs|
      reads this
    {
      Pending(iov, msgs[msgcurr..])
    }

    ghost predicate Sendable()
      reads this
    {
      msgcurr <= |msgs| && Laid(iov, msgs[msgcurr..], 0)
    }

    /** transmit. sendmsg takes any part of the message, or fails, for good or for now. */
    method Transmit() returns (r: Transmitted)
      requires Sendable()
      modifies this`iov, this`msgs, this`msgcurr, this`sent
      ensures Sendable() && sent + Rest() == old(sent + Rest())
      ensures r == Complete ==> Rest() == []
      ensures r == Incomplete ==> |sent| > old(|sent|)
      ensures r.SoftError? || r.HardError? ==> sent == old(sent)
    {
      if msgcurr < |msgs| && msgs[msgcurr].len == 0 {
        assert msgs[msgcurr..] == [msgs[msgcurr]] + msgs[msgcurr + 1..];
        SkipEmpty(iov, msgs[msgcurr], msgs[msgcurr + 1..]);
        msgcurr := msgcurr + 1;
      }
      if msgcurr >= |msgs| {
        return Complete;
      }
      r := SendCurrent();
    }

    /** sendmsg on the current message, and what follows it. */
    method SendCurrent() returns (r: Transmitted)
      requires Sendable() && msgcurr < |msgs|
      modifies this`iov, this`msgs, this`sent
      ensures Sendable() && sent + Rest() == old(sent + Rest())
      ensures r != Complete && (r == Incomplete ==> |sent| > old(|sent|)) && (r != Incomplete ==> sent == old(sent))
    {
      var m := msgs[msgcurr];
      assert msgs[msgcurr..][0] == m;
      ghost var wire := Wire(Slice(iov, m));
      var res: int :| -1 <= res <= |Wire(Slice(iov, m))|;
      if res > 0 {
        TakeSent(res);
        sent := sent + wire[..res];
        return Incomplete;
      }
      var again: bool := *;
      r := if res == -1 && again then SoftError else HardError;
    }

    /** The bookkeeping after sendmsg took `n` bytes of the current message. */
    method TakeSent(n: nat)
      requires Sendable() && msgcurr < |msgs| && msgs[msgcurr].off + msgs[msgcurr].len <= |iov|
      requires 0 < n <= |Wire(Slice(iov, msgs[msgcurr]))|
      modifies this`iov, this`msgs
      ensures Sendable() && old(Rest()) == old(Wire(Slice(iov, msgs[msgcurr])))[..n] + Rest()
    {
      var m, res, k := SkipSent(msgs[msgcurr], n);
      CutCurrent(iov, msgs, msgcurr, k, res, n);
      Advance(m, res);
    }

    method Advance(m: Msg, res: nat)
      requires msgcurr < |msgs| && (res > 0 ==> m.off < |iov| && res <= |iov[m.off].bytes|)
      modifies this`iov, this`msgs
      ensures msgs == old(msgs)[msgcurr := m] && iov == CutArray(old(iov), m.off, res)
    {
      msgs := msgs[msgcurr := m];
      if res > 0 {
        iov := iov[m.off := iov[m.off].(bytes := iov[m.off].bytes[res..])];
      }
    }

    /** The loop over the fragments that were sent whole. */
    method SkipSent(first: Msg, n: nat) returns (m: Msg, res: nat, ghost k: nat)
      requires first.off + first.len <= |iov| && n <= |Wire(Slice(iov, first))|
      ensures k <= first.len && m == Msg(first.block, first.off + k, first.len - k)
      ensures res > 0 ==> k < first.len && res < |iov[first.off + k].bytes|
      ensures res <= |Wire(Slice(iov, first)[k..])|
              && Wire(Slice(iov, first))[n..] == Wire(Slice(iov, first)[k..])[res..]
    {
      m, res, k := first, n, 0;
      ghost var all := Slice(iov, first);
      assert all[0..] == all;
      while m.len > 0 && res >= |iov[m.off].bytes|
        invariant 0 <= k <= first.len
        invariant m == Msg(first.block, first.off + k, first.len - k)
        invariant res <= |Wire(all[k..])| && Wire(all)[n..] == Wire(all[k..])[res..]
        decreases m.len
      {
        assert all[k..][0] == iov[m.off] && all[k..][1..] == all[k + 1..];
        res := res - |iov[m.off].bytes|;
        m := Msg(m.block, m.off + 1, m.len - 1);
        k := k + 1;
      }
      assert m.len == 0 ==> all[k..] == [];
    }

    /** The writes of one wake-up of the connection's state machine: until all is sent or the socket gives out. */
    method DriveWrites() returns (r: Transmitted)
      requires Sendable()
      modifies this`iov, this`msgs, this`msgcurr, this`sent
      ensures Sendable() && sent + Rest() == old(sent + Rest())
      ensures r != Incomplete && (r == Complete ==> sent == old(sent + Rest()))
    {
      r := Incomplete;
      ghost var total := sent + Rest();
      while r == Incomplete
        invariant Sendable() && sent + Rest() == total && (r == Complete ==> Rest() == [])
        decreases |Rest()|, r == Incomplete
      {
        r := Transmit();
      }
    }
  }

  lemma Joined(s: string, buf: string, len: nat, more: nat)
    requires len + more <= |buf|
    ensures (s + buf[..len]) + buf[len..][..more] == s + buf[..len + more]
  {
    assert buf[..len] + buf[len..][..more] == buf[..len + more];
  }

  lemma Shifted(s: string, done: string, rest: string, n: nat)
    requires n <= |rest|
    ensures done + rest == (done + rest[..n]) + rest[n..] && (s + done) + rest[..n] == s + (done + rest[..n])
  {
  }

  // ------------------------------------------------- what is still to be sent

  datatype Transmitted = Complete | Incomplete | SoftError | HardError

  /** The messages lie in the array one after the other, from `lo` on. */
  ghost predicate Laid(iov: seq<Entry>, ms: seq<Msg>, lo: nat)
    decreases ms
  {
    ms == [] || (lo <= ms[0].off && ms[0].off + ms[0].len <= |iov| && Laid(iov, ms[1..], ms[0].off + ms[0].len))
  }

  ghost function Pending(iov: seq<Entry>, ms: seq<Msg>): string
    decreases ms
  {
    if ms == [] || ms[0].off + ms[0].len > |iov| then [] else Wire(Slice(iov, ms[0])) + Pending(iov, ms[1..])
  }

  /** What is sent from the messages at or after `lo` does not depend on the fragments before. */
  lemma {:induction false} PendingFrame(iov: seq<Entry>, iov': seq<Entry>, ms: seq<Msg>, lo: nat)
    requires Laid(iov, ms, lo) && |iov'| == |iov| && forall i :: lo <= i < |iov| ==> iov'[i] == iov[i]
    ensures Laid(iov', ms, lo) && Pending(iov', ms) == Pending(iov, ms)
    decreases ms
  {
    if ms != [] {
      assert Slice(iov', ms[0]) == Slice(iov, ms[0]);
      PendingFrame(iov, iov', ms[1..], ms[0].off + ms[0].len);
    }
  }

  lemma LaidFrom(iov: seq<Entry>, ms: seq<Msg>, lo: nat, lo': nat)
    requires Laid(iov, ms, lo) && lo' <= lo
    ensures Laid(iov, ms, lo')
  {
  }

  lemma PendingCons(iov: seq<Entry>, m: Msg, later: seq<Msg>, lo: nat)
    ensures Laid(iov, [m] + later, lo) <==> lo <= m.off && m.off + m.len <= |iov| && Laid(iov, later, m.off + m.len)
    ensures m.off + m.len <= |iov| ==> Pending(iov, [m] + later) == Wire(Slice(iov, m)) + Pending(iov, later)
  {
    assert ([m] + later)[1..] == later;
  }

  lemma SkipEmpty(iov: seq<Entry>, m: Msg, later: seq<Msg>)
    requires Laid(iov, [m] + later, 0) && m.len == 0
    ensures Laid(iov, later, 0) && Pending(iov, later) == Pending(iov, [m] + later)
  {
    PendingCons(iov, m, later, 0);
    assert Slice(iov, m) == [];
    LaidFrom(iov, later, m.off, 0);
  }

  /** The current message without its first k fragments and without the first `res` bytes of the next. */
  function CutArray(iov: seq<Entry>, at: nat, res: nat): seq<Entry>
    requires res > 0 ==> at < |iov| && res <= |iov[at].bytes|
  {
    if res > 0 then iov[at := iov[at].(bytes := iov[at].bytes[res..])] else iov
  }

  lemma CutSlice(iov: seq<Entry>, m: Msg, k: nat, res: nat)
    requires m.off + m.len <= |iov| && k <= m.len
    requires res > 0 ==> k < m.len && res < |iov[m.off + k].bytes|
    ensures res <= |Wire(Slice(iov, m)[k..])|
    ensures Wire(Slice(CutArray(iov, m.off + k, res), Msg(m.block, m.off + k, m.len - k))) ==
            Wire(Slice(iov, m)[k..])[res..]
  {
    var iov' := CutArray(iov, m.off + k, res);
    var now, before := Slice(iov', Msg(m.block, m.off + k, m.len - k)), Slice(iov, m)[k..];
    if res > 0 {
      assert before[0] == iov[m.off + k] && now[0] == iov'[m.off + k] && now[1..] == before[1..];
    } else {
      assert now == before;
    }
  }

  lemma CutHead(iov: seq<Entry>, m: Msg, later: seq<Msg>, k: nat, res: nat, n: nat)
    requires Laid(iov, [m] + later, 0) && k <= m.len
    requires m.off + m.len <= |iov| && n <= |Wire(Slice(iov, m))|
    requires res > 0 ==> k < m.len && res < |iov[m.off + k].bytes|
    requires res <= |Wire(Slice(iov, m)[k..])| && Wire(Slice(iov, m))[n..] == Wire(Slice(iov, m)[k..])[res..]
    ensures var m' := Msg(m.block, m.off + k, m.len - k);
            var iov' := CutArray(iov, m'.off, res);
            && Laid(iov', [m'] + later, 0)
            && Pending(iov, [m] + later) == Wire(Slice(iov, m))[..n] + Pending(iov', [m'] + later)
  {
    var m' := Msg(m.block, m.off + k, m.len - k);
    var iov' := CutArray(iov, m'.off, res);
    PendingCons(iov, m, later, 0);
    PendingFrame(iov, iov', later, m.off + m.len);
    PendingCons(iov', m', later, 0);
    CutSlice(iov, m, k, res);
    CutWire(Wire(Slice(iov, m)), Pending(iov, later), n);
  }

  /** The same within the list of messages. */
  lemma CutCurrent(iov: seq<Entry>, msgs: seq<Msg>, cur: nat, k: nat, res: nat, n: nat)
    requires cur < |msgs| && Laid(iov, msgs[cur..], 0) && k <= msgs[cur].len
    requires msgs[cur].off + msgs[cur].len <= |iov| && n <= |Wire(Slice(iov, msgs[cur]))|
    requires res > 0 ==> k < msgs[cur].len && res < |iov[msgs[cur].off + k].bytes|
    requires res <= |Wire(Slice(iov, msgs[cur])[k..])|
             && Wire(Slice(iov, msgs[cur]))[n..] == Wire(Slice(iov, msgs[cur])[k..])[res..]
    ensures var m' := Msg(msgs[cur].block, msgs[cur].off + k, msgs[cur].len - k);
            var iov' := CutArray(iov, m'.off, res);
            && Laid(iov', msgs[cur := m'][cur..], 0)
            && Pending(iov, msgs[cur..]) == Wire(Slice(iov, msgs[cur]))[..n] + Pending(iov', msgs[cur := m'][cur..])
  {
    var m' := Msg(msgs[cur].block, msgs[cur].off + k, msgs[cur].len - k);
    assert msgs[cur..] == [msgs[cur]] + msgs[cur + 1..] && msgs[cur := m'][cur..] == [m'] + msgs[cur + 1..];
    CutHead(iov, msgs[cur], msgs[cur + 1..], k, res, n);
  }

  lemma CutWire(w: string, later: string, n: nat)
    requires n <= |w|
    ensures w + later == w[..n] + (w[n..] + later)
  {
  }

  lemma HeadedLast(o: Out, starved: bool)
    requires Good(o, starved)
    ensures o.udp && !starved ==> o.msgs[|o.msgs| - 1].len > 0
  {
    if o.udp && !starved {
      assert Headed(o.iov, o.msgs, |o.msgs| - 1);
    }
  }

  // ------------------------------------------------- from assembly to the wire

  /** These messages send the fragments from `lo` to `used`. */
  ghost predicate Sends(iov: seq<Entry>, ms: seq<Msg>, lo: nat, used: nat) {
    lo <= used <= |iov| && Laid(iov, ms, lo) && Pending(iov, ms) == Wire(iov[lo..used])
  }

  lemma {:induction false} TiledIsLaid(iov: seq<Entry>, msgs: seq<Msg>, block: nat, used: nat, i: nat)
    requires Tiled(msgs, block, used) && used <= |iov| && i <= |msgs|
    ensures Sends(iov, msgs[i..], Start(msgs, i), used)
    decreases |msgs| - i
  {
    if i == |msgs| {
      SendsNone(iov, msgs, used);
    } else {
      TiledIsLaid(iov, msgs, block, used, i + 1);
      MsgEnds(msgs, block, used, i);
      assert PlacedAt(msgs, block, i);
      assert msgs[i..] == [msgs[i]] + msgs[i + 1..];
      LaidStep(iov, msgs[i], msgs[i + 1..], used);
    }
  }

  lemma SendsNone(iov: seq<Entry>, msgs: seq<Msg>, used: nat)
    requires used <= |iov|
    ensures Sends(iov, msgs[|msgs|..], used, used)
  {
  }

  lemma LaidStep(iov: seq<Entry>, m: Msg, later: seq<Msg>, used: nat)
    requires Sends(iov, later, m.off + m.len, used)
    ensures Sends(iov, [m] + later, m.off, used)
  {
    PendingCons(iov, m, later, m.off);
    WireSplit(iov, m, used);
  }

  lemma WireSplit(iov: seq<Entry>, m: Msg, hi: nat)
    requires m.off + m.len <= hi <= |iov|
    ensures Wire(iov[m.off..hi]) == Wire(Slice(iov, m)) + Wire(iov[m.off + m.len..hi])
  {
    assert iov[m.off..hi] == Slice(iov, m) + iov[m.off + m.len..hi];
    WireConcat(Slice(iov, m), iov[m.off + m.len..hi]);
  }

  /**
   A response that was assembled is ready to be sent, and over TCP what will be sent is exactly
   the stream that was added.
   */
  lemma AssembledIsPending(o: Out)
    requires Shaped(o)
    ensures Laid(o.iov, o.msgs[0..], 0) && Pending(o.iov, o.msgs[0..]) == Wire(o.iov[..o.used])
    ensures Plain(o.iov[..o.used]) ==> Pending(o.iov, o.msgs[0..]) == Payload(o.iov[..o.used])
  {
    TiledIsLaid(o.iov, o.msgs, o.block, o.used, 0);
    assert o.iov[0..o.used] == o.iov[..o.used];
    if Plain(o.iov[..o.used]) {
      WireIsPayload(o.iov[..o.used]);
    }
  }

  /**
   Any buffers, through the whole of assembly and sending, with any refusals of memory
   (`refusals` has those of a new message for each buffer): when the
   sends complete, the client has the buffers' bytes, no more and no less.
   */
  method Respond(bufs: seq<string>, refusals: seq<seq<bool>>) returns (c: Conn, ok: bool, r: Transmitted)
    requires |refusals| == |bufs|
    ensures fresh(c)
    ensures ok && r == Complete ==> c.sent == Join(bufs)
    ensures ok ==> c.sent <= Join(bufs)
  {
    c := new Conn(false);
    ok := c.AddMsghdr(false, Mixed);
    var i := 0;
    while ok && i < |bufs|
      invariant 0 <= i <= |bufs| && c.Valid() && !c.udp && c.msgcurr == 0 && c.sent == [] && fresh(c)
      invariant ok ==> c.stream == Join(bufs[..i])
    {
      assert bufs[..i + 1][..i] == bufs[..i];
      ghost var taken;
      ok, taken := c.AddIov(bufs[i], refusals[i], Mixed);
      i := i + 1;
    }
    r := HardError;
    if ok {
      assert bufs[..i] == bufs;
      r := SendAll(c);
    }
  }

  /** Sending what was assembled over TCP. */
  method SendAll(c: Conn) returns (r: Transmitted)
    requires c.Valid() && !c.udp && c.msgcurr == 0 && c.sent == []
    modifies c
    ensures c.sent <= old(c.stream) && (r == Complete ==> c.sent == old(c.stream))
  {
    assert Look(0);
    AssembledIsPending(c.View());
    assert c.msgs[c.msgcurr..] == c.msgs[0..];
    r := c.DriveWrites();
    assert c.sent <= c.sent + c.Rest();
  }

  function Join(bufs: seq<string>): string {
    if bufs == [] then [] else Join(bufs[..|bufs| - 1]) + bufs[|bufs| - 1]
  }
}
