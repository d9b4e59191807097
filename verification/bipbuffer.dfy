/**
 The bip-buffer (bipbuffer.c): a byte queue in one array whose contents are region A and,
 when there is no room behind A, region B in front of it. Free space is always contiguous,
 so a writer can fill it in place.
 */
module BipBuffer {
  import opened Common

  /** size, a_start, a_end, b_end and b_inuse. */
  datatype Regions = Regions(size: nat, aStart: nat, aEnd: nat, bEnd: nat, bInuse: bool)

  /**
   B lies before A; an empty buffer has both at the start and B off. While B is off, the room
   behind A is no less than the room in front of it: otherwise it would be B's turn.
   */
  predicate Valid(r: Regions) {
    && r.aStart <= r.aEnd <= r.size && r.bEnd <= r.aStart
    && (!r.bInuse ==> r.bEnd == 0 && r.aStart <= r.size - r.aEnd)
    && (r.aStart == r.aEnd ==> r.aStart == 0 && !r.bInuse)
  }

  /** bipbuf_unused. */
  function Unused(r: Regions): int {
    if r.bInuse then r.aStart - r.bEnd else r.size - r.aEnd
  }

  /** Where the next byte goes. */
  function WritePos(r: Regions): nat {
    if r.bInuse then r.bEnd else r.aEnd
  }

  /** __check_for_switch_to_b. */
  function Switch(r: Regions): Regions {
    if r.size - r.aEnd < r.aStart - r.bEnd then r.(bInuse := true) else r
  }

  /** The cursors after bipbuf_push or bipbuf_offer of n bytes that fit. */
  function Grow(r: Regions, n: nat): Regions {
    Switch(if r.bInuse then r.(bEnd := r.bEnd + n) else r.(aEnd := r.aEnd + n))
  }

  /** The cursors after bipbuf_poll of n bytes. */
  function Drop(r: Regions, n: nat): Regions {
    var s := r.aStart + n;
    Switch(if s != r.aEnd then r.(aStart := s)
           else if r.bInuse then r.(aStart := 0, aEnd := r.bEnd, bEnd := 0, bInuse := false)
           else r.(aStart := 0, aEnd := 0))
  }

  /** The queue: region A, then region B. */
  ghost function Contents<T>(r: Regions, data: seq<T>): seq<T>
    requires Valid(r) && |data| == r.size
  {
    data[r.aStart..r.aEnd] + data[..r.bEnd]
  }

  lemma GrowKeeps<T>(r: Regions, n: nat, data: seq<T>)
    requires Valid(r) && n <= Unused(r) && |data| == r.size
    ensures Valid(Grow(r, n)) && WritePos(r) + n <= r.size
    ensures Contents(Grow(r, n), data) == Contents(r, data) + data[WritePos(r)..WritePos(r) + n]
    ensures Unused(Grow(r, n)) >= Unused(r) - n
  {
    if r.bInuse {
      assert data[..r.bEnd + n] == data[..r.bEnd] + data[r.bEnd..r.bEnd + n];
      Associates(data[r.aStart..r.aEnd], data[..r.bEnd], data[r.bEnd..r.bEnd + n]);
    } else {
      assert data[r.aStart..r.aEnd + n] == data[r.aStart..r.aEnd] + data[r.aEnd..r.aEnd + n];
      assert data[..0] == [] && r.bEnd == 0;
    }
  }

  /** Writing in the free space does not touch what is queued. */
  lemma FreeSpaceIsFree<T>(r: Regions, data: seq<T>, data': seq<T>, n: nat)
    requires Valid(r) && |data| == |data'| == r.size && n <= Unused(r)
    requires forall i :: 0 <= i < r.size && !(WritePos(r) <= i < WritePos(r) + n) ==> data'[i] == data[i]
    ensures Contents(r, data') == Contents(r, data)
  {
  }

  /** Bytes written in the free space, then queued. */
  lemma OfferKeeps<T>(r: Regions, data: seq<T>, data': seq<T>, d: seq<T>)
    requires Valid(r) && |data| == |data'| == r.size && |d| <= Unused(r) && Contents(r, data') == Contents(r, data)
    requires WritePos(r) + |d| <= r.size && data'[WritePos(r)..WritePos(r) + |d|] == d
    ensures Valid(Grow(r, |d|)) && Contents(Grow(r, |d|), data') == Contents(r, data) + d
    ensures Unused(Grow(r, |d|)) >= Unused(r) - |d|
  {
    GrowKeeps(r, |d|, data');
  }

  lemma DropKeeps<T>(r: Regions, n: nat, data: seq<T>)
    requires Valid(r) && n <= r.aEnd - r.aStart && r.aStart < r.aEnd && |data| == r.size
    ensures Valid(Drop(r, n)) && Contents(Drop(r, n), data) == Contents(r, data)[n..]
    ensures Unused(Drop(r, n)) >= Unused(r)
  {
    var whole := Contents(r, data);
    assert whole[n..] == data[r.aStart + n..r.aEnd] + data[..r.bEnd];
  }

  /**
   bipbuf_poll checks n against the end of the array only; it keeps the buffer well formed
   exactly when n is within region A.
   */
  lemma DropKeepsIff(r: Regions, n: nat)
    requires Valid(r) && r.aStart < r.aEnd && r.aStart + n <= r.size
    ensures Valid(Drop(r, n)) <==> n <= r.aEnd - r.aStart
  {
  }

  /** One byte beyond region A: accepted, and the start of A is then past its end. */
  lemma PollBeyondRegionA()
    ensures var r := Regions(4, 0, 1, 0, false);
            Valid(r) && r.aStart < r.aEnd && r.aStart + 2 <= r.size && Drop(r, 2).aStart > Drop(r, 2).aEnd
  {
  }

  // ------------------------------------------------- what a request guarantees

  datatype Op = Put(n: nat) | Take(n: nat)

  /** Bytes put by some operations. */
  function Total(ops: seq<Op>): nat {
    if ops == [] then 0 else (if ops[0].Put? then ops[0].n else 0) + Total(ops[1..])
  }

  function Effect(r: Regions, op: Op): Regions {
    match op
    case Put(n) => if n <= Unused(r) then Grow(r, n) else r
    case Take(n) => if n <= r.aEnd - r.aStart && r.aStart < r.aEnd then Drop(r, n) else r
  }

  /** Every put finds its space. */
  ghost predicate AllFit(r: Regions, ops: seq<Op>)
    decreases ops
  {
    ops != [] ==> (ops[0].Put? ==> ops[0].n <= Unused(r)) && AllFit(Effect(r, ops[0]), ops[1..])
  }

  /**
   After a request for n bytes, pushes and offers of at most n bytes together all succeed,
   however many polls come in between.
   */
  lemma {:induction false} RequestIsAPromise(r: Regions, n: nat, ops: seq<Op>)
    requires Valid(r) && n <= Unused(r) && Total(ops) <= n
    ensures AllFit(r, ops)
    decreases ops
  {
    if ops != [] {
      var data := seq(r.size, _ => 0);
      match ops[0] {
        case Put(k) =>
          GrowKeeps(r, k, data);
          RequestIsAPromise(Grow(r, k), n - k, ops[1..]);
        case Take(k) =>
          if Effect(r, ops[0]) != r {
            DropKeeps(r, k, data);
          }
          RequestIsAPromise(Effect(r, ops[0]), n, ops[1..]);
      }
    }
  }

  // ------------------------------------------------- bipbuffer.c in place

  class Buffer<T(0)> {
    const size: nat
    const data: array<T>
    var aStart: nat
    var aEnd: nat
    var bEnd: nat
    var bInuse: bool

    function Cursors(): Regions
      reads this
    {
      Regions(size, aStart, aEnd, bEnd, bInuse)
    }

    ghost predicate Ok()
      reads this
    {
      data.Length == size && Valid(Cursors())
    }

    ghost function Queue(): seq<T>
      requires Ok()
      reads this, data
    {
      Contents(Cursors(), data[..])
    }

    /** bipbuf_new. */
    constructor (size: nat)
      ensures Ok() && this.size == size && Queue() == [] && fresh(data)
    {
      this.size := size;
      data := new T[size];
      aStart, aEnd, bEnd, bInuse := 0, 0, 0, false;
    }

    method CheckForSwitchToB()
      modifies this`bInuse
      ensures Cursors() == Switch(old(Cursors()))
    {
      if size - aEnd < aStart - bEnd {
        bInuse := true;
      }
    }

    /** bipbuf_request: where n bytes can be written. */
    method Request(n: nat) returns (at: int)
      requires Ok()
      ensures at == if Unused(Cursors()) < n then NIL else WritePos(Cursors())
    {
      if Unused(Cursors()) < n {
        return NIL;
      }
      at := if bInuse then bEnd else aEnd;
    }

    /** Moving the cursors over n bytes of free space. */
    method Bump(n: nat)
      modifies this`aEnd, this`bEnd, this`bInuse
      ensures Cursors() == Grow(old(Cursors()), n)
    {
      if bInuse {
        bEnd := bEnd + n;
      } else {
        aEnd := aEnd + n;
      }
      CheckForSwitchToB();
    }

    /** bipbuf_push: queue the n bytes that were written where bipbuf_request said. */
    method Push(n: nat) returns (pushed: nat)
      requires Ok()
      modifies this`aEnd, this`bEnd, this`bInuse
      ensures Ok()
      ensures n <= Unused(old(Cursors())) ==>
                && pushed == n && Cursors() == Grow(old(Cursors()), n)
                && Unused(Cursors()) >= Unused(old(Cursors())) - n
                && WritePos(old(Cursors())) + n <= size
                && Queue() == old(Queue() + data[WritePos(Cursors())..WritePos(Cursors()) + n])
      ensures n > Unused(old(Cursors())) ==> pushed == 0 && Cursors() == old(Cursors())
    {
      if Unused(Cursors()) < n {
        return 0;
      }
      GrowKeeps(Cursors(), n, data[..]);
      ghost var at := WritePos(Cursors());
      assert data[..][at..at + n] == data[at..at + n];
      Bump(n);
      pushed := n;
    }

    /** memcpy into the free space. */
    method Fill(d: seq<T>)
      requires Ok() && |d| <= Unused(Cursors())
      modifies data
      ensures Ok() && Queue() == old(Queue()) && data[WritePos(Cursors())..WritePos(Cursors()) + |d|] == d
      ensures forall i :: 0 <= i < size && !(WritePos(Cursors()) <= i < WritePos(Cursors()) + |d|) ==>
                data[i] == old(data[i])
    {
      ghost var before := data[..];
      var at := WritePos(Cursors());
      var i := 0;
      while i < |d|
        invariant 0 <= i <= |d| && forall j :: 0 <= j < i ==> data[at + j] == d[j]
        invariant forall j :: 0 <= j < size && !(at <= j < at + i) ==> data[j] == before[j]
      {
        data[at + i] := d[i];
        i := i + 1;
      }
      FreeSpaceIsFree(Cursors(), before, data[..], |d|);
    }

    /** bipbuf_offer. */
    method Offer(d: seq<T>) returns (offered: nat)
      requires Ok()
      modifies this`aEnd, this`bEnd, this`bInuse, data
      ensures Ok()
      ensures |d| <= Unused(old(Cursors())) ==>
                && offered == |d| && Queue() == old(Queue()) + d
                && Cursors() == Grow(old(Cursors()), |d|) && Unused(Cursors()) >= Unused(old(Cursors())) - |d|
      ensures |d| > Unused(old(Cursors())) ==> offered == 0 && Cursors() == old(Cursors()) && Queue() == old(Queue())
    {
      if Unused(Cursors()) < |d| {
        return 0;
      }
      ghost var before := data[..];
      Fill(d);
      OfferKeeps(Cursors(), before, data[..], d);
      Bump(|d|);
      offered := |d|;
    }

    /** bipbuf_peek_all: all of region A. */
    method PeekAll() returns (at: int, n: nat)
      requires Ok()
      ensures at == NIL <==> Queue() == []
      ensures at != NIL ==> at == aStart && n == aEnd - aStart > 0 && data[at..at + n] == Queue()[..n]
    {
      if aStart == aEnd {
        return NIL, 0;
      }
      at, n := aStart, aEnd - aStart;
    }

    /** bipbuf_poll. */
    method Poll(n: nat) returns (at: int)
      requires Ok()
      modifies this`aStart, this`aEnd, this`bEnd, this`bInuse
      ensures at == if old(aStart == aEnd) || size < old(aStart) + n then NIL else old(aStart)
      ensures Cursors() == if at == NIL then old(Cursors()) else Drop(old(Cursors()), n)
      ensures Ok() <==> at == NIL || n <= old(aEnd - aStart)
      ensures at != NIL && n <= old(aEnd - aStart) ==>
                Queue() == old(Queue())[n..] && Unused(Cursors()) >= Unused(old(Cursors()))
    {
      if aStart == aEnd || size < aStart + n {
        return NIL;
      }
      DropKeepsIff(Cursors(), n);
      if n <= aEnd - aStart {
        DropKeeps(Cursors(), n, data[..]);
      }
      at := aStart;
      aStart := aStart + n;
      if aStart == aEnd {
        if bInuse {
          aStart, aEnd, bEnd, bInuse := 0, bEnd, 0, false;
        } else {
          aStart, aEnd := 0, 0;
        }
      }
      CheckForSwitchToB();
    }
  }
}
