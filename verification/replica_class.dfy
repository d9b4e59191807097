/**
 do_store_replication and the loop of backup_client_replication_handler in their own form:
 loops that update the slave's log, index and counters in place, proved against Replay and
 Rounds.
 */
module ReplicaClass {
  import opened Layout
  import opened MemLog
  import opened Replication

  class Replica {
    var log: array<Cell>
    var index: map<seq<Cell>, nat>
    var casId: nat
    var current: nat
    var avail: int
    var freeBeg: nat
    ghost var seen: nat
    ghost var lapped: bool

    ghost function View(offset: nat): Slave
      reads this, log
    {
      Slave(Data(log[..], index, casId), Position(offset, current, avail, freeBeg, seen, lapped))
    }

    /** do_item_link or item_replace on the copy in the slave's own log, with a CAS id of its own. */
    method LinkInPlace(p: nat, it: Header)
      requires p + MIN_ITEM <= log.Length && it == Item(log[..], p) && !it.flags.corrupted && !it.flags.deleted
      modifies `index, `casId, log
      ensures Data(log[..], index, casId) == Absorb(Data(old(log[..]), old(index), old(casId)), p)
    {
      index := index[KeyAt(log[..], p) := p];
      casId := casId + 1;
      if it.flags.cas {
        log[p + HEADER] := Cas(casId);
      }
      assert log[..] == SetCasId(old(log[..]), p, casId);
    }

    /** The body of the replay loop for a finished record of `ntotal` bytes. */
    method ApplyItem(it: Header, offset: nat, ntotal: nat)
      requires offset + MIN_ITEM <= log.Length && it == Item(log[..], offset) && ntotal == NTotal(it)
      modifies this, log
      ensures log == old(log)
      ensures View(offset + ntotal) == ApplyRecord(old(View(offset)))
    {
      if it.flags.corrupted {
      } else if it.flags.deleted {
        index := index - {KeyAt(log[..], offset)};
      } else {
        LinkInPlace(offset, it);
      }
      assert Data(log[..], index, casId) == Absorb(old(View(offset)).data, offset);
      current := current + ntotal;
      avail := avail - ntotal;
      seen := seen + 1;
    }

    /** At the cycle marker. */
    method Restart(ghost offset: nat)
      modifies `current, `avail, `freeBeg, `lapped
      ensures View(0) == StartOver(old(View(offset)))
    {
      current := 0;
      avail := freeBeg;
      freeBeg := 0;
      lapped := true;
    }

    /** One turn of the loop, and whether it goes on. */
    method ReplayOne(remaining: nat, offset: nat, ghost stop: nat)
      returns (remaining': nat, offset': nat, more: bool)
      requires MIN_ITEM <= remaining && offset + remaining == stop <= log.Length
      modifies this, log
      ensures log == old(log)
      ensures more ==> remaining' < remaining && offset' + remaining' == stop
      ensures more ==> Replay(View(offset'), stop) == Replay(old(View(offset)), stop)
      ensures !more ==> View(offset') == Replay(old(View(offset)), stop)
    {
      remaining', offset', more := remaining, offset, false;
      var it := Item(log[..], offset);
      var flags := it.flags;
      if flags.stored && !flags.dirty && !flags.cycle {
        var ntotal := NTotal(it);
        if ntotal > remaining {
          ReplayStops(View(offset), stop);
          return;
        }
        ReplayTakes(View(offset), stop);
        ApplyItem(it, offset, ntotal);
        remaining', offset', more := remaining - ntotal, offset + ntotal, true;
      } else {
        ReplayStops(View(offset), stop);
        if flags.stored && !flags.dirty && flags.cycle {
          Restart(offset);
          offset' := 0;
        }
      }
    }

    method DoStoreReplication(size: nat, replicationOffset: nat) returns (offset: nat)
      requires replicationOffset + size <= log.Length
      modifies this, log
      ensures log == old(log)
      ensures View(offset) == Replay(old(View(replicationOffset)), replicationOffset + size)
    {
      var remaining: nat := size;
      ghost var stop := replicationOffset + size;
      ghost var goal := Replay(View(replicationOffset), stop);
      offset := replicationOffset;
      while remaining >= MIN_ITEM
        invariant log == old(log) && offset + remaining == stop <= log.Length
        invariant Replay(View(offset), stop) == goal
      {
        var more;
        remaining, offset, more := ReplayOne(remaining, offset, stop);
        if !more {
          return;
        }
      }
      ReplayStops(View(offset), stop);
    }

    /** One round of the handler: size the chunk, read it, replay it. */
    method Round(m: seq<Cell>, replicationOffset: nat) returns (offset: nat)
      requires |m| == log.Length && replicationOffset <= log.Length
      modifies this, log
      ensures log == old(log) && offset <= log.Length
      ensures View(offset) == Pull(old(View(replicationOffset)), m, ChunkEnd(old(View(replicationOffset))))
    {
      var size := if REPLICATION_CHUNK < log.Length - replicationOffset then REPLICATION_CHUNK
                  else log.Length - replicationOffset;
      ghost var before := View(replicationOffset);
      ReadChunk(m, replicationOffset, size);
      assert View(replicationOffset) == Load(before, m, replicationOffset + size);
      ReplayOffset(View(replicationOffset), replicationOffset + size);
      offset := DoStoreReplication(size, replicationOffset);
    }

    /**
     The rounds of backup_client_replication_handler; `snapshots` are the master's logs as the
     RDMA reads see them.
     */
    method ReplicationHandler(snapshots: seq<seq<Cell>>) returns (offset: nat)
      requires forall i :: 0 <= i < |snapshots| ==> |snapshots[i]| == log.Length
      modifies this, log
      ensures log == old(log)
      ensures View(offset) == Rounds(old(View(0)), snapshots)
    {
      offset := 0;
      var round := 0;
      while round < |snapshots|
        invariant round <= |snapshots| && log == old(log) && offset <= log.Length
        invariant Rounds(View(offset), snapshots[round..]) == Rounds(old(View(0)), snapshots)
      {
        RoundsTakes(View(offset), snapshots[round..]);
        assert snapshots[round..][1..] == snapshots[round + 1..];
        offset := Round(snapshots[round], offset);
        round := round + 1;
      }
    }

    /** The RDMA read of one chunk into the slave's log. */
    method ReadChunk(m: seq<Cell>, offset: nat, size: nat)
      requires |m| == log.Length && offset + size <= log.Length
      modifies log
      ensures log[..] == Write(old(log[..]), offset, m[offset..offset + size])
    {
      forall i | offset <= i < offset + size {
        log[i] := m[i];
      }
    }
  }
}
