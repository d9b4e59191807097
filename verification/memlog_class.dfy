/**
 memlog.c itself: the file-level variables as the fields of one object, each function as a
 method that updates them in place and is proved against its value-level specification in
 MemLog. Store.StepKeeps and Store.CleanKeeps say what these specifications preserve.
 */
module MemLogClass {
  import opened Layout
  import opened MemLog

  class LogMemory {
    var log: array<Cell>
    var current: nat
    var avail: nat
    var freeBeg: nat
    var freeing: nat
    var index: map<seq<Cell>, nat>

    ghost function View(): Mem
      reads this, log
    {
      Mem(log[..], current, avail, freeBeg, freeing, index)
    }

    /** memlog_init. */
    constructor (l: nat)
      ensures fresh(log) && View() == Mem(seq(l, _ => ZERO), 0, l, 0, 0, map[])
    {
      log := new Cell[l](_ => ZERO);
      current, avail, freeBeg, freeing, index := 0, l, 0, 0, map[];
    }

    /** memory_allocate. */
    method MemoryAllocate(size: nat) returns (r: Option<nat>)
      requires CanAllocate(View())
      modifies this, log
      ensures log == old(log)
      ensures (View(), r) == Allocate(old(View()), size)
    {
      if current + size > log.Length - MIN_ITEM {
        var p := current;
        log[p] := Head(ItemAt(p).(flags := ItemAt(p).flags.(dirty := true)));
        log[p] := Head(ItemAt(p).(flags := ItemAt(p).flags.(cycle := true)));
        log[p] := Head(ItemAt(p).(nkey := 1));
        log[p] := Head(ItemAt(p).(nbytes := CycleBytes(avail)));
        current := 0;
        avail := freeBeg;
        freeBeg := 0;
        log[p] := Head(ItemAt(p).(flags := ItemAt(p).flags.(dirty := false)));
        log[p] := Head(ItemAt(p).(flags := ItemAt(p).flags.(stored := true)));
        assert log[..] == WriteCycle(old(log[..]), p, CycleBytes(old(avail)));
      }
      if size > avail {
        return None;
      }
      r := Some(current);
      current := current + size;
      avail := avail - size;
    }

    function ItemAt(p: nat): Header
      requires p < log.Length
      reads this, log
    {
      if log[p].Head? then log[p].h else NO_HEADER
    }

    /** memlog_free_item. */
    method MemlogFreeItem() returns (n: nat)
      requires CanFree(View())
      modifies this, log
      ensures log == old(log)
      ensures (View(), n) == FreeItem(old(View()))
    {
      var it := ItemAt(freeing);
      n := NTotal(it);
      if it.flags.corrupted || it.flags.deleted {
      } else if it.flags.cycle {
        n := it.nbytes;
      } else {
        var key := KeyAt(log[..], freeing);
        if key in index && index[key] == freeing {
          index := index - {key};
        }
      }
      ClearCells(freeing, n);
      freeing := freeing + n;
    }

    /** memset to zero. */
    method ClearCells(p: nat, n: nat)
      requires p + n <= log.Length
      modifies log
      ensures log[..] == Zero(old(log[..]), p, n)
    {
      var i := p;
      while i < p + n
        invariant p <= i <= p + n
        invariant forall j :: 0 <= j < log.Length ==> log[j] == if p <= j < i then ZERO else old(log[j])
      {
        log[i] := ZERO;
        i := i + 1;
      }
    }

    /** memlog_free_chunk, run with no other thread between its turns. */
    method MemlogFreeChunk() returns (freed: nat)
      requires CanClean(View(), 0)
      modifies this, log
      ensures log == old(log)
      ensures (View(), freed) == FreeChunk(old(View()), 0)
    {
      freed := 0;
      var toFree := log.Length / 8;
      while freed < toFree
        invariant log == old(log)
        invariant CanClean(View(), freed) && FreeChunk(View(), freed) == FreeChunk(old(View()), 0)
        decreases log.Length - freeing
      {
        if freeing >= log.Length {
          return;
        }
        var n := MemlogFreeItem();
        freed := freed + n;
      }
    }

    /** do_memlog_clean. */
    method DoMemlogClean() returns (freed: nat)
      requires CanClean(View(), 0)
      modifies this, log
      ensures log == old(log)
      ensures freed == FreeChunk(old(View()), 0).1
      ensures View() == FinishClean(FreeChunk(old(View()), 0).0, freed)
    {
      freed := MemlogFreeChunk();
      if freed > 0 {
        if current <= freeing {
          avail := avail + freed;
        } else {
          freeBeg := freeBeg + freed;
        }
        if freeing >= log.Length {
          freeing := 0;
        }
      }
    }
  }
}
