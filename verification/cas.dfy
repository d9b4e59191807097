/**
 Check-and-set (memcached.c, items.c): do_store_item under the item lock, so one step per
 command. Every link draws a new id from get_cas_id; a client reads an id with `gets` and
 offers it back with `cas`.
 */
module Cas {
  import Runs

  type Key = string

  /** An item that is linked: which allocation it is, its CAS id and its data without the final CRLF. */
  datatype Item = Item(uid: nat, cas: nat, value: string)

  datatype State = State(linked: map<Key, Item>, lastCas: nat, nextUid: nat)

  datatype Command = Set | Add | Replace | Append | Prepend | CheckAndSet

  datatype Stored = StoredOk | NotStored | Exists | NotFound

  /** get_cas_id and do_item_link, after do_item_unlink of what the key linked to. */
  function LinkNew(st: State, k: Key, value: string): State {
    State(st.linked[k := Item(st.nextUid, st.lastCas + 1, value)], st.lastCas + 1, st.nextUid + 1)
  }

  function Combined(comm: Command, before: string, value: string): string {
    match comm
    case Append => before + value
    case Prepend => value + before
    case _ => value
  }

  /**
   do_store_item; `req` is the id the client sent (0 for none), `granted` whether the record
   for an append could be allocated.
   */
  function Store(st: State, k: Key, comm: Command, req: nat, value: string, granted: bool): (State, Stored) {
    if k in st.linked && comm == Add then (st, NotStored)
    else if k !in st.linked && (comm == Replace || comm == Append || comm == Prepend) then (st, NotStored)
    else if comm == CheckAndSet then
      if k !in st.linked then (st, NotFound)
      else if req == st.linked[k].cas then (LinkNew(st, k, value), StoredOk)
      else (st, Exists)
    else if comm == Append || comm == Prepend then
      if req != 0 && req != st.linked[k].cas then (st, Exists)
      else if !granted then (st, NotStored)
      else (LinkNew(st, k, Combined(comm, st.linked[k].value, value)), StoredOk)
    else (LinkNew(st, k, value), StoredOk)
  }

  /** When each command may store, as the protocol has it. */
  predicate Allowed(st: State, k: Key, comm: Command, req: nat, granted: bool) {
    match comm
    case Set => true
    case Add => k !in st.linked
    case Replace => k in st.linked
    case Append => k in st.linked && req in {0, st.linked[k].cas} && granted
    case Prepend => k in st.linked && req in {0, st.linked[k].cas} && granted
    case CheckAndSet => k in st.linked && req == st.linked[k].cas
  }

  /** The answer and the new state of every command, from the protocol's point of view. */
  lemma StoreMeans(st: State, k: Key, comm: Command, req: nat, value: string, granted: bool)
    ensures var (st', r) := Store(st, k, comm, req, value, granted);
            && (r == StoredOk <==> Allowed(st, k, comm, req, granted))
            && (r == NotFound <==> comm == CheckAndSet && k !in st.linked)
            && (r == Exists <==>
                  && k in st.linked && req != st.linked[k].cas
                  && (comm == CheckAndSet || ((comm == Append || comm == Prepend) && req != 0)))
            && (r != StoredOk ==> st' == st)
            && (r == StoredOk ==>
                  && st'.linked.Keys == st.linked.Keys + {k}
                  && (forall x :: x in st.linked && x != k ==> st'.linked[x] == st.linked[x])
                  && st'.linked[k].value == Combined(comm, if k in st.linked then st.linked[k].value else [], value)
                  && st'.linked[k].cas > st.lastCas)
  {
  }

  datatype Step =
    | Storing(k: Key, comm: Command, req: nat, value: string, granted: bool)
    | Unlinking(k: Key)    // delete, or the cleaner, or replay of a tombstone
    | Reading(k: Key)      // get and gets
    | Drawing              // an id drawn for another purpose

  function Apply(st: State, step: Step): State {
    match step
    case Storing(k, comm, req, value, granted) => Store(st, k, comm, req, value, granted).0
    case Unlinking(k) => st.(linked := st.linked - {k})
    case Reading(k) => st
    case Drawing => st.(lastCas := st.lastCas + 1)
  }

  /** Ids and allocations are those drawn so far, and no two keys share one. */
  ghost predicate Inv(st: State) {
    && (forall k :: k in st.linked ==> 1 <= st.linked[k].cas <= st.lastCas && st.linked[k].uid < st.nextUid)
    && (forall k, x :: k in st.linked && x in st.linked && k != x ==>
          st.linked[k].cas != st.linked[x].cas && st.linked[k].uid != st.linked[x].uid)
  }

  ghost predicate Start(st: State) {
    st.linked == map[]
  }

  ghost predicate Next(st: State, step: Step, st': State) {
    st' == Apply(st, step)
  }

  lemma LinkNewKeeps(st: State, k: Key, value: string)
    requires Inv(st)
    ensures Inv(LinkNew(st, k, value))
  {
  }

  /** A command changes nothing, or it links one new item. */
  lemma StoreLinks(st: State, k: Key, comm: Command, req: nat, value: string, granted: bool) returns (v: string)
    ensures Store(st, k, comm, req, value, granted).0 in {st, LinkNew(st, k, v)}
  {
    v := Combined(comm, if k in st.linked then st.linked[k].value else [], value);
  }

  lemma StepKeeps(st: State, step: Step)
    requires Inv(st)
    ensures Inv(Apply(st, step))
  {
    if step.Storing? {
      var v := StoreLinks(st, step.k, step.comm, step.req, step.value, step.granted);
      LinkNewKeeps(st, step.k, v);
    }
  }

  lemma RunKeeps(states: seq<State>, steps: seq<Step>, n: nat)
    requires Runs.IsRun(Start, Next, states, steps) && n < |states|
    ensures Inv(states[n])
  {
    forall s, step, s' | Inv(s) && Next(s, step, s')
      ensures Inv(s')
    {
      StepKeeps(s, step);
    }
    Runs.Invariance(Start, Next, Inv, states, steps, n);
  }

  ghost predicate Same(st: State, k: Key, it: Item) {
    k in st.linked && st.linked[k] == it
  }

  /** Once the item is gone from its key, its id does not come back: whatever is linked there later has a larger one. */
  lemma {:induction false} GoneForGood(states: seq<State>, steps: seq<Step>, i: nat, j: nat, k: Key, it: Item)
    requires Runs.IsRun(Start, Next, states, steps) && i <= j < |states| && Same(states[i], k, it)
    ensures states[i].lastCas <= states[j].lastCas
    ensures (forall t {:trigger Same(states[t], k, it)} :: i <= t <= j ==> Same(states[t], k, it))
            || (k in states[j].linked ==> states[j].linked[k].cas > states[i].lastCas)
  {
    if i < j {
      GoneForGood(states, steps, i, j - 1, k, it);
      assert Next(states[j - 1], steps[j - 1], states[j - 1 + 1]);
      if k in states[j].linked && states[j].linked[k].cas <= states[i].lastCas {
        assert Same(states[j - 1], k, it);
        assert Same(states[j], k, it);
      }
    }
  }

  /**
   No lost update. A client reads the id of the item linked at `k` after step i, and its cas
   is step j. The cas is stored exactly when that very item has been linked at `k` all the
   while, so nothing the client did not see is overwritten.
   */
  lemma NoLostUpdate(states: seq<State>, steps: seq<Step>, i: nat, j: nat, k: Key, value: string, granted: bool)
    requires Runs.IsRun(Start, Next, states, steps) && i <= j < |steps| && k in states[i].linked
    requires steps[j] == Storing(k, CheckAndSet, states[i].linked[k].cas, value, granted)
    ensures Store(states[j], k, CheckAndSet, states[i].linked[k].cas, value, granted).1 == StoredOk
            <==> forall t {:trigger Same(states[t], k, states[i].linked[k])} :: i <= t <= j ==>
                Same(states[t], k, states[i].linked[k])
  {
    var it := states[i].linked[k];
    RunKeeps(states, steps, i);
    GoneForGood(states, steps, i, j, k, it);
    assert Same(states[j], k, it) ==> states[j].linked[k].cas == it.cas;
  }

  /** Of two clients that read the same id, at most one stores. */
  lemma AtMostOneWins(states: seq<State>, steps: seq<Step>, i: nat, j: nat, l: nat, k: Key, v: string, w: string,
                      g: bool, h: bool)
    requires Runs.IsRun(Start, Next, states, steps) && i <= j < l < |steps| && k in states[i].linked
    requires steps[j] == Storing(k, CheckAndSet, states[i].linked[k].cas, v, g)
    requires steps[l] == Storing(k, CheckAndSet, states[i].linked[k].cas, w, h)
    requires Store(states[j], k, CheckAndSet, states[i].linked[k].cas, v, g).1 == StoredOk
    ensures Store(states[l], k, CheckAndSet, states[i].linked[k].cas, w, h).1 != StoredOk
  {
    NoLostUpdate(states, steps, i, l, k, w, h);
    RunKeeps(states, steps, j);
    assert Next(states[j], steps[j], states[j + 1]);
    assert !Same(states[j + 1], k, states[i].linked[k]);
  }

  // ------------------------------------------------- in place

  class ItemStore {
    var linked: map<Key, Item>
    var casId: nat
    var nextUid: nat

    ghost function View(): State
      reads this
    {
      State(linked, casId, nextUid)
    }

    constructor ()
      ensures Start(View())
    {
      linked, casId, nextUid := map[], 0, 0;
    }

    /** get_cas_id. */
    method GetCasId() returns (id: nat)
      modifies this`casId
      ensures id == casId == old(casId) + 1
    {
      casId := casId + 1;
      id := casId;
    }

    /** do_item_link of an item just allocated, in the place of the one before. */
    method LinkItem(k: Key, value: string)
      modifies this
      ensures View() == LinkNew(old(View()), k, value)
    {
      var id := GetCasId();
      linked := linked[k := Item(nextUid, id, value)];
      nextUid := nextUid + 1;
    }

    /** do_store_item. */
    method DoStoreItem(k: Key, comm: Command, req: nat, value: string, granted: bool) returns (stored: Stored)
      modifies this
      ensures (View(), stored) == Store(old(View()), k, comm, req, value, granted)
    {
      var found := k in linked;
      stored := NotStored;
      if found && comm == Add {
      } else if !found && (comm == Replace || comm == Append || comm == Prepend) {
      } else if comm == CheckAndSet {
        if !found {
          stored := NotFound;
        } else if req == linked[k].cas {
          LinkItem(k, value);
          stored := StoredOk;
        } else {
          stored := Exists;
        }
      } else {
        var failed, data := false, value;
        if comm == Append || comm == Prepend {
          if req != 0 && req != linked[k].cas {
            stored := Exists;
          }
          if stored == NotStored {
            failed := !granted;
            data := Combined(comm, linked[k].value, value);
          }
        }
        if stored == NotStored && !failed {
          LinkItem(k, data);
          stored := StoredOk;
        }
      }
    }

    /** do_item_unlink of whatever the key links to. */
    method DoItemUnlink(k: Key)
      modifies this`linked
      ensures View() == Apply(old(View()), Unlinking(k))
    {
      linked := linked - {k};
    }

    /** gets. */
    method Gets(k: Key) returns (id: nat)
      requires Inv(View())
      ensures id != 0 <==> k in linked
      ensures k in linked ==> id == linked[k].cas
    {
      id := if k in linked then linked[k].cas else 0;
    }
  }
}
