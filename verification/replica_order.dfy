/**
 When the replica equals the master. A record takes its place in the log before its value has
 arrived, and it is linked afterwards; a tombstone is finished before its delete unlinks
 anything; and a set that gets no memory unlinks its key without any record. So the master
 changes its index in one order and the slave in another, or not at all. Each event
 of the master is classified, for a key, from what is known before it happens; the replica
 ends up with the master's index exactly when no event broke the agreement for good.
 */
module ReplicaOrder {
  import opened Layout
  import opened MemLog
  import opened Store
  import opened Replication
  import opened ReplicaRuns
  import Runs

  function Lookup(ix: map<seq<Cell>, nat>, k: seq<Cell>): Option<nat> {
    if k in ix then Some(ix[k]) else None
  }

  /** A record that has changed the master's index: a store that is linked, a tombstone whose delete has unlinked. */
  predicate Acted(xs: seq<Extent>, done: set<nat>, i: nat)
    requires i < |xs|
  {
    xs[i].kind == Linked || xs[i].kind == Committed || (xs[i].kind == Tombstone && i in done)
  }

  /** The last place before n, in log order, of a record of the key that has acted; -1 if there is none. */
  function LastActed(xs: seq<Extent>, done: set<nat>, k: seq<Cell>, n: nat): (i: int)
    requires n <= |xs|
    ensures -1 <= i < n
    ensures i >= 0 ==> xs[i].key == k && Acted(xs, done, i)
    ensures forall j :: i < j < n && xs[j].key == k ==> !Acted(xs, done, j)
  {
    if n == 0 then -1
    else if xs[n - 1].key == k && Acted(xs, done, n - 1) then n - 1
    else LastActed(xs, done, k, n - 1)
  }

  function WordOf(xs: seq<Extent>, i: int): Option<nat>
    requires -1 <= i < |xs|
  {
    if i < 0 || xs[i].kind == Tombstone then None else Some(xs[i].start)
  }

  /** What the log says of the key, as far as the master has acted on it. */
  function LogWord(xs: seq<Extent>, done: set<nat>, k: seq<Cell>): Option<nat> {
    WordOf(xs, LastActed(xs, done, k, |xs|))
  }

  /** The master's index has for the key what the log says of it. */
  predicate Agrees(r: Pair, k: seq<Cell>) {
    Lookup(r.master.m.index, k) == LogWord(Lap(r.master), r.done, k)
  }

  // ------------------------------------------------- the events, before they happen

  /** What an event does to the agreement on a key: nothing, restore it, or break it. */
  datatype Outcome = Neutral | Restores | Breaks

  /** Linking record i: in log order, unless a later record of the key has acted already. */
  function LinkOutcome(xs: seq<Extent>, done: set<nat>, i: nat, k: seq<Cell>): Outcome {
    if LastActed(xs, done, k, |xs|) > i then Breaks else Restores
  }

  /**
   The unlink of the delete whose tombstone is at i, when the index has `found` for the key. If
   it is the last to act on the key, it has to leave the key unlinked: by hitting its victim,
   or because there is nothing. If a later record has acted, it has to miss, unless that
   record is a tombstone too.
   */
  function DeleteOutcome(xs: seq<Extent>, done: set<nat>, found: Option<nat>, i: nat, victim: nat,
                         k: seq<Cell>): Outcome
  {
    var last := LastActed(xs, done, k, |xs|);
    if last <= i then if found.None? || found == Some(victim) then Restores else Breaks
    else if found != Some(victim) then Neutral
    else if xs[last].kind == Tombstone then Restores
    else Breaks
  }

  /** An unlink that leaves no record, when the index has `found` for the key and the log says `word`. */
  function ForgetOutcome(found: Option<nat>, word: Option<nat>): Outcome {
    if found.None? then Neutral else if word.None? then Restores else Breaks
  }

  ghost function OutcomeOf(r: Pair, ev: Event, k: seq<Cell>): Outcome
    requires EventEnabled(r, ev)
  {
    match ev
    case Write(step) =>
      if step.Update? && step.op.Link? && r.master.Part(step.prior)[step.i].key == k then
        LinkOutcome(Lap(r.master), r.done, step.i, k)
      else Neutral
    case Delete(i, victim) =>
      if Lap(r.master)[i].key == k then
        DeleteOutcome(Lap(r.master), r.done, Lookup(r.master.m.index, k), i, victim, k)
      else Neutral
    case Forget(gone) =>
      if gone == k then ForgetOutcome(Lookup(r.master.m.index, k), LogWord(Lap(r.master), r.done, k)) else Neutral
    case PullChunk(_) => Neutral
  }

  // ------------------------------------------------- how the log's word changes

  lemma {:induction false} LastActedSame(xs: seq<Extent>, ys: seq<Extent>, done: set<nat>, done': set<nat>,
                                         k: seq<Cell>, n: nat)
    requires n <= |xs| && n <= |ys|
    requires forall i :: 0 <= i < n ==>
               ys[i].key == xs[i].key && (xs[i].key == k ==> Acted(ys, done', i) == Acted(xs, done, i))
    ensures LastActed(ys, done', k, n) == LastActed(xs, done, k, n)
  {
    if n > 0 {
      LastActedSame(xs, ys, done, done', k, n - 1);
    }
  }

  lemma {:induction false} LastActedQuiet(xs: seq<Extent>, done: set<nat>, k: seq<Cell>, m: nat, n: nat)
    requires m <= n <= |xs| && forall i :: m <= i < n && xs[i].key == k ==> !Acted(xs, done, i)
    ensures LastActed(xs, done, k, n) == LastActed(xs, done, k, m)
  {
    if n > m {
      LastActedQuiet(xs, done, k, m, n - 1);
    }
  }

  /** Record i of the key acts: the last to act is now i, or still one behind it. */
  lemma LastActedActs(xs: seq<Extent>, ys: seq<Extent>, done: set<nat>, done': set<nat>, k: seq<Cell>, i: nat)
    requires |ys| == |xs| && i < |xs| && xs[i].key == k && !Acted(xs, done, i) && Acted(ys, done', i)
    requires forall j :: 0 <= j < |xs| ==>
               ys[j].key == xs[j].key && (j != i ==> Acted(ys, done', j) == Acted(xs, done, j))
    ensures var last := LastActed(xs, done, k, |xs|); LastActed(ys, done', k, |ys|) == if last > i then last else i
  {
    var last, now := LastActed(xs, done, k, |xs|), LastActed(ys, done', k, |ys|);
    if last > i {
      assert Acted(ys, done', last);
    }
    assert now >= i;
  }

  // ------------------------------------------------- the classification is right

  ghost predicate OutcomeHolds(r: Pair, r': Pair, k: seq<Cell>, o: Outcome) {
    match o
    case Neutral => Agrees(r', k) <==> Agrees(r, k)
    case Restores => Agrees(r', k)
    case Breaks => !Agrees(r', k)
  }

  lemma AllocOutcome(r: Pair, step: Step, k: seq<Cell>)
    requires PairInv(r) && step.Alloc? && EventEnabled(r, Write(step))
    ensures OutcomeHolds(r, ApplyEvent(r, Write(step)), k, Neutral)
  {
    var s, e := r.master, Wanted(step.key, step.cflags, step.nbytes);
    WantedIsWellSized(step.key, step.cflags, step.nbytes);
    AllocShape(s, e);
    var s' := ApplyAlloc(s, e);
    LastActedSame(Lap(s), Lap(s'), r.done, r.done, k, |Lap(s)|);
    LastActedQuiet(Lap(s'), r.done, k, |Lap(s)|, |Lap(s')|);
  }

  lemma LinkDecides(xs: seq<Extent>, done: set<nat>, i: nat, kind: Kind, k: seq<Cell>)
    requires i < |xs| && xs[i].key == k && xs[i].kind == Pending && kind == Linked
    requires forall p, q :: 0 <= p < q < |xs| ==> xs[p].start != xs[q].start
    ensures var word := LogWord(xs[i := xs[i].(kind := kind)], done, k);
            && (LinkOutcome(xs, done, i, k) == Restores <==> Some(xs[i].start) == word)
            && LinkOutcome(xs, done, i, k) != Neutral
  {
    LastActedActs(xs, xs[i := xs[i].(kind := kind)], done, done, k, i);
  }

  lemma DeleteDecides(xs: seq<Extent>, done: set<nat>, found: Option<nat>, i: nat, victim: nat, k: seq<Cell>)
    requires i < |xs| && xs[i].key == k && xs[i].kind == Tombstone && i !in done
    ensures var left := if found == Some(victim) then None else found;
            var word := LogWord(xs, done + {i}, k);
            match DeleteOutcome(xs, done, found, i, victim, k)
            case Neutral => left == found && word == LogWord(xs, done, k)
            case Restores => left == word
            case Breaks => left != word
  {
    LastActedActs(xs, xs, done, done + {i}, k, i);
  }

  /** The index after a write to a record: changed by a link only. */
  lemma UpdateIndexOnly(s: State, prior: bool, i: nat, op: Op, k: seq<Cell>)
    requires i < |s.Part(prior)| && RecordOk(s.m.log, s.Part(prior)[i]) && OpEnabled(s.Part(prior)[i], op)
    ensures var e := s.Part(prior)[i];
            Lookup(ApplyUpdate(s, prior, i, op).m.index, k)
            == if op.Link? && e.key == k then Some(e.start) else Lookup(s.m.index, k)
  {
  }

  lemma LinkHolds(r: Pair, prior: bool, i: nat, op: Op)
    requires PairInv(r) && EventEnabled(r, Write(Update(prior, i, op))) && op.Link?
    ensures i < |Lap(r.master)|
    ensures var k := Lap(r.master)[i].key;
            OutcomeHolds(r, ApplyEvent(r, Write(Update(prior, i, op))), k, LinkOutcome(Lap(r.master), r.done, i, k))
  {
    var s := r.master;
    UpdateShape(s, prior, i, op);
    var xs := Lap(s);
    UpdateIndexOnly(s, prior, i, op, xs[i].key);
    TilesOrdered(xs, 0, LapEnd(s));
    LinkDecides(xs, r.done, i, Linked, xs[i].key);
  }

  /** A record that does not act, or is of another key, leaves the log's word as it was. */
  lemma QuietKind(xs: seq<Extent>, done: set<nat>, i: nat, kind: Kind, k: seq<Cell>)
    requires i < |xs|
    requires xs[i].key == k ==> Acted(xs[i := xs[i].(kind := kind)], done, i) == Acted(xs, done, i)
    requires xs[i].kind != Tombstone && (xs[i].key == k && Acted(xs, done, i) ==> kind != Tombstone)
    ensures LogWord(xs[i := xs[i].(kind := kind)], done, k) == LogWord(xs, done, k)
  {
    LastActedSame(xs, xs[i := xs[i].(kind := kind)], done, done, k, |xs|);
  }

  lemma UpdateOutcome(r: Pair, prior: bool, i: nat, op: Op, k: seq<Cell>)
    requires PairInv(r) && EventEnabled(r, Write(Update(prior, i, op)))
    ensures OutcomeHolds(r, ApplyEvent(r, Write(Update(prior, i, op))), k, OutcomeOf(r, Write(Update(prior, i, op)), k))
  {
    var s := r.master;
    UpdateShape(s, prior, i, op);
    if op.Link? && Lap(s)[i].key == k {
      LinkHolds(r, prior, i, op);
    } else {
      UpdateIndexOnly(s, prior, i, op, k);
      QuietKind(Lap(s), r.done, i, OpKind(Lap(s)[i], op), k);
    }
  }

  /** The index after an unlink. */
  lemma UnlinkedIndex(s: State, key: seq<Cell>, victim: nat, k: seq<Cell>)
    ensures var s' := Unlinked(s, key, victim);
            && Lap(s') == Lap(s)
            && Lookup(s'.m.index, k) ==
               if k == key && Lookup(s.m.index, k) == Some(victim) then None else Lookup(s.m.index, k)
  {
  }

  lemma DeleteOutcomeHolds(r: Pair, i: nat, victim: nat, k: seq<Cell>)
    requires EventEnabled(r, Delete(i, victim))
    ensures OutcomeHolds(r, ApplyEvent(r, Delete(i, victim)), k, OutcomeOf(r, Delete(i, victim), k))
  {
    var xs := Lap(r.master);
    UnlinkedIndex(r.master, xs[i].key, victim, k);
    if xs[i].key == k {
      DeleteDecides(xs, r.done, Lookup(r.master.m.index, k), i, victim, k);
    } else {
      LastActedSame(xs, xs, r.done, r.done + {i}, k, |xs|);
    }
  }

  lemma ForgetOutcomeHolds(r: Pair, gone: seq<Cell>, k: seq<Cell>)
    ensures OutcomeHolds(r, ApplyEvent(r, Forget(gone)), k, OutcomeOf(r, Forget(gone), k))
  {
    var r' := ApplyEvent(r, Forget(gone));
    assert Lap(r'.master) == Lap(r.master);
    assert Lookup(r'.master.m.index, k) == if k == gone then None else Lookup(r.master.m.index, k);
  }

  lemma EventOutcome(r: Pair, ev: Event, k: seq<Cell>)
    requires PairInv(r) && EventEnabled(r, ev)
    ensures OutcomeHolds(r, ApplyEvent(r, ev), k, OutcomeOf(r, ev, k))
  {
    match ev
    case Write(step) =>
      if step.Alloc? {
        AllocOutcome(r, step, k);
      } else {
        UpdateOutcome(r, step.prior, step.i, step.op, k);
      }
    case Delete(i, victim) => DeleteOutcomeHolds(r, i, victim, k);
    case Forget(gone) => ForgetOutcomeHolds(r, gone, k);
    case PullChunk(_) =>
  }

  // ------------------------------------------------- every run

  /** Some outcome broke the agreement, and none after it restored it. */
  predicate Broken(os: seq<Outcome>) {
    exists t :: 0 <= t < |os| && os[t] == Breaks && forall u :: t < u < |os| ==> os[u] != Restores
  }

  lemma BrokenSnoc(os: seq<Outcome>, o: Outcome)
    ensures Broken(os + [o]) <==> (match o case Neutral => Broken(os) case Restores => false case Breaks => true)
  {
    var os' := os + [o];
    assert os'[|os|] == o;
    if Broken(os) {
      var t :| 0 <= t < |os| && os[t] == Breaks && forall u :: t < u < |os| ==> os[u] != Restores;
      assert os'[t] == Breaks;
    }
    if Broken(os') && o == Neutral {
      var t :| 0 <= t < |os'| && os'[t] == Breaks && forall u :: t < u < |os'| ==> os'[u] != Restores;
      assert os[t] == Breaks && forall u :: t < u < |os| ==> os[u] == os'[u];
    }
  }

  /** What the events of a run before n do to the agreement on a key, one after the other. */
  ghost function Outcomes(states: seq<Pair>, events: seq<Event>, n: nat, k: seq<Cell>): (os: seq<Outcome>)
    requires n <= |events| <= |states| && forall t :: 0 <= t < n ==> EventEnabled(states[t], events[t])
    ensures |os| == n && forall t :: 0 <= t < n ==> os[t] == OutcomeOf(states[t], events[t], k)
  {
    if n == 0 then [] else Outcomes(states, events, n - 1, k) + [OutcomeOf(states[n - 1], events[n - 1], k)]
  }

  lemma RunEnabled(states: seq<Pair>, events: seq<Event>, n: nat)
    requires Runs.IsRun(StartPair, NextPair, states, events) && n <= |events|
    ensures forall t :: 0 <= t < n ==> EventEnabled(states[t], events[t])
  {
    forall t | 0 <= t < n
      ensures EventEnabled(states[t], events[t])
    {
      assert NextPair(states[t], events[t], states[t + 1]);
    }
  }

  /** In every run the master's index agrees with the log on a key exactly when no event broke that for good. */
  lemma {:induction false} AgreesIff(states: seq<Pair>, events: seq<Event>, n: nat, k: seq<Cell>)
    requires Runs.IsRun(StartPair, NextPair, states, events) && n < |states|
    ensures forall t :: 0 <= t < n ==> EventEnabled(states[t], events[t])
    ensures Agrees(states[n], k) <==> !Broken(Outcomes(states, events, n, k))
  {
    RunEnabled(states, events, n);
    if n > 0 {
      AgreesIff(states, events, n - 1, k);
      PairRunKeeps(states, events, n - 1);
      assert NextPair(states[n - 1], events[n - 1], states[n - 1 + 1]);
      EventOutcome(states[n - 1], events[n - 1], k);
      BrokenSnoc(Outcomes(states, events, n - 1, k), OutcomeOf(states[n - 1], events[n - 1], k));
    }
  }

  // ------------------------------------------------- what the slave has

  /** Every tombstone of the lap has been followed by its unlink. */
  ghost predicate NothingPending(r: Pair) {
    forall i :: 0 <= i < |Lap(r.master)| && Lap(r.master)[i].kind == Tombstone ==> i in r.done
  }

  /** Words that follow the records one by one end with the word of the last that has acted. */
  lemma {:induction false} WordsFollow(xs: seq<Extent>, done: set<nat>, k: seq<Cell>, n: nat, words: seq<Option<nat>>)
    requires n <= |xs| && |words| > n && words[0] == None
    requires forall i :: 0 <= i < n ==> Finished(xs[i].kind) && (xs[i].kind == Tombstone ==> i in done)
    requires forall i :: 0 <= i < n ==>
               words[i + 1] == if xs[i].key == k && xs[i].kind != Corrupt then WordOf(xs, i) else words[i]
    ensures words[n] == WordOf(xs, LastActed(xs, done, k, n))
  {
    if n > 0 {
      WordsFollow(xs, done, k, n - 1, words);
      assert words[n - 1 + 1] == words[n];
    }
  }

  /** The fold of finished records is what the log says of each key, when every one of them has acted. */
  lemma FoldIsLogWord(xs: seq<Extent>, done: set<nat>, k: seq<Cell>, n: nat)
    requires n <= |xs| && forall i :: 0 <= i < n ==> Finished(xs[i].kind) && (xs[i].kind == Tombstone ==> i in done)
    ensures Lookup(Fold(Effects(xs[..n])), k) == WordOf(xs, LastActed(xs, done, k, n))
  {
    var words := seq(n + 1, i requires 0 <= i <= n => Lookup(Fold(Effects(xs[..i])), k));
    NoEffects(xs);
    forall i | 0 <= i < n
      ensures words[i + 1] == if xs[i].key == k && xs[i].kind != Corrupt then WordOf(xs, i) else words[i]
    {
      FoldGrows(xs, i, k);
    }
    WordsFollow(xs, done, k, n, words);
  }

  lemma FoldGrows(xs: seq<Extent>, n: nat, k: seq<Cell>)
    requires n < |xs| && Finished(xs[n].kind)
    ensures Lookup(Fold(Effects(xs[..n + 1])), k) ==
            if xs[n].key == k && xs[n].kind != Corrupt then WordOf(xs, n) else Lookup(Fold(Effects(xs[..n])), k)
  {
    EffectsSnoc(xs, n);
    EffectLookup(Effects(xs[..n]), xs[n], k);
  }

  lemma EffectLookup(es: seq<Effect>, e: Extent, k: seq<Cell>)
    requires Finished(e.kind)
    ensures Lookup(Fold(es + EffectOf(e)), k) ==
            if e.key != k || e.kind == Corrupt then Lookup(Fold(es), k)
            else if e.kind == Committed then Some(e.start)
            else None
  {
    FoldEffect(es, e);
  }

  /** A slave that has caught up has for each key what the log says of it. */
  lemma CaughtUpWord(r: Pair, k: seq<Cell>)
    requires PairInv(r) && CaughtUp(r) && NothingPending(r)
    ensures Lookup(r.slave.data.index, k) == LogWord(Lap(r.master), r.done, k)
  {
    var xs, n := Lap(r.master), r.slave.at.seen;
    forall i | 0 <= i < n
      ensures Finished(xs[i].kind)
    {
      assert Mirrors(r.master.m.log, r.slave.Log(), xs[i]);
    }
    FoldIsLogWord(xs, r.done, k, n);
    if n < |xs| {
      assert xs[n].kind == Cycle;
      LastActedQuiet(xs, r.done, k, n, |xs|);
    }
  }

  predicate SameLookup(a: map<seq<Cell>, nat>, b: map<seq<Cell>, nat>, k: seq<Cell>) {
    Lookup(a, k) == Lookup(b, k)
  }

  lemma SameLookups(a: map<seq<Cell>, nat>, b: map<seq<Cell>, nat>)
    ensures a == b <==> forall k :: SameLookup(a, b, k)
  {
    if forall k :: SameLookup(a, b, k) {
      forall k
        ensures k in a <==> k in b
        ensures k in a ==> a[k] == b[k]
      {
        assert SameLookup(a, b, k);
      }
      assert a == b;
    }
  }

  /** Some event before n broke the agreement on the key, and none restored it. */
  ghost predicate BrokenFor(states: seq<Pair>, events: seq<Event>, n: nat, k: seq<Cell>)
    requires n <= |events| <= |states| && forall t :: 0 <= t < n ==> EventEnabled(states[t], events[t])
  {
    Broken(Outcomes(states, events, n, k))
  }

  lemma KeyEqualsMasterIff(states: seq<Pair>, events: seq<Event>, n: nat, k: seq<Cell>)
    requires Runs.IsRun(StartPair, NextPair, states, events) && n < |states|
    requires CaughtUp(states[n]) && NothingPending(states[n])
    ensures forall t :: 0 <= t < n ==> EventEnabled(states[t], events[t])
    ensures SameLookup(states[n].slave.data.index, states[n].master.m.index, k) <==> !BrokenFor(states, events, n, k)
  {
    PairRunKeeps(states, events, n);
    CaughtUpWord(states[n], k);
    AgreesIff(states, events, n, k);
  }

  /**
   In every run within one lap: once the slave has applied the lap and every delete has gone
   on to its unlink, slave and master have the same index exactly when for no key an event
   broke the agreement for good.
   */
  lemma ReplicaEqualsMasterIff(states: seq<Pair>, events: seq<Event>, n: nat)
    requires Runs.IsRun(StartPair, NextPair, states, events) && n < |states|
    requires CaughtUp(states[n]) && NothingPending(states[n])
    ensures forall t :: 0 <= t < n ==> EventEnabled(states[t], events[t])
    ensures states[n].slave.data.index == states[n].master.m.index <==> forall k :: !BrokenFor(states, events, n, k)
  {
    RunEnabled(states, events, n);
    forall k
      ensures SameLookup(states[n].slave.data.index, states[n].master.m.index, k) <==> !BrokenFor(states, events, n, k)
    {
      KeyEqualsMasterIff(states, events, n, k);
    }
    SameLookups(states[n].slave.data.index, states[n].master.m.index);
  }

  // ------------------------------------------------- events in log order

  /** The event happens in log order: it breaks the agreement on no key. */
  ghost predicate InOrder(r: Pair, ev: Event) {
    EventEnabled(r, ev) && forall k :: OutcomeOf(r, ev, k) != Breaks
  }

  /** No record of the key behind the i-th has acted on the index. */
  ghost predicate NoneActsAfter(xs: seq<Extent>, done: set<nat>, i: nat, key: seq<Cell>) {
    forall j :: i < j < |xs| && xs[j].key == key ==> !Acted(xs, done, j)
  }

  /**
   A link behind which no record of its key has acted, a delete that is the last to act and
   hits its victim, and an unlink without a record of a key that is not linked, or that the log
   says is not there, are in order.
   */
  lemma LogOrderIsInOrder(r: Pair, ev: Event)
    requires PairInv(r) && EventEnabled(r, ev)
    requires ev.Write? && ev.step.Update? && ev.step.op.Link? ==>
               NoneActsAfter(Lap(r.master), r.done, ev.step.i, r.master.Part(ev.step.prior)[ev.step.i].key)
    requires ev.Delete? ==>
               && Lookup(r.master.m.index, Lap(r.master)[ev.i].key) == Some(ev.victim)
               && NoneActsAfter(Lap(r.master), r.done, ev.i, Lap(r.master)[ev.i].key)
    requires ev.Forget? ==> Lookup(r.master.m.index, ev.gone).None? || LogWord(Lap(r.master), r.done, ev.gone).None?
    ensures InOrder(r, ev)
  {
  }

  /** With every event in log order the master's index is always what the log says. */
  lemma {:induction false} InOrderAgrees(states: seq<Pair>, events: seq<Event>, n: nat, k: seq<Cell>)
    requires Runs.IsRun(StartPair, NextPair, states, events) && n < |states|
    requires forall t :: 0 <= t < n ==> InOrder(states[t], events[t])
    ensures Agrees(states[n], k)
  {
    AgreesIff(states, events, n, k);
  }

  /**
   If the events happen in log order, nothing is dirty and no delete is pending, then one
   pull of the rest of the log gives the slave the master's index.
   */
  lemma InOrderReplicaEqualsMaster(states: seq<Pair>, events: seq<Event>, n: nat)
    requires Runs.IsRun(StartPair, NextPair, states, events) && n < |states|
    requires forall t :: 0 <= t < n ==> InOrder(states[t], events[t])
    requires !states[n].slave.at.lapped && NothingDirty(states[n].master) && NothingPending(states[n])
    ensures var r := states[n];
            && r.slave.Offset() <= r.master.L() == |r.slave.Log()|
            && PullAll(r.slave, r.master.m.log).data.index == r.master.m.index
  {
    var r := states[n];
    PairRunKeeps(states, events, n);
    PullCatchesUp(r);
    var r' := ApplyEvent(r, PullChunk(r.master.L()));
    EventKeeps(r, PullChunk(r.master.L()));
    forall k
      ensures SameLookup(r'.slave.data.index, r.master.m.index, k)
    {
      CaughtUpWord(r', k);
      InOrderAgrees(states, events, n, k);
    }
    SameLookups(r'.slave.data.index, r.master.m.index);
  }
}
