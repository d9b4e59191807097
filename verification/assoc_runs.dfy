/**
 The hash table under its striped locks. The maintenance thread moves the cells of one old
 bucket one by one while it holds a single lock of the lock table; workers that hold other
 locks insert and delete in between. In every state of every such run the table stands for
 a finite map.
 */
module AssocRuns {
  import opened Assoc
  import opened Common
  import Runs

  // ------------------------------------------------- lock stripes

  lemma {:induction false} LowOfLow(h: nat, n: nat, k: nat)
    requires k <= n
    ensures Low(Low(h, n), k) == Low(h, k)
  {
    if k > 0 {
      var x := Low(h, n);
      assert x % 2 == h % 2 && x / 2 == Low(h / 2, n - 1);
      LowOfLow(h / 2, n - 1, k - 1);
    }
  }

  lemma {:induction false} LowOfSum(b: nat, n: nat, k: nat)
    requires k <= n
    ensures Low(b + Pow2(n), k) == Low(b, k)
  {
    if k > 0 {
      var x := b + Pow2(n);
      assert x % 2 == b % 2 && x / 2 == b / 2 + Pow2(n - 1);
      LowOfSum(b / 2, n - 1, k - 1);
    }
  }

  lemma StripeOfBucket(h: nat, b: nat, n: nat, lp: nat)
    requires lp < n
    requires Low(h, n - 1) == b || Low(h, n) == b || Low(h, n) == b + Pow2(n - 1)
    ensures Low(h, lp) == Low(b, lp)
  {
    if Low(h, n - 1) == b {
      LowOfLow(h, n - 1, lp);
    } else {
      LowOfLow(h, n, lp);
      LowOfSum(b, n - 1, lp);
    }
  }

  /** The buckets that a migration of the old bucket `eb` reads or writes. */
  predicate InMigration(ph: Phase, s: Slot)
    requires ph.hp >= 1
  {
    s == Old(ph.eb) || s == Prim(ph.eb) || s == Prim(ph.eb + Pow2(ph.hp - 1))
  }

  /**
   The lock of stripe `Low(h, lp)` that a migration takes is the lock of every hash value
   that is at home in one of its three buckets, now or when expand_bucket has moved on. A
   hash value under any other lock is at home elsewhere and stays there.
   */
  lemma OneStripe(ph: Phase, lp: nat, h: nat)
    requires ph.expanding && lp < ph.hp && ph.eb < Pow2(ph.hp - 1)
    ensures InMigration(ph, Home(ph, h)) || InMigration(ph, Home(NextPhase(ph), h)) ==> Low(h, lp) == Low(ph.eb, lp)
    ensures Low(h, lp) != Low(ph.eb, lp) ==> Home(NextPhase(ph), h) == Home(ph, h)
  {
    HomeMoves(ph, h);
    if InMigration(ph, Home(ph, h)) || InMigration(ph, Home(NextPhase(ph), h)) {
      BucketsOfMigration(ph, h);
      StripeOfBucket(h, ph.eb, ph.hp, lp);
    }
  }

  lemma BucketsOfMigration(ph: Phase, h: nat)
    requires ph.expanding && 1 <= ph.hp && ph.eb < Pow2(ph.hp - 1)
    requires InMigration(ph, Home(ph, h)) || InMigration(ph, Home(NextPhase(ph), h))
    ensures Low(h, ph.hp - 1) == ph.eb || Low(h, ph.hp) == ph.eb || Low(h, ph.hp) == ph.eb + Pow2(ph.hp - 1)
  {
  }

  /** A cell of the bucket moves to one of the migration's two new buckets. */
  lemma DestinationInMigration(ph: Phase, h: nat)
    requires ph.expanding && ph.hp >= 1 && Home(ph, h) == Old(ph.eb)
    ensures InMigration(ph, Prim(Low(h, ph.hp)))
  {
    LowDoubles(h, ph.hp - 1);
  }

  /** Every cell on a chain that a migration touches, and every cell it moves, is guarded by the one lock. */
  lemma OneLockCoversMigration<K(!new)>(t: Table, keyOf: seq<K>, hash: K -> nat, ch: Chains, m: map<K, nat>, it: int,
                                        rest: seq<nat>, lp: nat, n: nat)
    requires Migrating(t, keyOf, hash, ch, m, it, rest) && lp < t.ph.hp
    requires n in rest || exists s :: s in ch && InMigration(t.ph, s) && n in ch[s]
    ensures n < |keyOf| && Low(hash(keyOf[n]), lp) == Low(t.ph.eb, lp)
  {
    if n in rest {
      var i :| 0 <= i < |rest| && rest[i] == n;
      assert OnChain(t.ph, keyOf, hash, m, Old(t.ph.eb), rest[i]);
    } else {
      var s :| s in ch && InMigration(t.ph, s) && n in ch[s];
      var i :| 0 <= i < |ch[s]| && ch[s][i] == n;
      assert OnChain(NextPhase(t.ph), keyOf, hash, m - KeySet(keyOf, rest), s, ch[s][i]);
    }
    OneStripe(t.ph, lp, hash(keyOf[n]));
  }

  // ------------------------------------------------- the state and its steps

  /** Where the maintenance thread is: between buckets, or holding the cell `it` of the bucket it moves. */
  datatype Mover = Idle | Moving(it: int)

  /**
   The table, the keys of the cells and the mover; then the chains, the cells in the mover's
   hand and the map, which only the proof reads.
   */
  datatype State<K> = State(t: Table, keyOf: seq<K>, mover: Mover, ch: Chains, rest: seq<nat>, m: map<K, nat>)

  datatype Step<K> =
    | Insert(n: nat, k: K)       // assoc_insert of a cell that carries a new key
    | Delete(k: K, i: nat)       // assoc_delete, the key being at place i of its chain
    | Grow(granted: bool)        // assoc_expand while the workers are paused
    | Take                       // item_trylock(expand_bucket) succeeds
    | Move                       // one turn of the migration loop
    | Finish                     // the bucket is cleared and expand_bucket moves on

  /** The caller holds the lock of the key's stripe, so the maintenance thread does not. */
  predicate Unlocked<K>(st: State<K>, hash: K -> nat, lp: nat, k: K) {
    st.mover.Moving? ==> Low(hash(k), lp) != Low(st.t.ph.eb, lp)
  }

  ghost predicate Inv<K(!new)>(st: State<K>, hash: K -> nat, lp: nat) {
    && lp < st.t.ph.hp
    && match st.mover
       case Idle => st.rest == [] && Valid(st.t, st.keyOf, hash, st.ch, st.m)
       case Moving(it) => Migrating(st.t, st.keyOf, hash, st.ch, st.m, it, st.rest)
  }

  ghost predicate Enabled<K(!new)>(st: State<K>, hash: K -> nat, lp: nat, step: Step<K>) {
    match step
    case Insert(n, k) => n < |st.keyOf| && k !in st.m && Spare(st.m, n) && Unlocked(st, hash, lp, k)
    case Delete(k, i) =>
      var s := Home(st.t.ph, hash(k));
      k in st.m && Unlocked(st, hash, lp, k) && s in st.ch && i < |st.ch[s]| && st.ch[s][i] == st.m[k]
    case Grow(_) => st.mover.Idle? && !st.t.ph.expanding
    case Take => st.mover.Idle? && st.t.ph.expanding
    case Move => st.mover.Moving? && st.mover.it != NIL
    case Finish => st.mover.Moving? && st.mover.it == NIL
  }

  // ------------------------------------------------- steps between buckets

  /** No key maps to the cell: it was handed out and is not linked. */
  ghost predicate Spare<K(!new)>(m: map<K, nat>, n: nat) {
    forall k :: k in m ==> m[k] != n
  }

  lemma RelabelContents<K(!new)>(ph: Phase, keyOf: seq<K>, hash: K -> nat, ch: Chains, m: map<K, nat>, n: nat, k: K)
    requires Contents(ph, keyOf, hash, ch, m) && n < |keyOf| && Spare(m, n)
    ensures Contents(ph, keyOf[n := k], hash, ch, m)
  {
    var keyOf' := keyOf[n := k];
    forall s, i {:trigger ch[s][i]} | s in ch && 0 <= i < |ch[s]|
      ensures OnChain(ph, keyOf', hash, m, s, ch[s][i])
    {
      assert OnChain(ph, keyOf, hash, m, s, ch[s][i]);
    }
    forall k' | k' in m
      ensures Mapped(ph, keyOf', hash, ch, k', m[k'])
    {
      assert Mapped(ph, keyOf, hash, ch, k', m[k']);
    }
  }

  // ------------------------------------------------- steps of other stripes during a migration

  lemma RelabelInHand<K(!new)>(ph: Phase, keyOf: seq<K>, hash: K -> nat, m: map<K, nat>, rest: seq<nat>, n: nat, k: K)
    requires InHand(ph, keyOf, hash, m, rest) && n < |keyOf| && Spare(m, n) && k !in m
    ensures n !in rest && k !in KeySet(keyOf, rest)
    ensures m[k := n] - KeySet(keyOf[n := k], rest) == (m - KeySet(keyOf, rest))[k := n]
    ensures InHand(ph, keyOf[n := k], hash, m[k := n], rest)
  {
    forall i | 0 <= i < |rest|
      ensures rest[i] != n && OnChain(ph, keyOf[n := k], hash, m[k := n], Old(ph.eb), rest[i])
    {
      assert OnChain(ph, keyOf, hash, m, Old(ph.eb), rest[i]);
    }
    assert KeySet(keyOf[n := k], rest) == KeySet(keyOf, rest);
  }

  lemma InsertMeanwhile<K(!new)>(t: Table, keyOf: seq<K>, hash: K -> nat, ch: Chains, m: map<K, nat>, it: int,
                                 rest: seq<nat>, lp: nat, n: nat, k: K)
    requires Migrating(t, keyOf, hash, ch, m, it, rest) && lp < t.ph.hp
    requires n < |keyOf| && Spare(m, n) && k !in m && Low(hash(k), lp) != Low(t.ph.eb, lp)
    ensures var s := Home(t.ph, hash(k));
            IsSlot(t, s) && s in ch
            && Migrating(InsertInto(t, s, n), keyOf[n := k], hash, ch[s := [n] + ch[s]], m[k := n], it, rest)
  {
    HomeElsewhere(t, ch, hash(k), lp);
    InsertThere(t, keyOf, hash, ch, m, it, rest, Home(t.ph, hash(k)), n, k);
  }

  lemma InsertThere<K(!new)>(t: Table, keyOf: seq<K>, hash: K -> nat, ch: Chains, m: map<K, nat>, it: int,
                             rest: seq<nat>, s: Slot, n: nat, k: K)
    requires Migrating(t, keyOf, hash, ch, m, it, rest)
    requires n < |keyOf| && Spare(m, n) && k !in m && s in ch && IsSlot(t, s) && s == Home(NextPhase(t.ph), hash(k))
    ensures Migrating(InsertInto(t, s, n), keyOf[n := k], hash, ch[s := [n] + ch[s]], m[k := n], it, rest)
  {
    RelabelInHand(t.ph, keyOf, hash, m, rest, n, k);
    assert Spare(m - KeySet(keyOf, rest), n);
    InsertAround(t, keyOf, hash, ch, m - KeySet(keyOf, rest), s, n, k);
    InsertFrame(t, ch, s, n, it, rest);
  }

  /** What an insertion leaves alone. */
  lemma InsertFrame(t: Table, ch: Chains, s: Slot, n: nat, it: int, rest: seq<nat>)
    requires Shape(t) && t.ph.expanding && CoversOthers(t, ch) && s in ch && n < |t.next| && n !in rest
             && IsChain(t.next, it, rest)
    ensures IsSlot(t, s)
    ensures var t' := InsertInto(t, s, n);
            && t'.ph == t.ph && |t'.next| == |t.next| && t'.items == t.items + 1
            && Shape(t') && CoversOthers(t', ch[s := [n] + ch[s]]) && IsChain(t'.next, it, rest)
  {
    ChainFrame(t.next, InsertInto(t, s, n).next, it, rest);
  }

  lemma HomeElsewhere(t: Table, ch: Chains, h: nat, lp: nat)
    requires Shape(t) && t.ph.expanding && CoversOthers(t, ch) && lp < t.ph.hp && Low(h, lp) != Low(t.ph.eb, lp)
    ensures Home(t.ph, h) in ch && IsSlot(t, Home(t.ph, h)) && Home(NextPhase(t.ph), h) == Home(t.ph, h)
  {
    HomeIsSlot(t, h);
    OneStripe(t.ph, lp, h);
  }

  lemma InsertAround<K(!new)>(t: Table, keyOf: seq<K>, hash: K -> nat, ch: Chains, done: map<K, nat>, s: Slot, n: nat,
                              k: K)
    requires t.ph.hp >= 1 && Linked(t, ch) && Contents(NextPhase(t.ph), keyOf, hash, ch, done) && |keyOf| == |t.next|
    requires n < |keyOf| && Spare(done, n) && k !in done && s in ch && s == Home(NextPhase(t.ph), hash(k))
    ensures IsSlot(t, s) && Linked(InsertInto(t, s, n), ch[s := [n] + ch[s]])
    ensures Contents(NextPhase(t.ph), keyOf[n := k], hash, ch[s := [n] + ch[s]], done[k := n])
  {
    RelabelContents(NextPhase(t.ph), keyOf, hash, ch, done, n, k);
    ContentsPush(NextPhase(t.ph), keyOf[n := k], hash, ch, done, s, n);
    LinkedPush(t, ch, s, n);
  }

  /** A key under another lock is not in the mover's hand. */
  lemma NotInHand<K(!new)>(ph: Phase, keyOf: seq<K>, hash: K -> nat, m: map<K, nat>, rest: seq<nat>, lp: nat, k: K)
    requires InHand(ph, keyOf, hash, m, rest) && ph.expanding && lp < ph.hp && ph.eb < Pow2(ph.hp - 1)
    requires Low(hash(k), lp) != Low(ph.eb, lp)
    ensures k !in KeySet(keyOf, rest)
  {
    forall i | 0 <= i < |rest|
      ensures rest[i] < |keyOf| && keyOf[rest[i]] != k
    {
      assert OnChain(ph, keyOf, hash, m, Old(ph.eb), rest[i]);
      OneStripe(ph, lp, hash(k));
    }
  }

  /** A cell on a chain is not in the mover's hand. */
  lemma ChainNotInHand<K(!new)>(ph: Phase, keyOf: seq<K>, hash: K -> nat, ch: Chains, m: map<K, nat>, rest: seq<nat>,
                                s: Slot)
    requires ph.hp >= 1 && Contents(NextPhase(ph), keyOf, hash, ch, m - KeySet(keyOf, rest)) && s in ch
    ensures forall i, j :: 0 <= i < |ch[s]| && 0 <= j < |rest| ==> rest[j] != ch[s][i]
  {
    forall i, j | 0 <= i < |ch[s]| && 0 <= j < |rest|
      ensures rest[j] != ch[s][i]
    {
      assert OnChain(NextPhase(ph), keyOf, hash, m - KeySet(keyOf, rest), s, ch[s][i]);
    }
  }

  lemma DeleteMeanwhile<K(!new)>(t: Table, keyOf: seq<K>, hash: K -> nat, ch: Chains, m: map<K, nat>, it: int,
                                 rest: seq<nat>, lp: nat, k: K, i: nat)
    requires Migrating(t, keyOf, hash, ch, m, it, rest) && lp < t.ph.hp
    requires k in m && Low(hash(k), lp) != Low(t.ph.eb, lp)
    requires var s := Home(t.ph, hash(k)); s in ch && i < |ch[s]| && ch[s][i] == m[k]
    ensures var s := Home(t.ph, hash(k));
            && IsSlot(t, s) && m[k] < |t.next| && (i > 0 ==> ch[s][i - 1] < |t.next|) && t.items > 0
            && Migrating(RemoveAt(t, s, ch[s], i), keyOf, hash, ch[s := ch[s][..i] + ch[s][i + 1..]], m - {k}, it, rest)
  {
    var s := Home(t.ph, hash(k));
    NotInHand(t.ph, keyOf, hash, m, rest, lp, k);
    assert m.Keys == (m - {k}).Keys + {k};
    DeleteAround(t, keyOf, hash, ch, m - KeySet(keyOf, rest), s, i, k);
    ChainNotInHand(t.ph, keyOf, hash, ch, m, rest, s);
    HandAfterDelete(t.ph, keyOf, hash, m, rest, k);
    DeleteFrame(t, ch, s, i, it, rest);
  }

  lemma DeleteAround<K(!new)>(t: Table, keyOf: seq<K>, hash: K -> nat, ch: Chains, done: map<K, nat>, s: Slot, i: nat,
                              k: K)
    requires t.ph.hp >= 1 && Linked(t, ch) && Contents(NextPhase(t.ph), keyOf, hash, ch, done) && t.items > 0
    requires s in ch && i < |ch[s]| && k in done && ch[s][i] == done[k]
    ensures IsSlot(t, s) && ch[s][i] < |t.next| && (i > 0 ==> ch[s][i - 1] < |t.next|)
    ensures Linked(RemoveAt(t, s, ch[s], i), ch[s := ch[s][..i] + ch[s][i + 1..]])
    ensures Contents(NextPhase(t.ph), keyOf, hash, ch[s := ch[s][..i] + ch[s][i + 1..]], done - {k})
  {
    assert Mapped(NextPhase(t.ph), keyOf, hash, ch, k, done[k]);
    assert LinkedAt(t, s, ch[s]);
    ContentsRemove(NextPhase(t.ph), keyOf, hash, ch, done, s, i);
    LinkedRemove(t, ch, s, i);
  }

  /** What a deletion leaves alone. */
  lemma DeleteFrame(t: Table, ch: Chains, s: Slot, i: nat, it: int, rest: seq<nat>)
    requires Shape(t) && t.ph.expanding && CoversOthers(t, ch) && s in ch && i < |ch[s]| && t.items > 0
    requires ch[s][i] < |t.next| && (i > 0 ==> ch[s][i - 1] < |t.next|) && IsChain(t.next, it, rest)
    requires forall x, j :: 0 <= x < |ch[s]| && 0 <= j < |rest| ==> rest[j] != ch[s][x]
    ensures IsSlot(t, s)
    ensures var t' := RemoveAt(t, s, ch[s], i);
            && t'.ph == t.ph && |t'.next| == |t.next| && t'.items == t.items - 1
            && Shape(t') && CoversOthers(t', ch[s := ch[s][..i] + ch[s][i + 1..]]) && IsChain(t'.next, it, rest)
  {
    ChainFrame(t.next, RemoveAt(t, s, ch[s], i).next, it, rest);
  }

  lemma HandAfterDelete<K(!new)>(ph: Phase, keyOf: seq<K>, hash: K -> nat, m: map<K, nat>, rest: seq<nat>, k: K)
    requires InHand(ph, keyOf, hash, m, rest) && k !in KeySet(keyOf, rest)
    ensures InHand(ph, keyOf, hash, m - {k}, rest)
    ensures (m - {k}) - KeySet(keyOf, rest) == (m - KeySet(keyOf, rest)) - {k}
  {
    forall i | 0 <= i < |rest|
      ensures OnChain(ph, keyOf, hash, m - {k}, Old(ph.eb), rest[i])
    {
      assert OnChain(ph, keyOf, hash, m, Old(ph.eb), rest[i]);
      assert keyOf[rest[i]] in KeySet(keyOf, rest);
    }
  }

  // ------------------------------------------------- every run

  /** The cells and buckets that the step reads and writes exist. */
  ghost predicate Fits<K(!new)>(st: State<K>, hash: K -> nat, step: Step<K>) {
    match step
    case Insert(n, k) =>
      var s := Home(st.t.ph, hash(k));
      n < |st.keyOf| && n < |st.t.next| && IsSlot(st.t, s) && s in st.ch
    case Delete(k, i) =>
      var s := Home(st.t.ph, hash(k));
      && IsSlot(st.t, s) && s in st.ch && i < |st.ch[s]| && st.ch[s][i] < |st.t.next|
      && (i > 0 ==> st.ch[s][i - 1] < |st.t.next|) && st.t.items > 0
    case Grow(_) => Covers(st.t, st.ch)
    case Take => IsSlot(st.t, Old(st.t.ph.eb)) && Old(st.t.ph.eb) in st.ch
    case Move =>
      && st.rest != [] && st.rest[0] < |st.keyOf| && st.rest[0] < |st.t.next|
      && var s := Prim(Low(hash(st.keyOf[st.rest[0]]), st.t.ph.hp)); IsSlot(st.t, s) && s in st.ch
    case Finish => Shape(st.t) && st.t.ph.expanding
  }

  ghost function Apply<K(!new)>(st: State<K>, hash: K -> nat, step: Step<K>): State<K>
    requires Fits(st, hash, step)
  {
    match step
    case Insert(n, k) =>
      var s := Home(st.t.ph, hash(k));
      State(InsertInto(st.t, s, n), st.keyOf[n := k], st.mover, st.ch[s := [n] + st.ch[s]], st.rest, st.m[k := n])
    case Delete(k, i) =>
      var s := Home(st.t.ph, hash(k));
      State(RemoveAt(st.t, s, st.ch[s], i), st.keyOf, st.mover, st.ch[s := st.ch[s][..i] + st.ch[s][i + 1..]], st.rest,
            st.m - {k})
    case Grow(granted) =>
      st.(t := Expand(st.t, granted), ch := if granted then ExpandChains(st.t, st.ch) else st.ch)
    case Take =>
      var e := Old(st.t.ph.eb);
      st.(mover := Moving(Head(st.t, e)), ch := st.ch - {e}, rest := st.ch[e])
    case Move =>
      var n := st.rest[0];
      var s := Prim(Low(hash(st.keyOf[n]), st.t.ph.hp));
      State(MoveCell(st.t, s, n), st.keyOf, Moving(st.t.next[n]), st.ch[s := [n] + st.ch[s]], st.rest[1..], st.m)
    case Finish =>
      State(FinishBucket(st.t), st.keyOf, Idle, FinishChains(st.t, st.ch), [], st.m)
  }

  lemma HomeInChains<K(!new)>(st: State<K>, hash: K -> nat, lp: nat, k: K)
    requires Inv(st, hash, lp) && Unlocked(st, hash, lp, k)
    ensures Home(st.t.ph, hash(k)) in st.ch && IsSlot(st.t, Home(st.t.ph, hash(k))) && |st.keyOf| == |st.t.next|
  {
    HomeIsSlot(st.t, hash(k));
    if st.mover.Moving? {
      OneStripe(st.t.ph, lp, hash(k));
    }
  }

  lemma DeleteInChains<K(!new)>(st: State<K>, hash: K -> nat, lp: nat, k: K, i: nat)
    requires Inv(st, hash, lp) && Enabled(st, hash, lp, Delete(k, i))
    ensures var s := Home(st.t.ph, hash(k));
            IsSlot(st.t, s) && st.m[k] < |st.t.next| && (i > 0 ==> st.ch[s][i - 1] < |st.t.next|) && st.t.items > 0
  {
    if st.mover.Idle? {
      DeleteKeeps(st.t, st.keyOf, hash, st.ch, st.m, Home(st.t.ph, hash(k)), i);
    } else {
      DeleteMeanwhile(st.t, st.keyOf, hash, st.ch, st.m, st.mover.it, st.rest, lp, k, i);
    }
  }

  lemma EnabledFits<K(!new)>(st: State<K>, hash: K -> nat, lp: nat, step: Step<K>)
    requires Inv(st, hash, lp) && Enabled(st, hash, lp, step)
    ensures Fits(st, hash, step)
  {
    match step {
      case Insert(n, k) => HomeInChains(st, hash, lp, k);
      case Delete(k, i) => DeleteInChains(st, hash, lp, k, i);
      case Grow(_) =>
      case Take =>
      case Move => MigrationMoves(st.t, st.keyOf, hash, st.ch, st.m, st.mover.it, st.rest);
      case Finish =>
    }
  }

  lemma ApplyKeeps<K(!new)>(st: State<K>, hash: K -> nat, lp: nat, step: Step<K>)
    requires Inv(st, hash, lp) && Enabled(st, hash, lp, step) && Fits(st, hash, step)
    ensures Inv(Apply(st, hash, step), hash, lp)
  {
    match step {
      case Insert(n, k) => InsertStep(st, hash, lp, n, k);
      case Delete(k, i) => DeleteStep(st, hash, lp, k, i);
      case Grow(granted) =>
        if granted {
          ExpandKeeps(st.t, st.keyOf, hash, st.ch, st.m);
        } else {
          ExpandFailureKeeps(st.t, st.keyOf, hash, st.ch, st.m);
        }
      case Take => MigrationStarts(st.t, st.keyOf, hash, st.ch, st.m);
      case Move => MigrationMoves(st.t, st.keyOf, hash, st.ch, st.m, st.mover.it, st.rest);
      case Finish =>
        assert st.rest == [];
        MigrationEnds(st.t, st.keyOf, hash, st.ch, st.m, st.mover.it);
    }
  }

  lemma InsertStep<K(!new)>(st: State<K>, hash: K -> nat, lp: nat, n: nat, k: K)
    requires Inv(st, hash, lp) && Enabled(st, hash, lp, Insert(n, k)) && Fits(st, hash, Insert(n, k))
    ensures Inv(Apply(st, hash, Insert(n, k)), hash, lp)
  {
    if st.mover.Idle? {
      RelabelContents(st.t.ph, st.keyOf, hash, st.ch, st.m, n, k);
      InsertKeeps(st.t, st.keyOf[n := k], hash, st.ch, st.m, n);
    } else {
      InsertMeanwhile(st.t, st.keyOf, hash, st.ch, st.m, st.mover.it, st.rest, lp, n, k);
    }
  }

  lemma DeleteStep<K(!new)>(st: State<K>, hash: K -> nat, lp: nat, k: K, i: nat)
    requires Inv(st, hash, lp) && Enabled(st, hash, lp, Delete(k, i)) && Fits(st, hash, Delete(k, i))
    ensures Inv(Apply(st, hash, Delete(k, i)), hash, lp)
  {
    if st.mover.Idle? {
      assert Mapped(st.t.ph, st.keyOf, hash, st.ch, k, st.m[k]);
      DeleteKeeps(st.t, st.keyOf, hash, st.ch, st.m, Home(st.t.ph, hash(k)), i);
    } else {
      DeleteMeanwhile(st.t, st.keyOf, hash, st.ch, st.m, st.mover.it, st.rest, lp, k, i);
    }
  }

  /** A run from an empty table larger than the lock table, as memcached_thread_init insists. */
  ghost predicate Run<K(!new)>(hash: K -> nat, lp: nat, states: seq<State<K>>, steps: seq<Step<K>>) {
    Runs.IsRun((st: State<K>) => Start(st, lp),
               (st: State<K>, step: Step<K>, st': State<K>) => Next(st, hash, lp, step, st'), states, steps)
  }

  /** A step that does not fit would do anything; EnabledFits says that none is ever taken. */
  ghost predicate Next<K(!new)>(st: State<K>, hash: K -> nat, lp: nat, step: Step<K>, st': State<K>) {
    Enabled(st, hash, lp, step) && (Fits(st, hash, step) ==> st' == Apply(st, hash, step))
  }

  lemma NextKeeps<K(!new)>(st: State<K>, hash: K -> nat, lp: nat, step: Step<K>, st': State<K>)
    requires Inv(st, hash, lp) && Next(st, hash, lp, step, st')
    ensures Inv(st', hash, lp)
  {
    EnabledFits(st, hash, lp, step);
    ApplyKeeps(st, hash, lp, step);
  }

  ghost predicate Start<K(!new)>(st: State<K>, lp: nat) {
    && lp < st.t.ph.hp && st.mover == Idle && st.rest == [] && st.m == map[]
    && st.t == Table(Phase(st.t.ph.hp, false, 0), seq(Pow2(st.t.ph.hp), _ => NIL), [], seq(|st.keyOf|, _ => NIL), 0)
    && st.ch == map b: nat | b < Pow2(st.t.ph.hp) :: Prim(b) := []
  }

  lemma RunKeeps<K(!new)>(hash: K -> nat, lp: nat, states: seq<State<K>>, steps: seq<Step<K>>, n: nat)
    requires Run(hash, lp, states, steps) && n < |states|
    ensures Inv(states[n], hash, lp)
  {
    forall st: State<K> | Start(st, lp)
      ensures Inv(st, hash, lp)
    {
      StartHolds(st, hash, lp);
    }
    forall st: State<K>, step, st' | Inv(st, hash, lp) && Next(st, hash, lp, step, st')
      ensures Inv(st', hash, lp)
    {
      NextKeeps(st, hash, lp, step, st');
    }
    Runs.Invariance((st: State<K>) => Start(st, lp),
                    (st: State<K>, step: Step<K>, st': State<K>) => Next(st, hash, lp, step, st'),
                    (st: State<K>) => Inv(st, hash, lp), states, steps, n);
  }

  lemma StartHolds<K(!new)>(st: State<K>, hash: K -> nat, lp: nat)
    requires Start(st, lp)
    ensures Inv(st, hash, lp)
  {
    forall s | s in st.ch
      ensures LinkedAt(st.t, s, st.ch[s])
    {
      assert st.ch[s] == [] && Head(st.t, s) == NIL;
    }
  }

  /** The search of a caller with the key's lock is exact. */
  ghost predicate FoundExactly<K(!new)>(st: State<K>, hash: K -> nat, k: K) {
    var s := Home(st.t.ph, hash(k));
    && s in st.ch && LinkedAt(st.t, s, st.ch[s])
    && (forall i :: 0 <= i < |st.ch[s]| && KeyIs(st.keyOf, st.ch[s][i], k) ==> k in st.m && st.m[k] == st.ch[s][i])
    && (k in st.m ==> exists i :: 0 <= i < |st.ch[s]| && KeyIs(st.keyOf, st.ch[s][i], k))
  }

  lemma FindHere<K(!new)>(st: State<K>, hash: K -> nat, lp: nat, k: K)
    requires Inv(st, hash, lp) && Unlocked(st, hash, lp, k)
    ensures FoundExactly(st, hash, k) && st.t.items == |st.m|
  {
    if st.mover.Idle? {
      HomeIsEnough(st.t, st.keyOf, hash, st.ch, st.m, k);
    } else {
      HomeElsewhere(st.t, st.ch, hash(k), lp);
      NotInHand(st.t.ph, st.keyOf, hash, st.m, st.rest, lp, k);
      SearchMeanwhile(st.t, st.keyOf, hash, st.ch, st.m, st.rest, Home(st.t.ph, hash(k)), k);
    }
  }

  /**
   In every state of every run, whatever the mover holds, a caller with the key's lock that
   walks the chain of the home bucket meets the key exactly when it is mapped, at its cell;
   and hash_items is the size of the map.
   */
  lemma FindAlways<K(!new)>(hash: K -> nat, lp: nat, states: seq<State<K>>, steps: seq<Step<K>>, n: nat, k: K)
    requires Run(hash, lp, states, steps) && n < |states| && Unlocked(states[n], hash, lp, k)
    ensures FoundExactly(states[n], hash, k) && states[n].t.items == |states[n].m|
  {
    RunKeeps(hash, lp, states, steps, n);
    FindHere(states[n], hash, lp, k);
  }

  lemma SearchMeanwhile<K(!new)>(t: Table, keyOf: seq<K>, hash: K -> nat, ch: Chains, m: map<K, nat>, rest: seq<nat>,
                                 s: Slot, k: K)
    requires t.ph.hp >= 1 && Linked(t, ch) && Contents(NextPhase(t.ph), keyOf, hash, ch, m - KeySet(keyOf, rest))
    requires s in ch && s == Home(NextPhase(t.ph), hash(k)) && k !in KeySet(keyOf, rest)
    ensures LinkedAt(t, s, ch[s])
    ensures forall i :: 0 <= i < |ch[s]| && KeyIs(keyOf, ch[s][i], k) ==> k in m && m[k] == ch[s][i]
    ensures k in m ==> exists i :: 0 <= i < |ch[s]| && KeyIs(keyOf, ch[s][i], k)
  {
    var done := m - KeySet(keyOf, rest);
    assert LinkedAt(t, s, ch[s]);
    forall i | 0 <= i < |ch[s]| && KeyIs(keyOf, ch[s][i], k)
      ensures k in m && m[k] == ch[s][i]
    {
      assert OnChain(NextPhase(t.ph), keyOf, hash, done, s, ch[s][i]);
    }
    if k in m {
      assert Mapped(NextPhase(t.ph), keyOf, hash, ch, k, done[k]);
    }
  }

  /** A cell on a chain or in the mover's hand. */
  ghost predicate InUse<K(!new)>(st: State<K>, n: nat) {
    n in st.rest || exists s :: s in st.ch && n in st.ch[s]
  }

  /** Such a cell carries a key that maps to it. */
  lemma InUseIsMapped<K(!new)>(st: State<K>, hash: K -> nat, lp: nat, n: nat)
    requires Inv(st, hash, lp) && InUse(st, n)
    ensures n < |st.keyOf| && st.keyOf[n] in st.m && st.m[st.keyOf[n]] == n
  {
    if n in st.rest {
      var i :| 0 <= i < |st.rest| && st.rest[i] == n;
      assert OnChain(st.t.ph, st.keyOf, hash, st.m, Old(st.t.ph.eb), st.rest[i]);
    } else {
      var s :| s in st.ch && n in st.ch[s];
      var i :| 0 <= i < |st.ch[s]| && st.ch[s][i] == n;
      if st.mover.Idle? {
        assert OnChain(st.t.ph, st.keyOf, hash, st.m, s, st.ch[s][i]);
      } else {
        assert OnChain(NextPhase(st.t.ph), st.keyOf, hash, st.m - KeySet(st.keyOf, st.rest), s, st.ch[s][i]);
      }
    }
  }

  /** The mapped cells are all still there: on a chain, or in the mover's hand. */
  lemma NoCellLost<K(!new)>(hash: K -> nat, lp: nat, states: seq<State<K>>, steps: seq<Step<K>>, n: nat, k: K)
    requires Run(hash, lp, states, steps) && n < |states| && k in states[n].m
    ensures var st := states[n]; st.m[k] in st.rest || exists s :: s in st.ch && st.m[k] in st.ch[s]
  {
    RunKeeps(hash, lp, states, steps, n);
    var st := states[n];
    if st.mover.Idle? {
      assert Mapped(st.t.ph, st.keyOf, hash, st.ch, k, st.m[k]);
    } else if k in KeySet(st.keyOf, st.rest) {
      var i :| 0 <= i < |st.rest| && st.rest[i] < |st.keyOf| && st.keyOf[st.rest[i]] == k;
      assert OnChain(st.t.ph, st.keyOf, hash, st.m, Old(st.t.ph.eb), st.rest[i]);
    } else {
      var done := st.m - KeySet(st.keyOf, st.rest);
      assert Mapped(NextPhase(st.t.ph), st.keyOf, hash, st.ch, k, done[k]);
    }
  }

  /** No cell is in two places: on two chains, twice on one, or on a chain and in the mover's hand. */
  lemma NoCellDuplicated<K(!new)>(hash: K -> nat, lp: nat, states: seq<State<K>>, steps: seq<Step<K>>, n: nat, s: Slot,
                                  i: nat, s': Slot, j: nat)
    requires Run(hash, lp, states, steps) && n < |states|
    requires var ch := states[n].ch; s in ch && s' in ch && i < |ch[s]| && j < |ch[s']|
    ensures var ch := states[n].ch; ch[s][i] == ch[s'][j] ==> s == s' && i == j
    ensures states[n].ch[s][i] !in states[n].rest
  {
    RunKeeps(hash, lp, states, steps, n);
    var st := states[n];
    var ph, done := if st.mover.Idle? then st.t.ph else NextPhase(st.t.ph), st.m - KeySet(st.keyOf, st.rest);
    assert st.mover.Idle? ==> done == st.m;
    assert OnChain(ph, st.keyOf, hash, done, s, st.ch[s][i]) && OnChain(ph, st.keyOf, hash, done, s', st.ch[s'][j]);
    assert LinkedAt(st.t, s, st.ch[s]);
    if st.mover.Moving? {
      ChainNotInHand(st.t.ph, st.keyOf, hash, st.ch, st.m, st.rest, s);
    }
  }
}
