/**
 Log, hash table and metadata cells together. A cell on a chain of the hash table has no key of
 its own: the program follows the cell's item pointer into the log and compares there, while
 the cleaner zeroes the log behind it. Here a change of the index is one step of the log, of
 the table and of the cells at once, as the key's item lock makes it.
 */
module Whole {
  import opened Layout
  import opened MemLog
  import Runs
  import T = Assoc
  import A = AssocRuns
  import C = Cells
  import S = Store

  type Name = seq<Cell>

  /** The log with its index; the hash table; the cells; and the item pointer of every cell. */
  datatype World = World(log: S.State, table: A.State<Name>, cells: C.State, item: seq<nat>)

  datatype Step =
    | Silent(write: S.Step)                               // a step of the log that leaves the index as it is
    | Drop(write: S.Step, k: Name, i: nat)                // do_item_unlink, or the cleaner frees a linked record
    | Put(write: S.Step, k: Name, p: nat, n: nat)         // do_item_link of cell n
    | Swap(write: S.Step, k: Name, p: nat, n: nat, i: nat) // do_item_replace by cell n
    | Hold(cell: C.Step)                                  // a cell is allocated, taken or released
    | Maintain(turn: A.Step<Name>)                        // the maintenance thread

  // ------------------------------------------------- how the three agree

  /**
   The index maps a key to the record to which the item pointer of the key's cell leads; the
   linked cells are those of the keys.
   */
  ghost predicate Agree(ix: map<Name, nat>, m: map<Name, nat>, keyOf: seq<Name>, item: seq<nat>, linked: seq<bool>) {
    && |item| == |keyOf| == |linked| && m.Keys == ix.Keys
    && (forall k :: k in m ==> m[k] < |item| && keyOf[m[k]] == k && item[m[k]] == ix[k] && linked[m[k]])
    && (forall c :: 0 <= c < |linked| && linked[c] ==> keyOf[c] in m && m[keyOf[c]] == c)
  }

  lemma AgreePut(ix: map<Name, nat>, m: map<Name, nat>, keyOf: seq<Name>, item: seq<nat>, linked: seq<bool>,
                 k: Name, p: nat, n: nat)
    requires Agree(ix, m, keyOf, item, linked) && k !in m && n < |linked| && !linked[n]
    ensures A.Spare(m, n)
    ensures Agree(ix[k := p], m[k := n], keyOf[n := k], item[n := p], linked[n := true])
  {
  }

  lemma AgreeDrop(ix: map<Name, nat>, m: map<Name, nat>, keyOf: seq<Name>, item: seq<nat>, linked: seq<bool>, k: Name)
    requires Agree(ix, m, keyOf, item, linked) && k in m
    ensures m[k] < |linked| && Agree(ix - {k}, m - {k}, keyOf, item, linked[m[k] := false])
  {
  }

  lemma AgreeSwap(ix: map<Name, nat>, m: map<Name, nat>, keyOf: seq<Name>, item: seq<nat>, linked: seq<bool>,
                  k: Name, p: nat, n: nat)
    requires Agree(ix, m, keyOf, item, linked) && k in m && n < |linked| && !linked[n]
    ensures m[k] < |linked|
    ensures Agree(ix[k := p], (m - {k})[k := n], keyOf[n := k], item[n := p], linked[m[k] := false][n := true])
  {
    AgreeDrop(ix, m, keyOf, item, linked, k);
    AgreePut(ix - {k}, m - {k}, keyOf, item, linked[m[k] := false], k, p, n);
    assert (ix - {k})[k := p] == ix[k := p];
  }

  ghost predicate Inv(w: World, hash: Name -> nat, lp: nat) {
    && S.Inv(w.log) && A.Inv(w.table, hash, lp) && C.Inv(w.cells)
    && Agree(w.log.m.index, w.table.m, w.table.keyOf, w.item, w.cells.p.linked)
  }

  // ------------------------------------------------- the steps

  /** The step of the log may happen, and leaves this index. */
  ghost predicate Writes(s: S.State, write: S.Step, ix: map<Name, nat>) {
    S.Enabled(s, write) && S.Safe(s, write) && S.Apply(s, write).m.index == ix
  }

  ghost predicate Turns(a: A.State<Name>, hash: Name -> nat, lp: nat, turn: A.Step<Name>) {
    A.Enabled(a, hash, lp, turn) && A.Fits(a, hash, turn)
  }

  ghost predicate Holds(c: C.State, cell: C.Step) {
    C.Sized(c.p) && C.Enabled(c, cell)
  }

  ghost predicate Enabled(w: World, hash: Name -> nat, lp: nat, step: Step) {
    var ix := w.log.m.index;
    match step
    case Silent(write) => Writes(w.log, write, ix)
    case Drop(write, k, i) =>
      && k in ix && Writes(w.log, write, ix - {k})
      && Turns(w.table, hash, lp, A.Delete(k, i)) && Holds(w.cells, C.Unlinking(w.table.m[k]))
    case Put(write, k, p, n) =>
      && k !in ix && n < |w.item| && Writes(w.log, write, ix[k := p])
      && Turns(w.table, hash, lp, A.Insert(n, k)) && Holds(w.cells, C.Linking(n))
    case Swap(write, k, p, n, i) =>
      && k in ix && n < |w.item| && Writes(w.log, write, ix[k := p])
      && Turns(w.table, hash, lp, A.Delete(k, i))
      && Turns(A.Apply(w.table, hash, A.Delete(k, i)), hash, lp, A.Insert(n, k))
      && Holds(w.cells, C.Replacing(w.table.m[k], n))
    case Hold(cell) => (cell.Alloc? || cell.Taken? || cell.Release?) && Holds(w.cells, cell)
    case Maintain(turn) => !turn.Insert? && !turn.Delete? && Turns(w.table, hash, lp, turn)
  }

  ghost function Apply(w: World, hash: Name -> nat, lp: nat, step: Step): World
    requires Enabled(w, hash, lp, step)
  {
    match step
    case Silent(write) => w.(log := S.Apply(w.log, write))
    case Drop(write, k, i) =>
      World(S.Apply(w.log, write), A.Apply(w.table, hash, A.Delete(k, i)),
            C.Apply(w.cells, C.Unlinking(w.table.m[k])), w.item)
    case Put(write, k, p, n) =>
      World(S.Apply(w.log, write), A.Apply(w.table, hash, A.Insert(n, k)),
            C.Apply(w.cells, C.Linking(n)), w.item[n := p])
    case Swap(write, k, p, n, i) =>
      World(S.Apply(w.log, write), A.Apply(A.Apply(w.table, hash, A.Delete(k, i)), hash, A.Insert(n, k)),
            C.Apply(w.cells, C.Replacing(w.table.m[k], n)), w.item[n := p])
    case Hold(cell) => w.(cells := C.Apply(w.cells, cell))
    case Maintain(turn) => w.(table := A.Apply(w.table, hash, turn))
  }

  // ------------------------------------------------- each part alone

  lemma CellsLinked(c: C.State, cell: C.Step)
    requires C.Inv(c) && C.Enabled(c, cell)
    ensures C.Inv(C.Apply(c, cell))
    ensures C.Apply(c, cell).p.linked ==
            match cell
            case Linking(x) => c.p.linked[x := true]
            case Unlinking(x) => c.p.linked[x := false]
            case Replacing(x, y) => c.p.linked[x := false][y := true]
            case _ => c.p.linked
  {
    C.StepKeeps(c, cell);
    match cell
    case Release(x) => assert C.CellOk(c, x);
    case Unlinking(x) => assert C.CellOk(c, x);
    case Replacing(x, y) => assert C.CellOk(c, x);
    case _ =>
  }

  lemma TableTurns(a: A.State<Name>, hash: Name -> nat, lp: nat, turn: A.Step<Name>)
    requires A.Inv(a, hash, lp) && Turns(a, hash, lp, turn)
    ensures A.Inv(A.Apply(a, hash, turn), hash, lp)
    ensures var a' := A.Apply(a, hash, turn);
            match turn
            case Insert(n, k) => a'.m == a.m[k := n] && a'.keyOf == a.keyOf[n := k]
            case Delete(k, _) => a'.m == a.m - {k} && a'.keyOf == a.keyOf
            case _ => a'.m == a.m && a'.keyOf == a.keyOf
  {
    A.ApplyKeeps(a, hash, lp, turn);
  }

  lemma TableSwaps(a: A.State<Name>, hash: Name -> nat, lp: nat, k: Name, i: nat, n: nat)
    requires A.Inv(a, hash, lp) && Turns(a, hash, lp, A.Delete(k, i))
    requires Turns(A.Apply(a, hash, A.Delete(k, i)), hash, lp, A.Insert(n, k))
    ensures var a' := A.Apply(A.Apply(a, hash, A.Delete(k, i)), hash, A.Insert(n, k));
            A.Inv(a', hash, lp) && a'.m == (a.m - {k})[k := n] && a'.keyOf == a.keyOf[n := k]
  {
    TableTurns(a, hash, lp, A.Delete(k, i));
    TableTurns(A.Apply(a, hash, A.Delete(k, i)), hash, lp, A.Insert(n, k));
  }

  lemma LogWrites(s: S.State, write: S.Step)
    requires S.Inv(s) && S.Enabled(s, write)
    ensures S.Safe(s, write) && S.Inv(S.Apply(s, write))
  {
    S.StepKeeps(s, write);
  }

  lemma AllocIndex(s: S.State, e: Extent)
    requires CanAllocate(s.m)
    ensures S.ApplyAlloc(s, e).m.index == s.m.index
  {
  }

  lemma UpdateIndex(s: S.State, prior: bool, i: nat, op: Op)
    requires i < |s.Part(prior)| && RecordOk(s.m.log, s.Part(prior)[i]) && OpEnabled(s.Part(prior)[i], op)
    ensures var e, ix' := s.Part(prior)[i], S.ApplyUpdate(s, prior, i, op).m.index;
            ix' == s.m.index || ix' == s.m.index[e.key := e.start]
  {
  }

  lemma FreeIndex(s: S.State)
    requires s.pc.Cleaning? && CanFree(s.m) && s.m.freeing < |s.m.log|
    ensures var k, ix, ix' := KeyAt(s.m.log, s.m.freeing), s.m.index, S.ApplyFree(s).m.index;
            ix' == ix || (k in ix && ix' == ix - {k})
  {
  }

  /** Every step of the log is one of those above: it changes the index for one key at most. */
  lemma IndexChangesOnce(s: S.State, write: S.Step) returns (k: Name, p: nat)
    requires S.Enabled(s, write) && S.Safe(s, write)
    ensures var ix, ix' := s.m.index, S.Apply(s, write).m.index;
            ix' == ix || (k in ix && ix' == ix - {k}) || ix' == ix[k := p]
  {
    k, p := [], 0;
    match write
    case Alloc(key, cflags, nbytes) => AllocIndex(s, S.Wanted(key, cflags, nbytes));
    case Update(prior, i, op) =>
      k, p := s.Part(prior)[i].key, s.Part(prior)[i].start;
      UpdateIndex(s, prior, i, op);
    case Unlink(gone) => k := gone;
    case FreeOne =>
      k := KeyAt(s.m.log, s.m.freeing);
      FreeIndex(s);
    case _ =>
  }

  // ------------------------------------------------- every run

  lemma DropKeeps(w: World, hash: Name -> nat, lp: nat, write: S.Step, k: Name, i: nat)
    requires Inv(w, hash, lp) && Enabled(w, hash, lp, Drop(write, k, i))
    ensures Inv(Apply(w, hash, lp, Drop(write, k, i)), hash, lp)
  {
    LogWrites(w.log, write);
    TableTurns(w.table, hash, lp, A.Delete(k, i));
    CellsLinked(w.cells, C.Unlinking(w.table.m[k]));
    AgreeDrop(w.log.m.index, w.table.m, w.table.keyOf, w.item, w.cells.p.linked, k);
  }

  lemma PutKeeps(w: World, hash: Name -> nat, lp: nat, write: S.Step, k: Name, p: nat, n: nat)
    requires Inv(w, hash, lp) && Enabled(w, hash, lp, Put(write, k, p, n))
    ensures Inv(Apply(w, hash, lp, Put(write, k, p, n)), hash, lp)
  {
    LogWrites(w.log, write);
    TableTurns(w.table, hash, lp, A.Insert(n, k));
    CellsLinked(w.cells, C.Linking(n));
    AgreePut(w.log.m.index, w.table.m, w.table.keyOf, w.item, w.cells.p.linked, k, p, n);
  }

  lemma SwapKeeps(w: World, hash: Name -> nat, lp: nat, write: S.Step, k: Name, p: nat, n: nat, i: nat)
    requires Inv(w, hash, lp) && Enabled(w, hash, lp, Swap(write, k, p, n, i))
    ensures Inv(Apply(w, hash, lp, Swap(write, k, p, n, i)), hash, lp)
  {
    LogWrites(w.log, write);
    TableSwaps(w.table, hash, lp, k, i, n);
    CellsLinked(w.cells, C.Replacing(w.table.m[k], n));
    AgreeSwap(w.log.m.index, w.table.m, w.table.keyOf, w.item, w.cells.p.linked, k, p, n);
  }

  lemma StepKeeps(w: World, hash: Name -> nat, lp: nat, step: Step)
    requires Inv(w, hash, lp) && Enabled(w, hash, lp, step)
    ensures Inv(Apply(w, hash, lp, step), hash, lp)
  {
    match step
    case Silent(write) => LogWrites(w.log, write);
    case Drop(write, k, i) => DropKeeps(w, hash, lp, write, k, i);
    case Put(write, k, p, n) => PutKeeps(w, hash, lp, write, k, p, n);
    case Swap(write, k, p, n, i) => SwapKeeps(w, hash, lp, write, k, p, n, i);
    case Hold(cell) => CellsLinked(w.cells, cell);
    case Maintain(turn) => TableTurns(w.table, hash, lp, turn);
  }

  ghost predicate Start(w: World, lp: nat) {
    && S.Start(w.log) && A.Start(w.table, lp) && C.Start(w.cells)
    && |w.item| == |w.table.keyOf| == |w.cells.p.next|
  }

  ghost predicate Next(w: World, hash: Name -> nat, lp: nat, step: Step, w': World) {
    Enabled(w, hash, lp, step) && w' == Apply(w, hash, lp, step)
  }

  ghost predicate Run(hash: Name -> nat, lp: nat, worlds: seq<World>, steps: seq<Step>) {
    Runs.IsRun((w: World) => Start(w, lp), (w: World, step: Step, w': World) => Next(w, hash, lp, step, w'),
               worlds, steps)
  }

  lemma StartHolds(w: World, hash: Name -> nat, lp: nat)
    requires Start(w, lp)
    ensures Inv(w, hash, lp)
  {
    S.InitKeeps(w.log.L());
    A.StartHolds(w.table, hash, lp);
    C.StartHolds(w.cells);
  }

  lemma RunKeeps(hash: Name -> nat, lp: nat, worlds: seq<World>, steps: seq<Step>, n: nat)
    requires Run(hash, lp, worlds, steps) && n < |worlds|
    ensures Inv(worlds[n], hash, lp)
  {
    forall w | Start(w, lp)
      ensures Inv(w, hash, lp)
    {
      StartHolds(w, hash, lp);
    }
    forall w, step, w' | Inv(w, hash, lp) && Next(w, hash, lp, step, w')
      ensures Inv(w', hash, lp)
    {
      StepKeeps(w, hash, lp, step);
    }
    Runs.Invariance((w: World) => Start(w, lp), (w: World, step: Step, w': World) => Next(w, hash, lp, step, w'),
                    (w: World) => Inv(w, hash, lp), worlds, steps, n);
  }

  // ------------------------------------------------- keys read through the log

  /**
   In every state of every run, a cell on a chain or in the hand of the maintenance thread has an
   item pointer to a live record of the log, and the key there is the cell's key; the cell is
   linked, is not on the freelist and has a reference.
   */
  lemma ItemsAreLive(hash: Name -> nat, lp: nat, worlds: seq<World>, steps: seq<Step>, n: nat, c: nat)
    requires Run(hash, lp, worlds, steps) && n < |worlds| && A.InUse(worlds[n].table, c)
    ensures var w := worlds[n];
            && c < |w.item| == |w.table.keyOf| == |w.cells.p.linked| && w.cells.p.linked[c] && c !in w.cells.free
            && c < |w.cells.p.refs| && w.cells.p.refs[c] > 0
            && var k := w.table.keyOf[c];
               && k in w.log.m.index && w.log.m.index[k] == w.item[c] && S.LookupSound(w.log, k)
               && KeyAt(w.log.m.log, w.item[c]) == k
  {
    RunKeeps(hash, lp, worlds, steps, n);
    var w := worlds[n];
    A.InUseIsMapped(w.table, hash, lp, c);
    S.LookupFindsLiveRecord(w.log, w.table.keyOf[c]);
    assert C.CellOk(w.cells, c);
  }

  /** The key comparison of assoc_find, as it reads the key through the item pointer. */
  ghost predicate ReadsKey(w: World, c: nat, k: Name) {
    c < |w.item| && w.item[c] < |w.log.m.log| && KeyAt(w.log.m.log, w.item[c]) == k
  }

  /**
   So a lookup under the key's lock that compares keys in the log is exact: it meets the key if
   and only if the index has it, and then at the cell whose record the index names.
   */
  lemma LookupThroughLog(hash: Name -> nat, lp: nat, worlds: seq<World>, steps: seq<Step>, n: nat, k: Name)
    requires Run(hash, lp, worlds, steps) && n < |worlds| && A.Unlocked(worlds[n].table, hash, lp, k)
    ensures var w := worlds[n];
            var s := T.Home(w.table.t.ph, hash(k));
            && s in w.table.ch
            && (forall i :: 0 <= i < |w.table.ch[s]| && ReadsKey(w, w.table.ch[s][i], k) ==>
                  k in w.log.m.index && w.item[w.table.ch[s][i]] == w.log.m.index[k])
            && (k in w.log.m.index ==> exists i :: 0 <= i < |w.table.ch[s]| && ReadsKey(w, w.table.ch[s][i], k))
  {
    RunKeeps(hash, lp, worlds, steps, n);
    var w := worlds[n];
    var s := T.Home(w.table.t.ph, hash(k));
    A.FindHere(w.table, hash, lp, k);
    forall i | 0 <= i < |w.table.ch[s]|
      ensures T.KeyIs(w.table.keyOf, w.table.ch[s][i], k) <==> ReadsKey(w, w.table.ch[s][i], k)
    {
      assert w.table.ch[s][i] in w.table.ch[s];
      ItemsAreLive(hash, lp, worlds, steps, n, w.table.ch[s][i]);
    }
  }

  // ------------------------------------------------- no step of the log is left out

  /** The steps that a write of the log, which changes the index for `k`, can be. */
  ghost predicate IsWrite(step: Step, write: S.Step) {
    match step
    case Silent(x) => x == write
    case Drop(x, _, _) => x == write
    case Put(x, _, _, _) => x == write
    case Swap(x, _, _, _, _) => x == write
    case _ => false
  }

  lemma PlaceOf(a: A.State<Name>, hash: Name -> nat, lp: nat, k: Name) returns (i: nat)
    requires A.Inv(a, hash, lp) && A.Unlocked(a, hash, lp, k) && k in a.m
    ensures Turns(a, hash, lp, A.Delete(k, i))
  {
    A.FindHere(a, hash, lp, k);
    var s := T.Home(a.t.ph, hash(k));
    i :| 0 <= i < |a.ch[s]| && T.KeyIs(a.keyOf, a.ch[s][i], k);
    A.EnabledFits(a, hash, lp, A.Delete(k, i));
  }

  /** A deletion changes no lock. */
  lemma DeleteKeepsLock(a: A.State<Name>, hash: Name -> nat, lp: nat, k: Name, i: nat)
    requires Turns(a, hash, lp, A.Delete(k, i))
    ensures A.Unlocked(A.Apply(a, hash, A.Delete(k, i)), hash, lp, k)
  {
  }

  lemma InsertAfterDelete(a: A.State<Name>, hash: Name -> nat, lp: nat, k: Name, i: nat, n: nat)
    requires A.Inv(a, hash, lp) && Turns(a, hash, lp, A.Delete(k, i)) && n < |a.keyOf| && A.Spare(a.m, n)
    ensures Turns(A.Apply(a, hash, A.Delete(k, i)), hash, lp, A.Insert(n, k))
  {
    TableTurns(a, hash, lp, A.Delete(k, i));
    DeleteKeepsLock(a, hash, lp, k, i);
    A.EnabledFits(A.Apply(a, hash, A.Delete(k, i)), hash, lp, A.Insert(n, k));
  }

  /** The cells' part. */
  lemma CellsMay(c: C.State, ix: map<Name, nat>, m: map<Name, nat>, keyOf: seq<Name>, item: seq<nat>, k: Name, n: nat)
    requires C.Sized(c.p) && Agree(ix, m, keyOf, item, c.p.linked) && C.Enabled(c, C.Linking(n))
    ensures n < |item| && n < |keyOf| && A.Spare(m, n) && Holds(c, C.Linking(n)) && (k in m <==> k in ix)
    ensures k in m ==> Holds(c, C.Unlinking(m[k])) && Holds(c, C.Replacing(m[k], n))
  {
  }

  /** The table's part of a step that links cell n under the key, or in place of what it has. */
  lemma TableMay(a: A.State<Name>, hash: Name -> nat, lp: nat, k: Name, n: nat) returns (i: nat)
    requires A.Inv(a, hash, lp) && A.Unlocked(a, hash, lp, k) && n < |a.keyOf| && A.Spare(a.m, n)
    ensures k !in a.m ==> Turns(a, hash, lp, A.Insert(n, k))
    ensures k in a.m ==> Turns(a, hash, lp, A.Delete(k, i))
    ensures k in a.m ==> Turns(A.Apply(a, hash, A.Delete(k, i)), hash, lp, A.Insert(n, k))
  {
    i := 0;
    if k in a.m {
      i := PlaceOf(a, hash, lp, k);
      InsertAfterDelete(a, hash, lp, k, i, n);
    } else {
      A.EnabledFits(a, hash, lp, A.Insert(n, k));
    }
  }

  /**
   Whatever the log can do in a state of a run, the whole can do: by a caller that has the lock
   of the key that changes, and a cell it holds if there is one to link.
   */
  lemma EveryWriteHappens(w: World, hash: Name -> nat, lp: nat, write: S.Step, n: nat) returns (k: Name, step: Step)
    requires Inv(w, hash, lp) && S.Enabled(w.log, write) && C.Enabled(w.cells, C.Linking(n))
    ensures A.Unlocked(w.table, hash, lp, k) ==> IsWrite(step, write) && Enabled(w, hash, lp, step)
  {
    LogWrites(w.log, write);
    var p;
    k, p := IndexChangesOnce(w.log, write);
    CellsMay(w.cells, w.log.m.index, w.table.m, w.table.keyOf, w.item, k, n);
    var ix, ix' := w.log.m.index, S.Apply(w.log, write).m.index;
    step := Silent(write);
    if ix' != ix && A.Unlocked(w.table, hash, lp, k) {
      var i := TableMay(w.table, hash, lp, k, n);
      step := if k !in ix then Put(write, k, p, n)
              else if ix' == ix - {k} then Drop(write, k, i)
              else Swap(write, k, p, n, i);
    }
  }
}
