/**
 The metadata cells of a slave (memcached.c:2502-2534). Replay of a store takes a cell, links it
 or puts it in the place of the one that is linked, and keeps the reference it was given;
 replay of a tombstone unlinks the cell it finds and releases that reference.
 */
module CellsReplay {
  import opened Cells
  import opened Common

  /** A finished record of the log; a corrupt one is skipped. */
  datatype Record<K> = Put(key: K) | Tomb(key: K) | Skip

  /** The cells, and the cell that assoc_find gives for a key. */
  datatype Slave<K> = Slave(st: State, ix: map<K, nat>)

  ghost predicate RInv<K(!new)>(x: Slave<K>) {
    && Inv(x.st)
    && (forall k :: k in x.ix ==> x.ix[k] < |x.st.p.linked| && x.st.p.linked[x.ix[k]] && x.st.held[x.ix[k]] == 1)
    && (forall k, k' :: k in x.ix && k' in x.ix && k != k' ==> x.ix[k] != x.ix[k'])
  }

  // ------------------------------------------------- the cell operations of a record

  /** freelist_alloc of a cell that is on the list: it has one reference and is not linked. */
  lemma AllocGives(st: State)
    requires Inv(st) && st.p.first != NIL
    ensures st.free != [] && st.free[0] < |st.p.linked|
    ensures var c, st' := st.free[0], Apply(st, Alloc);
            && Inv(st') && st'.free == st.free[1..] && st'.held == st.held + multiset{c} && st'.held[c] == 1
            && st'.p.linked == st.p.linked && !st.p.linked[c] && |st'.p.next| == |st.p.next|
  {
    assert NodeOk(st.p, st.free, 0);
    assert CellOk(st, st.free[0]);
    AllocKeeps(st);
  }

  /** Unlinking a cell that is held once more leaves it off the list. */
  lemma UnlinkLeaves(st: State, c: nat)
    requires Inv(st) && c < |st.p.linked| && st.p.linked[c] && st.held[c] == 1
    ensures var st' := Apply(st, Unlinking(c));
            && Inv(st') && st'.free == st.free && st'.held == st.held && st'.p.linked == st.p.linked[c := false]
            && |st'.p.next| == |st.p.next|
  {
    assert CellOk(st, c);
    UnlinkKeeps(st, c);
  }

  /** Releasing the last reference to an unlinked cell puts it on the list. */
  lemma ReleaseFrees(st: State, c: nat)
    requires Inv(st) && c < |st.p.linked| && !st.p.linked[c] && st.held[c] == 1
    ensures var st' := Apply(st, Release(c));
            && Inv(st') && st'.free == [c] + st.free && st'.held == st.held - multiset{c} && st'.p.linked == st.p.linked
            && |st'.p.next| == |st.p.next|
  {
    assert CellOk(st, c);
    StepKeeps(st, Release(c));
  }

  lemma LinkGives(st: State, c: nat)
    requires Inv(st) && Enabled(st, Linking(c))
    ensures var st' := Apply(st, Linking(c));
            && Inv(st') && st'.free == st.free && st'.held == st.held && st'.p.linked == st.p.linked[c := true]
            && |st'.p.next| == |st.p.next|
  {
    LinkKeeps(st, c);
  }

  /** A store: freelist_alloc, then do_item_link, or item_replace when the key is linked; no reference is released. */
  ghost function PutCells<K(!new)>(x: Slave<K>, k: K): State
    requires RInv(x) && x.st.p.first != NIL
  {
    AllocGives(x.st);
    var st1 := Apply(x.st, Alloc);
    var c := x.st.free[0];
    if k in x.ix then Apply(st1, Replacing(x.ix[k], c)) else Apply(st1, Linking(c))
  }

  /** A tombstone that finds its key: item_unlink, item_remove. */
  ghost function TombCells<K(!new)>(x: Slave<K>, k: K): State
    requires RInv(x) && k in x.ix
  {
    UnlinkLeaves(x.st, x.ix[k]);
    Apply(Apply(x.st, Unlinking(x.ix[k])), Release(x.ix[k]))
  }

  /** The assertion that freelist_alloc has given a cell. */
  predicate CellThere<K>(x: Slave<K>, rec: Record<K>) {
    rec.Put? ==> x.st.p.first != NIL
  }

  ghost function ReplayOne<K(!new)>(x: Slave<K>, rec: Record<K>): Slave<K>
    requires RInv(x) && CellThere(x, rec)
  {
    match rec
    case Put(k) => Slave(PutCells(x, k), x.ix[k := if x.st.free == [] then 0 else x.st.free[0]])
    case Tomb(k) => if k in x.ix then Slave(TombCells(x, k), x.ix - {k}) else x
    case Skip => x
  }

  lemma PutKeeps<K(!new)>(x: Slave<K>, k: K)
    requires RInv(x) && x.st.p.first != NIL
    ensures var x' := ReplayOne(x, Put(k));
            RInv(x') && |x'.st.free| == |x.st.free| - 1 && |x'.st.p.next| == |x.st.p.next|
  {
    AllocGives(x.st);
    var st1 := Apply(x.st, Alloc);
    var c := x.st.free[0];
    if k in x.ix {
      UnlinkLeaves(st1, x.ix[k]);
      var st2 := Apply(st1, Unlinking(x.ix[k]));
      LinkGives(st2, c);
      assert Apply(st1, Replacing(x.ix[k], c)) == Apply(st2, Linking(c));
    } else {
      LinkGives(st1, c);
    }
  }

  lemma TombKeeps<K(!new)>(x: Slave<K>, k: K)
    requires RInv(x) && k in x.ix
    ensures var x' := ReplayOne(x, Tomb(k));
            RInv(x') && |x'.st.free| == |x.st.free| + 1 && |x'.st.p.next| == |x.st.p.next|
  {
    UnlinkLeaves(x.st, x.ix[k]);
    ReleaseFrees(Apply(x.st, Unlinking(x.ix[k])), x.ix[k]);
  }

  // ------------------------------------------------- any list of records

  /** The keys linked after some records, from the records alone. */
  function Present<K(==)>(rs: seq<Record<K>>): set<K> {
    if rs == [] then {}
    else
      var before := Present(rs[..|rs| - 1]);
      match rs[|rs| - 1]
      case Put(k) => before + {k}
      case Tomb(k) => before - {k}
      case Skip => before
  }

  function Puts<K>(rs: seq<Record<K>>): nat {
    if rs == [] then 0 else Puts(rs[..|rs| - 1]) + if rs[|rs| - 1].Put? then 1 else 0
  }

  /** Tombstones that find their key. */
  function Hits<K(==)>(rs: seq<Record<K>>): nat {
    if rs == [] then 0
    else Hits(rs[..|rs| - 1]) + if rs[|rs| - 1].Tomb? && rs[|rs| - 1].key in Present(rs[..|rs| - 1]) then 1 else 0
  }

  /** Stores that find their key and replace it. */
  function Replaced<K(==)>(rs: seq<Record<K>>): nat {
    if rs == [] then 0
    else Replaced(rs[..|rs| - 1]) + if rs[|rs| - 1].Put? && rs[|rs| - 1].key in Present(rs[..|rs| - 1]) then 1 else 0
  }

  /** What is linked or lost are the stores that no tombstone has taken back. */
  lemma {:induction false} PutsAccounted<K>(rs: seq<Record<K>>)
    ensures Puts(rs) == |Present(rs)| + Replaced(rs) + Hits(rs)
  {
    if rs != [] {
      var before, rec := rs[..|rs| - 1], rs[|rs| - 1];
      PutsAccounted(before);
      if !rec.Skip? {
        var p, k := Present(before), rec.key;
        assert k in p ==> p == (p - {k}) + {k};
        assert k !in p ==> p - {k} == p;
      }
    }
  }

  /** Every cell that the assertion asks for is there. */
  ghost predicate Replays<K(!new)>(x: Slave<K>, rs: seq<Record<K>>)
    requires RInv(x)
    decreases |rs|, 0
  {
    rs == [] || (Replays(x, rs[..|rs| - 1]) && CellThere(After(x, rs[..|rs| - 1]), rs[|rs| - 1]))
  }

  ghost function After<K(!new)>(x: Slave<K>, rs: seq<Record<K>>): (x': Slave<K>)
    requires RInv(x) && Replays(x, rs)
    ensures RInv(x')
    decreases |rs|, 1
  {
    if rs == [] then x
    else
      var before := After(x, rs[..|rs| - 1]);
      ReplayOneKeeps(before, rs[|rs| - 1]);
      ReplayOne(before, rs[|rs| - 1])
  }

  lemma ReplayOneKeeps<K(!new)>(x: Slave<K>, rec: Record<K>)
    requires RInv(x) && CellThere(x, rec)
    ensures var x' := ReplayOne(x, rec);
            && RInv(x') && |x'.st.p.next| == |x.st.p.next|
            && |x'.st.free| == |x.st.free| - (if rec.Put? then 1 else 0)
                               + (if rec.Tomb? && rec.key in x.ix then 1 else 0)
            && x'.ix.Keys == match rec
                             case Put(k) => x.ix.Keys + {k}
                             case Tomb(k) => x.ix.Keys - {k}
                             case Skip => x.ix.Keys
  {
    match rec
    case Put(k) => PutKeeps(x, k);
    case Tomb(k) =>
      if k in x.ix {
        TombKeeps(x, k);
      }
    case Skip =>
  }

  ghost predicate Fresh<K(!new)>(x: Slave<K>) {
    Start(x.st) && x.ix == map[]
  }

  lemma FreshHolds<K(!new)>(x: Slave<K>)
    requires Fresh(x)
    ensures RInv(x) && |x.st.free| == |x.st.p.next|
  {
    StartHolds(x.st);
  }

  /**
   For every list of records: the free cells are all cells, less one for each store, plus one for
   each tombstone that found its key. So a cell is lost for each store that replaced another.
   */
  lemma {:induction false} CellsLeft<K(!new)>(x: Slave<K>, rs: seq<Record<K>>)
    requires Fresh(x) && RInv(x) && Replays(x, rs)
    ensures var x' := After(x, rs);
            && x'.ix.Keys == Present(rs) && |x'.st.p.next| == |x.st.p.next|
            && |x'.st.free| == |x.st.p.next| - Puts(rs) + Hits(rs)
            && |x'.st.free| + |Present(rs)| + Replaced(rs) == |x.st.p.next|
  {
    PutsAccounted(rs);
    if rs == [] {
      FreshHolds(x);
    } else {
      CellsLeft(x, rs[..|rs| - 1]);
      ReplayOneKeeps(After(x, rs[..|rs| - 1]), rs[|rs| - 1]);
    }
  }

  /** Before every store, more cells than stores that no tombstone has taken back. */
  ghost predicate EnoughCells<K>(n: nat, rs: seq<Record<K>>) {
    forall t :: 0 <= t < |rs| && rs[t].Put? ==> Puts(rs[..t]) - Hits(rs[..t]) < n
  }

  lemma EnoughSnoc<K>(n: nat, rs: seq<Record<K>>, rec: Record<K>)
    ensures EnoughCells(n, rs + [rec]) <==> EnoughCells(n, rs) && (rec.Put? ==> Puts(rs) - Hits(rs) < n)
  {
    var rs' := rs + [rec];
    assert forall t :: 0 <= t < |rs| ==> rs'[t] == rs[t] && rs'[..t] == rs[..t];
    assert rs'[|rs|] == rec && rs'[..|rs|] == rs;
  }

  /**
   The assertion that there is a cell holds throughout exactly when, before every store, stores
   less hits are below the size of the pool.
   */
  lemma {:induction false} ReplaysIff<K(!new)>(x: Slave<K>, rs: seq<Record<K>>)
    requires Fresh(x) && RInv(x)
    ensures Replays(x, rs) <==> EnoughCells(|x.st.p.next|, rs)
    decreases |rs|
  {
    if rs != [] {
      var before, n := rs[..|rs| - 1], |x.st.p.next|;
      ReplaysIff(x, before);
      EnoughSnoc(n, before, rs[|rs| - 1]);
      assert before + [rs[|rs| - 1]] == rs;
      if Replays(x, before) {
        CellsLeft(x, before);
        ListEmptyIff(After(x, before).st);
      }
    }
  }

  lemma ListEmptyIff(st: State)
    requires Inv(st)
    ensures st.p.first == NIL <==> |st.free| == 0
  {
    assert st.free != [] ==> NodeOk(st.p, st.free, 0);
  }

  // ------------------------------------------------- a store that replaces another

  /** A cell that is neither linked nor free, with a reference that nobody is left to release. */
  ghost predicate Lost(st: State, c: nat) {
    Inv(st) && c < |st.p.linked| && !st.p.linked[c] && st.held[c] == 1 && c !in st.free
  }

  /** A store that finds its key loses the cell of the store before. */
  lemma ReplacedCellIsLost<K(!new)>(x: Slave<K>, k: K)
    requires RInv(x) && k in x.ix && x.st.p.first != NIL
    ensures Lost(ReplayOne(x, Put(k)).st, x.ix[k])
  {
    AllocGives(x.st);
    var st1 := Apply(x.st, Alloc);
    var c := x.st.free[0];
    UnlinkLeaves(st1, x.ix[k]);
    var st2 := Apply(st1, Unlinking(x.ix[k]));
    LinkGives(st2, c);
    assert Apply(st1, Replacing(x.ix[k], c)) == Apply(st2, Linking(c));
    assert CellOk(Apply(st2, Linking(c)), x.ix[k]);
  }

  /** Two stores of one key on a pool of two cells: the first cell is lost, and there is none for a third store. */
  lemma TwoStores<K(!new)>(x: Slave<K>, k: K)
    requires Fresh(x) && RInv(x) && |x.st.p.next| == 2
    ensures CellThere(x, Put(k)) && RInv(ReplayOne(x, Put(k))) && CellThere(ReplayOne(x, Put(k)), Put(k))
    ensures var x2 := ReplayOne(ReplayOne(x, Put(k)), Put(k)); Lost(x2.st, 1) && !CellThere(x2, Put(k))
  {
    FreshHolds(x);
    ListEmptyIff(x.st);
    assert x.st.free[0] == 1;
    PutKeeps(x, k);
    var x1 := ReplayOne(x, Put(k));
    ListEmptyIff(x1.st);
    PutKeeps(x1, k);
    ReplacedCellIsLost(x1, k);
    ListEmptyIff(ReplayOne(x1, Put(k)).st);
  }

  // ------------------------------------------------- in place

  /** The part of the replay loop that works on cells and hash table. */
  class SlaveItems<K(==, !new)> {
    const pool: CellPool
    var ix: map<K, nat>

    ghost function View(): Slave<K>
      reads this, pool
    {
      Slave(pool.Now(), ix)
    }

    constructor (pool: CellPool)
      requires Start(pool.Now())
      ensures this.pool == pool && Fresh(View())
    {
      this.pool := pool;
      ix := map[];
    }

    /** A normal store, up to the assertion when there is no cell. */
    method StoreRecord(k: K) returns (ok: bool)
      requires RInv(View())
      modifies this, pool
      ensures ok <==> old(CellThere(View(), Put(k)))
      ensures RInv(View()) && View() == if ok then ReplayOne(old(View()), Put(k)) else old(View())
    {
      ghost var x := View();
      ok := pool.first != NIL;
      if ok {
        AllocGives(x.st);
        PutKeeps(x, k);
        var c := pool.FreelistAlloc();
        if k in ix {
          pool.ReplaceItem(ix[k], c);
        } else {
          pool.LinkItem(c);
        }
        ix := ix[k := c];
      }
    }

    /** A tombstone. */
    method DeleteRecord(k: K)
      requires RInv(View())
      modifies this, pool
      ensures RInv(View()) && View() == ReplayOne(old(View()), Tomb(k))
    {
      ghost var x := View();
      if k in ix {
        UnlinkLeaves(x.st, x.ix[k]);
        TombKeeps(x, k);
        pool.UnlinkItem(ix[k]);
        pool.ReleaseItem(ix[k]);
        ix := ix - {k};
      }
    }
  }
}
