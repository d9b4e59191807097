/**
 The incrementally expanding hash table (assoc.c). Nodes are cells of the metadata pool,
 so a pointer is a cell number and `NIL` the null pointer; `next` is the h_next field of
 every cell and `keyOf` the key its item carries.
 */
module Assoc {
  import opened Common

  /** `h & hashmask(n)`: the low `n` bits of a hash value. */
  function Low(h: nat, n: nat): (r: nat)
    ensures r < Pow2(n)
  {
    if n == 0 then 0 else h % 2 + 2 * Low(h / 2, n - 1)
  }

  /** A bucket of one of the two tables. */
  datatype Slot = Prim(b: nat) | Old(b: nat)

  /** hashpower, expanding and expand_bucket. */
  datatype Phase = Phase(hp: nat, expanding: bool, eb: nat)

  /** The phase, primary_hashtable, old_hashtable, the h_next of every cell, and hash_items. */
  datatype Table = Table(ph: Phase, prim: seq<int>, former: seq<int>, next: seq<int>, items: nat)

  type Chains = map<Slot, seq<nat>>

  predicate Shape(t: Table) {
    && |t.prim| == Pow2(t.ph.hp)
    && (t.ph.expanding ==> t.ph.hp >= 1 && |t.former| == Pow2(t.ph.hp - 1) && t.ph.eb < |t.former|)
  }

  predicate IsSlot(t: Table, s: Slot) {
    match s
    case Prim(b) => b < |t.prim|
    case Old(b) => t.ph.expanding && b < |t.former|
  }

  /** The bucket in which assoc_find, assoc_insert and _hashitem_before look for a hash value. */
  function Home(ph: Phase, h: nat): Slot {
    if ph.expanding && ph.hp >= 1 && Low(h, ph.hp - 1) >= ph.eb then Old(Low(h, ph.hp - 1)) else Prim(Low(h, ph.hp))
  }

  lemma HomeIsSlot(t: Table, h: nat)
    requires Shape(t)
    ensures IsSlot(t, Home(t.ph, h))
  {
  }

  function Head(t: Table, s: Slot): int
    requires IsSlot(t, s)
  {
    match s
    case Prim(b) => t.prim[b]
    case Old(b) => t.former[b]
  }

  function SetHead(t: Table, s: Slot, p: int): (r: Table)
    requires IsSlot(t, s)
  {
    match s
    case Prim(b) => t.(prim := t.prim[b := p])
    case Old(b) => t.(former := t.former[b := p])
  }

  // ------------------------------------------------- linked chains

  ghost predicate IsChain(next: seq<int>, head: int, c: seq<nat>)
    decreases c
  {
    if c == [] then head == NIL
    else head == c[0] && c[0] < |next| && IsChain(next, next[c[0]], c[1..])
  }

  lemma {:induction false} ChainFrame(next: seq<int>, next': seq<int>, head: int, c: seq<nat>)
    requires IsChain(next, head, c) && |next'| == |next|
    requires forall i :: 0 <= i < |c| && c[i] < |next| ==> next'[c[i]] == next[c[i]]
    ensures IsChain(next', head, c)
    decreases c
  {
    if c != [] {
      ChainFrame(next, next', next[c[0]], c[1..]);
    }
  }

  lemma {:induction false} ChainAt(next: seq<int>, head: int, c: seq<nat>, i: nat)
    requires IsChain(next, head, c) && i < |c|
    ensures c[i] < |next| && IsChain(next, next[c[i]], c[i + 1..])
    decreases c
  {
    if i > 0 {
      ChainAt(next, next[c[0]], c[1..], i - 1);
      assert c[1..][i..] == c[i + 1..];
    }
  }

  /** Pushing a cell that is not on the chain. */
  lemma ChainPush(next: seq<int>, head: int, c: seq<nat>, n: nat)
    requires IsChain(next, head, c) && n < |next| && n !in c
    ensures IsChain(next[n := head], n, [n] + c)
  {
    ChainFrame(next, next[n := head], head, c);
    assert ([n] + c)[1..] == c;
  }

  /** Relinking cell `i` of a chain to another chain. */
  lemma {:induction false} ChainRelink(next: seq<int>, next': seq<int>, head: int, c: seq<nat>, i: nat, d: seq<nat>)
    requires IsChain(next, head, c) && i < |c| && |next'| == |next| && c[i] < |next|
    requires forall j :: 0 <= j < i && c[j] < |next| ==> next'[c[j]] == next[c[j]]
    requires IsChain(next', next'[c[i]], d)
    ensures IsChain(next', head, c[..i + 1] + d)
    decreases c
  {
    var e := c[..i + 1] + d;
    if i == 0 {
      assert e[1..] == d;
    } else {
      ChainRelink(next, next', next[c[0]], c[1..], i - 1, d);
      assert e[1..] == c[1..][..i] + d;
    }
  }

  /** Bypassing cell `i`: the head moves on, or the cell before it is relinked; its own link is cleared. */
  lemma ChainRemove(next: seq<int>, head: int, c: seq<nat>, i: nat)
    requires IsChain(next, head, c) && i < |c| && Distinct(c)
    ensures c[i] < |next| && (i > 0 ==> c[i - 1] < |next|)
    ensures var link := if i == 0 then next else next[c[i - 1] := next[c[i]]];
            IsChain(link[c[i] := NIL], if i == 0 then next[c[0]] else head, c[..i] + c[i + 1..])
  {
    ChainAt(next, head, c, i);
    if i > 0 {
      ChainAt(next, head, c, i - 1);
      var link := next[c[i - 1] := next[c[i]]][c[i] := NIL];
      ChainFrame(next, link, next[c[i]], c[i + 1..]);
      ChainRelink(next, link, head, c, i - 1, c[i + 1..]);
    } else {
      ChainFrame(next, next[c[0] := NIL], next[c[0]], c[1..]);
      assert c[..0] + c[1..] == c[1..];
    }
  }

  // ------------------------------------------------- the table represents a map

  /** `ch` lists the cells on some of the chains, as the pointers link them. */
  ghost predicate Linked(t: Table, ch: Chains) {
    forall s {:trigger LinkedAt(t, s, ch[s])} :: s in ch ==> LinkedAt(t, s, ch[s])
  }

  ghost predicate LinkedAt(t: Table, s: Slot, c: seq<nat>) {
    IsSlot(t, s) && Distinct(c) && IsChain(t.next, Head(t, s), c)
  }

  ghost predicate Covers(t: Table, ch: Chains) {
    forall s :: IsSlot(t, s) ==> s in ch
  }

  ghost predicate OnChain<K>(ph: Phase, keyOf: seq<K>, hash: K -> nat, m: map<K, nat>, s: Slot, n: nat) {
    n < |keyOf| && keyOf[n] in m && m[keyOf[n]] == n && Home(ph, hash(keyOf[n])) == s
  }

  ghost predicate Mapped<K>(ph: Phase, keyOf: seq<K>, hash: K -> nat, ch: Chains, k: K, n: nat) {
    n < |keyOf| && keyOf[n] == k && Home(ph, hash(k)) in ch && n in ch[Home(ph, hash(k))]
  }

  /** A cell is on the chain of its home bucket exactly when its key maps to it. */
  ghost predicate Contents<K(!new)>(ph: Phase, keyOf: seq<K>, hash: K -> nat, ch: Chains, m: map<K, nat>) {
    && (forall s, i {:trigger OnChain(ph, keyOf, hash, m, s, ch[s][i])} :: s in ch && 0 <= i < |ch[s]| ==>
          OnChain(ph, keyOf, hash, m, s, ch[s][i]))
    && (forall k {:trigger Mapped(ph, keyOf, hash, ch, k, m[k])} :: k in m ==> Mapped(ph, keyOf, hash, ch, k, m[k]))
  }

  /** The table stands for the finite map `m`. */
  ghost predicate Valid<K(!new)>(t: Table, keyOf: seq<K>, hash: K -> nat, ch: Chains, m: map<K, nat>) {
    && Shape(t) && |keyOf| == |t.next| && t.items == |m|
    && Covers(t, ch) && Linked(t, ch) && Contents(t.ph, keyOf, hash, ch, m)
  }

  /** No cell is on two chains, nor twice on one. */
  lemma NoCellTwice<K(!new)>(t: Table, keyOf: seq<K>, hash: K -> nat, ch: Chains, m: map<K, nat>, s: Slot, i: nat,
                             s': Slot, j: nat)
    requires Valid(t, keyOf, hash, ch, m) && s in ch && s' in ch && i < |ch[s]| && j < |ch[s']|
    requires ch[s][i] == ch[s'][j]
    ensures s == s' && i == j
  {
    assert OnChain(t.ph, keyOf, hash, m, s, ch[s][i]) && OnChain(t.ph, keyOf, hash, m, s', ch[s'][j]);
    assert LinkedAt(t, s, ch[s]);
  }

  /** A search of the home bucket finds a key exactly when it is mapped, and then its cell. */
  lemma HomeIsEnough<K(!new)>(t: Table, keyOf: seq<K>, hash: K -> nat, ch: Chains, m: map<K, nat>, k: K)
    requires Valid(t, keyOf, hash, ch, m)
    ensures Home(t.ph, hash(k)) in ch && LinkedAt(t, Home(t.ph, hash(k)), ch[Home(t.ph, hash(k))])
    ensures k in m <==> exists i :: 0 <= i < |ch[Home(t.ph, hash(k))]| && KeyIs(keyOf, ch[Home(t.ph, hash(k))][i], k)
    ensures forall i :: 0 <= i < |ch[Home(t.ph, hash(k))]| ==>
              && ch[Home(t.ph, hash(k))][i] < |keyOf|
              && (KeyIs(keyOf, ch[Home(t.ph, hash(k))][i], k) ==> k in m && m[k] == ch[Home(t.ph, hash(k))][i])
  {
    HomeIsSlot(t, hash(k));
    var s := Home(t.ph, hash(k));
    assert LinkedAt(t, s, ch[s]);
    forall i | 0 <= i < |ch[s]|
      ensures ch[s][i] < |keyOf| && (KeyIs(keyOf, ch[s][i], k) ==> k in m && m[k] == ch[s][i])
    {
      assert OnChain(t.ph, keyOf, hash, m, s, ch[s][i]);
    }
    if k in m {
      assert Mapped(t.ph, keyOf, hash, ch, k, m[k]);
    }
  }

  predicate KeyIs<K(==)>(keyOf: seq<K>, n: nat, k: K) {
    n < |keyOf| && keyOf[n] == k
  }

  // ------------------------------------------------- assoc_insert

  function InsertInto(t: Table, s: Slot, n: nat): Table
    requires IsSlot(t, s) && n < |t.next|
  {
    SetHead(t.(next := t.next[n := Head(t, s)], items := t.items + 1), s, n)
  }

  lemma LinkedPush(t: Table, ch: Chains, s: Slot, n: nat)
    requires Linked(t, ch) && s in ch && n < |t.next| && forall q :: q in ch ==> n !in ch[q]
    ensures IsSlot(t, s) && Linked(InsertInto(t, s, n), ch[s := [n] + ch[s]])
  {
    assert LinkedAt(t, s, ch[s]);
    var t' := InsertInto(t, s, n);
    var ch' := ch[s := [n] + ch[s]];
    forall q | q in ch'
      ensures LinkedAt(t', q, ch'[q])
    {
      assert LinkedAt(t, q, ch[q]);
      if q == s {
        ChainPush(t.next, Head(t, s), ch[s], n);
      } else {
        ChainFrame(t.next, t'.next, Head(t, q), ch[q]);
      }
    }
  }

  lemma ContentsPush<K(!new)>(ph: Phase, keyOf: seq<K>, hash: K -> nat, ch: Chains, m: map<K, nat>, s: Slot, n: nat)
    requires Contents(ph, keyOf, hash, ch, m) && n < |keyOf| && keyOf[n] !in m && s in ch
             && s == Home(ph, hash(keyOf[n]))
    ensures forall q :: q in ch ==> n !in ch[q]
    ensures Contents(ph, keyOf, hash, ch[s := [n] + ch[s]], m[keyOf[n] := n])
  {
    var ch' := ch[s := [n] + ch[s]];
    var m' := m[keyOf[n] := n];
    forall q, i | q in ch && 0 <= i < |ch[q]|
      ensures ch[q][i] != n && OnChain(ph, keyOf, hash, m', q, ch[q][i])
    {
      assert OnChain(ph, keyOf, hash, m, q, ch[q][i]);
    }
    forall q, i {:trigger ch'[q][i]} | q in ch' && 0 <= i < |ch'[q]|
      ensures OnChain(ph, keyOf, hash, m', q, ch'[q][i])
    {
      if q == s && i > 0 {
        assert ch'[q][i] == ch[q][i - 1];
      } else if q != s {
        assert ch'[q][i] == ch[q][i];
      }
    }
    forall k | k in m'
      ensures Mapped(ph, keyOf, hash, ch', k, m'[k])
    {
      if k in m && k != keyOf[n] {
        assert Mapped(ph, keyOf, hash, ch, k, m[k]);
      }
    }
  }

  lemma InsertKeeps<K(!new)>(t: Table, keyOf: seq<K>, hash: K -> nat, ch: Chains, m: map<K, nat>, n: nat)
    requires Valid(t, keyOf, hash, ch, m) && n < |keyOf| && keyOf[n] !in m
    ensures var s := Home(t.ph, hash(keyOf[n]));
            IsSlot(t, s) && s in ch && Valid(InsertInto(t, s, n), keyOf, hash, ch[s := [n] + ch[s]], m[keyOf[n] := n])
  {
    HomeIsSlot(t, hash(keyOf[n]));
    var s := Home(t.ph, hash(keyOf[n]));
    ContentsPush(t.ph, keyOf, hash, ch, m, s, n);
    LinkedPush(t, ch, s, n);
    assert InsertInto(t, s, n).ph == t.ph;
  }

  // ------------------------------------------------- assoc_delete

  /** The link that leads to `it`, from the bucket or from a cell, is moved on; the cell's own link is cleared. */
  function Bypass(t: Table, s: Slot, before: int, it: nat): Table
    requires IsSlot(t, s) && it < |t.next| && -1 <= before < |t.next| && t.items > 0
  {
    var t1 := if before == NIL then SetHead(t, s, t.next[it]) else t.(next := t.next[before := t.next[it]]);
    t1.(next := t1.next[it := NIL], items := t.items - 1)
  }

  function RemoveAt(t: Table, s: Slot, c: seq<nat>, i: nat): Table
    requires IsSlot(t, s) && i < |c| && c[i] < |t.next| && (i > 0 ==> c[i - 1] < |t.next|) && t.items > 0
  {
    Bypass(t, s, if i == 0 then NIL else c[i - 1], c[i])
  }

  lemma LinkedRemove(t: Table, ch: Chains, s: Slot, i: nat)
    requires Linked(t, ch) && s in ch && i < |ch[s]| && t.items > 0
    requires forall q, j :: q in ch && q != s && 0 <= j < |ch[q]| ==> ch[q][j] !in ch[s]
    ensures IsSlot(t, s) && ch[s][i] < |t.next| && (i > 0 ==> ch[s][i - 1] < |t.next|)
    ensures Linked(RemoveAt(t, s, ch[s], i), ch[s := ch[s][..i] + ch[s][i + 1..]])
  {
    var c := ch[s];
    assert LinkedAt(t, s, c);
    ChainRemove(t.next, Head(t, s), c, i);
    var t' := RemoveAt(t, s, c, i);
    var ch' := ch[s := c[..i] + c[i + 1..]];
    forall q | q in ch'
      ensures LinkedAt(t', q, ch'[q])
    {
      assert LinkedAt(t, q, ch[q]);
      if q != s {
        ChainFrame(t.next, t'.next, Head(t, q), ch[q]);
      }
    }
  }

  lemma ContentsRemove<K(!new)>(ph: Phase, keyOf: seq<K>, hash: K -> nat, ch: Chains, m: map<K, nat>, s: Slot, i: nat)
    requires Contents(ph, keyOf, hash, ch, m) && s in ch && i < |ch[s]| && Distinct(ch[s])
    ensures ch[s][i] < |keyOf| && keyOf[ch[s][i]] in m
    ensures forall q, j :: q in ch && q != s && 0 <= j < |ch[q]| ==> ch[q][j] !in ch[s]
    ensures Contents(ph, keyOf, hash, ch[s := ch[s][..i] + ch[s][i + 1..]], m - {keyOf[ch[s][i]]})
  {
    var c := ch[s];
    var n := c[i];
    assert OnChain(ph, keyOf, hash, m, s, ch[s][i]);
    var k := keyOf[n];
    var ch' := ch[s := c[..i] + c[i + 1..]];
    var m' := m - {k};
    forall q, j | q in ch && 0 <= j < |ch[q]|
      ensures OnChain(ph, keyOf, hash, m, q, ch[q][j])
      ensures q != s ==> ch[q][j] !in c
    {
      assert OnChain(ph, keyOf, hash, m, q, ch[q][j]);
      forall x | 0 <= x < |c|
        ensures q != s ==> c[x] != ch[q][j]
      {
        assert OnChain(ph, keyOf, hash, m, s, ch[s][x]);
      }
    }
    forall q, j {:trigger ch'[q][j]} | q in ch' && 0 <= j < |ch'[q]|
      ensures OnChain(ph, keyOf, hash, m', q, ch'[q][j])
    {
      var x := if q == s && j >= i then j + 1 else j;
      assert ch'[q][j] == ch[q][x];
      assert OnChain(ph, keyOf, hash, m, q, ch[q][x]);
    }
    forall k' | k' in m'
      ensures Mapped(ph, keyOf, hash, ch', k', m'[k'])
    {
      assert Mapped(ph, keyOf, hash, ch, k', m[k']);
      if Home(ph, hash(k')) == s {
        var x :| 0 <= x < |c| && c[x] == m[k'];
        assert x != i;
        assert ch'[s][if x < i then x else x - 1] == m[k'];
      }
    }
  }

  lemma DeleteKeeps<K(!new)>(t: Table, keyOf: seq<K>, hash: K -> nat, ch: Chains, m: map<K, nat>, s: Slot, i: nat)
    requires Valid(t, keyOf, hash, ch, m) && s in ch && i < |ch[s]|
    ensures IsSlot(t, s) && ch[s][i] < |keyOf| && (i > 0 ==> ch[s][i - 1] < |keyOf|) && t.items > 0 && Distinct(ch[s])
    ensures Valid(RemoveAt(t, s, ch[s], i), keyOf, hash, ch[s := ch[s][..i] + ch[s][i + 1..]], m - {keyOf[ch[s][i]]})
  {
    assert LinkedAt(t, s, ch[s]);
    ContentsRemove(t.ph, keyOf, hash, ch, m, s, i);
    var k := keyOf[ch[s][i]];
    assert m.Keys == (m - {k}).Keys + {k};
    LinkedRemove(t, ch, s, i);
    assert RemoveAt(t, s, ch[s], i).ph == t.ph;
  }

  // ------------------------------------------------- assoc_expand

  /** assoc_expand when calloc gives a table (`ok`) and when it does not. */
  function Expand(t: Table, ok: bool): Table {
    if ok then Table(Phase(t.ph.hp + 1, true, 0), seq(Pow2(t.ph.hp + 1), _ => NIL), t.prim, t.next, t.items)
    else t.(former := t.prim)
  }

  /** The chains of the old table, and as many empty new buckets twice over. */
  ghost function ExpandChains(t: Table, ch: Chains): Chains
    requires Covers(t, ch)
  {
    (map b: nat | b < Pow2(t.ph.hp + 1) :: Prim(b) := []) + (map b: nat | b < |t.prim| :: Old(b) := ch[Prim(b)])
  }

  /** A failed allocation leaves the table as it was. */
  lemma ExpandFailureKeeps<K(!new)>(t: Table, keyOf: seq<K>, hash: K -> nat, ch: Chains, m: map<K, nat>)
    requires Valid(t, keyOf, hash, ch, m) && !t.ph.expanding
    ensures Valid(Expand(t, false), keyOf, hash, ch, m)
  {
    var t' := Expand(t, false);
    forall s | s in ch
      ensures LinkedAt(t', s, ch[s])
    {
      assert LinkedAt(t, s, ch[s]) && Head(t', s) == Head(t, s);
    }
  }

  lemma LinkedExpand(t: Table, ch: Chains)
    requires Shape(t) && Covers(t, ch) && Linked(t, ch) && !t.ph.expanding
    ensures Linked(Expand(t, true), ExpandChains(t, ch))
  {
    var t' := Expand(t, true);
    var ch' := ExpandChains(t, ch);
    forall s | s in ch'
      ensures LinkedAt(t', s, ch'[s])
    {
      if s.Old? {
        assert LinkedAt(t, Prim(s.b), ch[Prim(s.b)]) && ch'[s] == ch[Prim(s.b)] && Head(t', s) == Head(t, Prim(s.b));
      } else {
        assert ch'[s] == [] && Head(t', s) == NIL;
      }
    }
  }

  lemma ContentsExpand<K(!new)>(t: Table, keyOf: seq<K>, hash: K -> nat, ch: Chains, m: map<K, nat>)
    requires Covers(t, ch) && Shape(t) && !t.ph.expanding && Contents(t.ph, keyOf, hash, ch, m)
    ensures Contents(Expand(t, true).ph, keyOf, hash, ExpandChains(t, ch), m)
  {
    var ph' := Expand(t, true).ph;
    var ch' := ExpandChains(t, ch);
    forall s, i {:trigger ch'[s][i]} | s in ch' && 0 <= i < |ch'[s]|
      ensures OnChain(ph', keyOf, hash, m, s, ch'[s][i])
    {
      assert s.Old? && ch'[s] == ch[Prim(s.b)];
      assert OnChain(t.ph, keyOf, hash, m, Prim(s.b), ch[Prim(s.b)][i]);
    }
    forall k | k in m
      ensures Mapped(ph', keyOf, hash, ch', k, m[k])
    {
      assert Mapped(t.ph, keyOf, hash, ch, k, m[k]);
    }
  }

  /** The new table starts empty and every lookup goes to the old one: the map is the same. */
  lemma ExpandKeeps<K(!new)>(t: Table, keyOf: seq<K>, hash: K -> nat, ch: Chains, m: map<K, nat>)
    requires Valid(t, keyOf, hash, ch, m) && !t.ph.expanding
    ensures Valid(Expand(t, true), keyOf, hash, ExpandChains(t, ch), m)
  {
    LinkedExpand(t, ch);
    ContentsExpand(t, keyOf, hash, ch, m);
  }

  // ------------------------------------------------- the migration of one bucket

  /** The low bits of a hash value under the doubled table: the old bucket, or the old bucket plus the old size. */
  lemma {:induction false} LowDoubles(h: nat, n: nat)
    ensures Low(h, n + 1) == Low(h, n) || Low(h, n + 1) == Low(h, n) + Pow2(n)
  {
    if n > 0 {
      LowDoubles(h / 2, n - 1);
    }
  }

  /** expand_bucket after the bucket has moved; past the last bucket, expansion is over. */
  function NextPhase(ph: Phase): Phase
    requires ph.hp >= 1
  {
    if ph.eb + 1 == Pow2(ph.hp - 1) then Phase(ph.hp, false, ph.eb + 1) else Phase(ph.hp, true, ph.eb + 1)
  }

  /** Moving on by one bucket changes the home of exactly the hash values of that bucket. */
  lemma HomeMoves(ph: Phase, h: nat)
    requires ph.expanding && ph.hp >= 1 && ph.eb < Pow2(ph.hp - 1)
    ensures Home(NextPhase(ph), h) == if Home(ph, h) == Old(ph.eb) then Prim(Low(h, ph.hp)) else Home(ph, h)
  {
  }

  ghost function KeySet<K>(keyOf: seq<K>, cells: seq<nat>): set<K> {
    set i | 0 <= i < |cells| && cells[i] < |keyOf| :: keyOf[cells[i]]
  }

  /**
   Between two turns of the migration loop: `rest` is what is left of the old chain, in the
   hand of the maintenance thread at `it`; all other cells are where lookups will find them
   once expand_bucket has moved on.
   */
  ghost predicate Migrating<K(!new)>(t: Table, keyOf: seq<K>, hash: K -> nat, ch: Chains, m: map<K, nat>, it: int,
                                     rest: seq<nat>)
  {
    && Shape(t) && t.ph.expanding && |keyOf| == |t.next| && t.items == |m|
    && CoversOthers(t, ch) && Linked(t, ch) && IsChain(t.next, it, rest) && Distinct(rest)
    && InHand(t.ph, keyOf, hash, m, rest)
    && Contents(NextPhase(t.ph), keyOf, hash, ch, m - KeySet(keyOf, rest))
  }

  ghost predicate CoversOthers(t: Table, ch: Chains) {
    forall s :: s in ch <==> IsSlot(t, s) && s != Old(t.ph.eb)
  }

  ghost predicate InHand<K(!new)>(ph: Phase, keyOf: seq<K>, hash: K -> nat, m: map<K, nat>, rest: seq<nat>) {
    forall i {:trigger rest[i]} :: 0 <= i < |rest| ==> OnChain(ph, keyOf, hash, m, Old(ph.eb), rest[i])
  }

  lemma MigrationStarts<K(!new)>(t: Table, keyOf: seq<K>, hash: K -> nat, ch: Chains, m: map<K, nat>)
    requires Valid(t, keyOf, hash, ch, m) && t.ph.expanding
    ensures var e := Old(t.ph.eb);
            e in ch && IsSlot(t, e) && Migrating(t, keyOf, hash, ch - {e}, m, Head(t, e), ch[e])
  {
    var e := Old(t.ph.eb);
    assert IsSlot(t, e) && LinkedAt(t, e, ch[e]);
    var rest, ch', m' := ch[e], ch - {e}, m - KeySet(keyOf, ch[e]);
    forall i | 0 <= i < |rest|
      ensures OnChain(t.ph, keyOf, hash, m, e, rest[i])
    {
      assert OnChain(t.ph, keyOf, hash, m, e, ch[e][i]);
    }
    forall s | s in ch'
      ensures LinkedAt(t, s, ch'[s])
    {
      assert LinkedAt(t, s, ch[s]);
    }
    forall s, i {:trigger ch'[s][i]} | s in ch' && 0 <= i < |ch'[s]|
      ensures OnChain(NextPhase(t.ph), keyOf, hash, m', s, ch'[s][i])
    {
      assert OnChain(t.ph, keyOf, hash, m, s, ch[s][i]);
      HomeMoves(t.ph, hash(keyOf[ch[s][i]]));
    }
    forall k | k in m'
      ensures Mapped(NextPhase(t.ph), keyOf, hash, ch', k, m'[k])
    {
      assert Mapped(t.ph, keyOf, hash, ch, k, m[k]);
      HomeMoves(t.ph, hash(k));
    }
  }

  /** One turn of the loop: the cell goes to the head of its new bucket. */
  function MoveCell(t: Table, s: Slot, n: nat): Table
    requires IsSlot(t, s) && n < |t.next|
  {
    SetHead(t.(next := t.next[n := Head(t, s)]), s, n)
  }

  lemma MigrationMoves<K(!new)>(t: Table, keyOf: seq<K>, hash: K -> nat, ch: Chains, m: map<K, nat>, it: int,
                                rest: seq<nat>)
    requires Migrating(t, keyOf, hash, ch, m, it, rest) && rest != []
    ensures it == rest[0] && rest[0] < |keyOf|
    ensures var s := Prim(Low(hash(keyOf[rest[0]]), t.ph.hp));
            && s in ch && IsSlot(t, s)
            && Migrating(MoveCell(t, s, rest[0]), keyOf, hash, ch[s := [rest[0]] + ch[s]], m, t.next[rest[0]],
                         rest[1..])
  {
    var n := rest[0];
    assert OnChain(t.ph, keyOf, hash, m, Old(t.ph.eb), rest[0]);
    var k := keyOf[n];
    var s := Prim(Low(hash(k), t.ph.hp));
    HomeMoves(t.ph, hash(k));
    var done := m - KeySet(keyOf, rest);
    assert k in KeySet(keyOf, rest);
    ContentsPush(NextPhase(t.ph), keyOf, hash, ch, done, s, n);
    LinkedPush(t, ch, s, n);
    var t' := MoveCell(t, s, n);
    assert t' == InsertInto(t, s, n).(items := t.items);
    ChainFrame(t.next, t'.next, t.next[n], rest[1..]);
    RestLosesFirst(t.ph, keyOf, hash, m, rest);
    var ch' := ch[s := [n] + ch[s]];
    forall q | q in ch'
      ensures LinkedAt(t', q, ch'[q])
    {
      assert LinkedAt(InsertInto(t, s, n), q, ch'[q]);
    }
    assert InHand(t'.ph, keyOf, hash, m, rest[1..]);
  }

  lemma RestLosesFirst<K(!new)>(ph: Phase, keyOf: seq<K>, hash: K -> nat, m: map<K, nat>, rest: seq<nat>)
    requires rest != [] && Distinct(rest) && InHand(ph, keyOf, hash, m, rest)
    ensures rest[0] < |keyOf| && InHand(ph, keyOf, hash, m, rest[1..])
    ensures (m - KeySet(keyOf, rest))[keyOf[rest[0]] := rest[0]] == m - KeySet(keyOf, rest[1..])
  {
    var n := rest[0];
    assert OnChain(ph, keyOf, hash, m, Old(ph.eb), rest[0]);
    var k := keyOf[n];
    forall i | 0 <= i < |rest| - 1
      ensures OnChain(ph, keyOf, hash, m, Old(ph.eb), rest[1..][i]) && keyOf[rest[1..][i]] != k
    {
      assert OnChain(ph, keyOf, hash, m, Old(ph.eb), rest[i + 1]);
    }
    assert KeySet(keyOf, rest) == KeySet(keyOf, rest[1..]) + {k} by {
      forall x | x in KeySet(keyOf, rest)
        ensures x in KeySet(keyOf, rest[1..]) + {k}
      {
        var i :| 0 <= i < |rest| && rest[i] < |keyOf| && keyOf[rest[i]] == x;
        assert i > 0 ==> rest[1..][i - 1] == rest[i];
      }
      forall x | x in KeySet(keyOf, rest[1..]) + {k}
        ensures x in KeySet(keyOf, rest)
      {
        if x != k {
          var i :| 0 <= i < |rest[1..]| && rest[1..][i] < |keyOf| && keyOf[rest[1..][i]] == x;
          assert rest[i + 1] == rest[1..][i];
        }
      }
    }
    assert k !in KeySet(keyOf, rest[1..]);
  }

  /** The end of the bucket: it is cleared, expand_bucket moves on, and past the last bucket the old table goes. */
  function FinishBucket(t: Table): Table
    requires Shape(t) && t.ph.expanding
  {
    t.(former := t.former[t.ph.eb := NIL], ph := NextPhase(t.ph))
  }

  ghost function FinishChains(t: Table, ch: Chains): Chains
    requires Shape(t) && t.ph.expanding
  {
    if NextPhase(t.ph).expanding then ch[Old(t.ph.eb) := []] else map s | s in ch && s.Prim? :: ch[s]
  }

  lemma LinkedFinish(t: Table, ch: Chains)
    requires Shape(t) && t.ph.expanding && Linked(t, ch) && CoversOthers(t, ch)
    ensures Covers(FinishBucket(t), FinishChains(t, ch)) && Linked(FinishBucket(t), FinishChains(t, ch))
  {
    var t' := FinishBucket(t);
    var ch' := FinishChains(t, ch);
    forall s | s in ch'
      ensures LinkedAt(t', s, ch'[s])
    {
      if s != Old(t.ph.eb) {
        assert s in ch && LinkedAt(t, s, ch[s]) && ch'[s] == ch[s] && Head(t', s) == Head(t, s);
      } else {
        assert ch'[s] == [] && Head(t', s) == NIL;
      }
    }
  }

  lemma ContentsFinish<K(!new)>(t: Table, keyOf: seq<K>, hash: K -> nat, ch: Chains, m: map<K, nat>)
    requires Shape(t) && t.ph.expanding && Contents(NextPhase(t.ph), keyOf, hash, ch, m) && Old(t.ph.eb) !in ch
    ensures Contents(NextPhase(t.ph), keyOf, hash, FinishChains(t, ch), m)
  {
    var ph' := NextPhase(t.ph);
    var ch' := FinishChains(t, ch);
    forall s, i {:trigger ch'[s][i]} | s in ch' && 0 <= i < |ch'[s]|
      ensures OnChain(ph', keyOf, hash, m, s, ch'[s][i])
    {
      assert s in ch && ch'[s] == ch[s];
      assert OnChain(ph', keyOf, hash, m, s, ch[s][i]);
    }
    forall k | k in m
      ensures Mapped(ph', keyOf, hash, ch', k, m[k])
    {
      assert Mapped(ph', keyOf, hash, ch, k, m[k]);
    }
  }

  /** When the whole chain has moved, the table stands for the same map as before. */
  lemma MigrationEnds<K(!new)>(t: Table, keyOf: seq<K>, hash: K -> nat, ch: Chains, m: map<K, nat>, it: int)
    requires Migrating(t, keyOf, hash, ch, m, it, [])
    ensures it == NIL && Valid(FinishBucket(t), keyOf, hash, FinishChains(t, ch), m)
  {
    assert m - KeySet(keyOf, []) == m;
    LinkedFinish(t, ch);
    ContentsFinish(t, keyOf, hash, ch, m);
  }

  // ------------------------------------------------- assoc.c in place

  class HashTable<K(==, !new)> {
    const hash: K -> nat
    var keyOf: seq<K>
    var hNext: seq<int>
    var hashpower: nat
    var expanding: bool
    var expandBucket: nat
    var primary: seq<int>
    var former: seq<int>
    var hashItems: nat
    var startedExpanding: bool
    ghost var chains: Chains
    ghost var contents: map<K, nat>

    function View(): Table
      reads this
    {
      Table(Phase(hashpower, expanding, expandBucket), primary, former, hNext, hashItems)
    }

    ghost predicate Ok()
      reads this
    {
      Valid(View(), keyOf, hash, chains, contents)
    }

    /** assoc_init over a pool of cells. */
    constructor (hash: K -> nat, power: nat, keys: seq<K>)
      ensures Ok() && contents == map[] && this.hash == hash && keyOf == keys
    {
      this.hash := hash;
      keyOf, hNext := keys, seq(|keys|, _ => NIL);
      hashpower, expanding, expandBucket := power, false, 0;
      primary, former, hashItems := seq(Pow2(power), _ => NIL), [], 0;
      startedExpanding := false;
      chains, contents := map b: nat | b < Pow2(power) :: Prim(b) := [], map[];
    }

    function Bucket(hv: nat): Slot
      reads this
    {
      Home(Phase(hashpower, expanding, expandBucket), hv)
    }

    function First(s: Slot): int
      requires IsSlot(View(), s)
      reads this
    {
      match s
      case Prim(b) => primary[b]
      case Old(b) => former[b]
    }

    method SetFirst(s: Slot, p: int)
      requires IsSlot(View(), s)
      modifies this`primary, this`former
      ensures View() == SetHead(old(View()), s, p)
    {
      match s
      case Prim(b) => primary := primary[b := p];
      case Old(b) => former := former[b := p];
    }

    /** assoc_find. */
    method Find(k: K) returns (it: int)
      requires Ok()
      ensures it == if k in contents then contents[k] else NIL
    {
      HomeIsEnough(View(), keyOf, hash, chains, contents, k);
      var s := Bucket(hash(k));
      ghost var c := chains[s];
      it := First(s);
      ghost var i := 0;
      while it != NIL
        invariant 0 <= i <= |c| && IsChain(hNext, it, c[i..])
        invariant forall j :: 0 <= j < i ==> !KeyIs(keyOf, c[j], k)
        decreases |c| - i
      {
        assert it == c[i] && KeyIs(keyOf, c[i], keyOf[it]);
        if keyOf[it] == k {
          return;
        }
        it := hNext[it];
        i := i + 1;
      }
    }

    /**
     _hashitem_before: the cell whose link leads to the key (`NIL` for the bucket itself), so
     that the link can be changed.
     */
    method HashItemBefore(k: K) returns (s: Slot, before: int, it: int, ghost i: nat)
      requires Ok()
      ensures s == Home(View().ph, hash(k)) && s in chains
      ensures k !in contents ==> it == NIL
      ensures k in contents ==> i < |chains[s]| && it == chains[s][i] == contents[k] && KeyIs(keyOf, it, k)
      ensures k in contents ==> before == if i == 0 then NIL else chains[s][i - 1]
    {
      HomeIsEnough(View(), keyOf, hash, chains, contents, k);
      s := Bucket(hash(k));
      ghost var c := chains[s];
      before := NIL;
      it := First(s);
      i := 0;
      while it != NIL && keyOf[it] != k
        invariant 0 <= i <= |c| && IsChain(hNext, it, c[i..])
        invariant it != NIL ==> i < |c| && it == c[i] && 0 <= it < |keyOf|
        invariant before == if i == 0 then NIL else c[i - 1]
        invariant forall j :: 0 <= j < i ==> !KeyIs(keyOf, c[j], k)
        decreases |c| - i
      {
        before := it;
        it := hNext[it];
        i := i + 1;
      }
      assert it != NIL ==> KeyIs(keyOf, c[i], k);
      assert k in contents ==> Mapped(View().ph, keyOf, hash, chains, k, contents[k]);
    }

    /** Taking cell `it` out of bucket `s`, given the cell whose link leads to it. */
    method Unlink(s: Slot, before: int, it: nat)
      requires IsSlot(View(), s) && it < |hNext| && -1 <= before < |hNext| && before != it && hashItems > 0
      modifies this`primary, this`former, this`hNext, this`hashItems
      ensures View() == Bypass(old(View()), s, before, it)
    {
      hashItems := hashItems - 1;
      var nxt := hNext[it];
      hNext := hNext[it := NIL];
      if before == NIL {
        SetFirst(s, nxt);
      } else {
        hNext := hNext[before := nxt];
      }
    }

    /** assoc_delete; its callers delete only what they found. */
    method Delete(k: K)
      requires Ok() && k in contents
      modifies this
      ensures Ok() && contents == old(contents) - {k} && keyOf == old(keyOf)
      ensures View().ph == old(View().ph)
    {
      var s, before, it, i := HashItemBefore(k);
      DeleteKeeps(View(), keyOf, hash, chains, contents, s, i);
      ghost var t, ch, m := RemoveAt(View(), s, chains[s], i), chains[s := chains[s][..i] + chains[s][i + 1..]],
        contents - {k};
      Unlink(s, before, it);
      assert View() == t;
      chains, contents := ch, m;
    }

    /** Putting cell `n` at the head of bucket `s`. */
    method Push(s: Slot, n: nat)
      requires IsSlot(View(), s) && n < |hNext|
      modifies this`primary, this`former, this`hNext
      ensures View() == MoveCell(old(View()), s, n)
    {
      hNext := hNext[n := First(s)];
      SetFirst(s, n);
    }

    /** assoc_insert of cell `n`; the key must not be in the table already. */
    method Insert(n: nat)
      requires Ok() && n < |keyOf| && keyOf[n] !in contents
      modifies this
      ensures Ok() && keyOf == old(keyOf) && contents == old(contents)[keyOf[n] := n]
      ensures View().ph == old(View().ph)
      ensures startedExpanding == (old(startedExpanding) || (!expanding && 2 * |contents| > 3 * Pow2(hashpower)))
    {
      InsertKeeps(View(), keyOf, hash, chains, contents, n);
      var s := Bucket(hash(keyOf[n]));
      Push(s, n);
      hashItems := hashItems + 1;
      assert View() == InsertInto(old(View()), s, n);
      chains, contents := chains[s := [n] + chains[s]], contents[keyOf[n] := n];
      if !expanding && hashItems > Pow2(hashpower) * 3 / 2 {
        startedExpanding := true;
      }
    }

    /** assoc_expand on the two tables; `granted` says whether calloc gave the larger one. */
    method SwapTables(granted: bool)
      modifies this`primary, this`former, this`hashpower, this`expanding, this`expandBucket
      ensures View() == Expand(old(View()), granted)
    {
      former := primary;
      if granted {
        primary := seq(Pow2(hashpower + 1), _ => NIL);
        hashpower, expanding, expandBucket := hashpower + 1, true, 0;
      } else {
        primary := former;
      }
    }

    /** assoc_expand. */
    method GrowTable(granted: bool)
      requires Ok() && !expanding
      modifies this
      ensures Ok() && contents == old(contents) && keyOf == old(keyOf)
      ensures expanding == granted && hashpower == old(hashpower) + (if granted then 1 else 0)
    {
      ghost var ch := if granted then ExpandChains(View(), chains) else chains;
      assert Valid(Expand(View(), granted), keyOf, hash, ch, contents) by {
        if granted {
          ExpandKeeps(View(), keyOf, hash, chains, contents);
        } else {
          ExpandFailureKeeps(View(), keyOf, hash, chains, contents);
        }
      }
      SwapTables(granted);
      chains := ch;
    }

    /** The end of a bucket's migration. */
    method CloseBucket()
      requires Shape(View()) && expanding
      modifies this`former, this`expanding, this`expandBucket
      ensures View() == FinishBucket(old(View()))
    {
      former := former[expandBucket := NIL];
      expandBucket := expandBucket + 1;
      if expandBucket == Pow2(hashpower - 1) {
        expanding := false;
      }
    }

    /** What the maintenance thread does for one bucket once it holds the lock of the bucket's stripe. */
    method MigrateBucket()
      requires Ok() && expanding
      modifies this
      ensures Ok() && contents == old(contents) && keyOf == old(keyOf)
      ensures hashpower >= 1 && View().ph == NextPhase(old(View().ph))
    {
      MigrationStarts(View(), keyOf, hash, chains, contents);
      var it := former[expandBucket];
      ghost var rest := chains[Old(expandBucket)];
      chains := chains - {Old(expandBucket)};
      MoveChain(it, rest);
      MigrationEnds(View(), keyOf, hash, chains, contents, NIL);
      ghost var t, ch := FinishBucket(View()), FinishChains(View(), chains);
      CloseBucket();
      assert View() == t;
      chains := ch;
    }

    /** The migration loop. */
    method MoveChain(first: int, ghost cells: seq<nat>)
      requires Migrating(View(), keyOf, hash, chains, contents, first, cells)
      modifies this
      ensures View().ph == old(View().ph) && keyOf == old(keyOf) && contents == old(contents)
      ensures Migrating(View(), keyOf, hash, chains, contents, NIL, [])
    {
      var it := first;
      ghost var rest, ph, keys, goal := cells, View().ph, keyOf, contents;
      while it != NIL
        invariant View().ph == ph && keyOf == keys && contents == goal
        invariant Migrating(View(), keyOf, hash, chains, contents, it, rest)
        decreases |rest|
      {
        it := MoveOne(it, rest);
        rest := rest[1..];
      }
    }

    /** The body of the migration loop. */
    method MoveOne(it: int, ghost rest: seq<nat>) returns (next: int)
      requires Migrating(View(), keyOf, hash, chains, contents, it, rest) && it != NIL
      modifies this
      ensures rest != [] && View().ph == old(View().ph) && keyOf == old(keyOf) && contents == old(contents)
      ensures Migrating(View(), keyOf, hash, chains, contents, next, rest[1..])
    {
      MigrationMoves(View(), keyOf, hash, chains, contents, it, rest);
      next := hNext[it];
      var s := Prim(Low(hash(keyOf[it]), hashpower));
      Push(s, it);
      chains := chains[s := [it] + chains[s]];
    }
  }
}
