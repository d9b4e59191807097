/**
 The metadata cells (items.c): a fixed pool, a doubly linked freelist threaded through it,
 and a reference count per cell that decides when a cell goes back.
 */
module Cells {
  import opened Common
  import Runs

  /** Largest value of the unsigned short that holds a reference count. */
  const MAX_REF: nat := 65535

  /** Per cell: next_free, prev_free, ITEM_SLABBED, ITEM_LINKED and refcount; `first` is first_free_freelist_item. */
  datatype Pool = Pool(next: seq<int>, prev: seq<int>, first: int, slabbed: seq<bool>, linked: seq<bool>,
                       refs: seq<nat>)

  predicate Sized(p: Pool) {
    var n := |p.next|;
    && |p.prev| == n && |p.slabbed| == n && |p.linked| == n && |p.refs| == n && -1 <= p.first < n
    && forall i :: 0 <= i < n ==> -1 <= p.next[i] < n
  }

  function Up(x: nat): nat {
    if x == MAX_REF then 0 else x + 1
  }

  function Down(x: nat): nat {
    if x == 0 then MAX_REF else x - 1
  }

  // ------------------------------------------------- the operations

  /** do_freelist_alloc on a list that is not empty. */
  function TakeFree(p: Pool): (r: Pool)
    requires Sized(p) && p.first != NIL
    ensures Sized(r) && |r.next| == |p.next|
  {
    var it := p.first;
    var nx := p.next[it];
    p.(first := nx, prev := if nx != NIL then p.prev[nx := NIL] else p.prev,
       slabbed := p.slabbed[it := false], refs := p.refs[it := 1])
  }

  /** do_freelist_free. */
  function PutFree(p: Pool, c: nat): (r: Pool)
    requires Sized(p) && c < |p.next|
    ensures Sized(r) && |r.next| == |p.next|
  {
    var prev := p.prev[c := NIL];
    p.(slabbed := p.slabbed[c := true], linked := p.linked[c := false], next := p.next[c := p.first],
       prev := if p.first != NIL then prev[p.first := c] else prev, first := c)
  }

  /** do_item_remove: drop one reference; at zero, item_free. */
  function Remove(p: Pool, c: nat): (r: Pool)
    requires Sized(p) && c < |p.next|
    ensures Sized(r) && |r.next| == |p.next|
  {
    var q := p.(refs := p.refs[c := Down(p.refs[c])]);
    if q.refs[c] == 0 then PutFree(q, c) else q
  }

  /** The reference taken by do_item_get when assoc_find has found the cell. */
  function Get(p: Pool, c: nat): (r: Pool)
    requires Sized(p) && c < |p.next|
    ensures Sized(r) && |r.next| == |p.next|
  {
    p.(refs := p.refs[c := Up(p.refs[c])])
  }

  /** do_item_link, as far as the cell goes. */
  function Link(p: Pool, c: nat): (r: Pool)
    requires Sized(p) && c < |p.next|
    ensures Sized(r) && |r.next| == |p.next|
  {
    p.(linked := p.linked[c := true], refs := p.refs[c := Up(p.refs[c])])
  }

  /** do_item_unlink and do_item_unlink_nolock. */
  function Unlink(p: Pool, c: nat): (r: Pool)
    requires Sized(p) && c < |p.next|
    ensures Sized(r) && |r.next| == |p.next|
  {
    if p.linked[c] then Remove(p.(linked := p.linked[c := false]), c) else p
  }

  /** do_item_replace. */
  function Replace(p: Pool, c: nat, d: nat): (r: Pool)
    requires Sized(p) && c < |p.next| && d < |p.next|
    ensures Sized(r) && |r.next| == |p.next|
  {
    Link(Unlink(p, c), d)
  }

  // ------------------------------------------------- the freelist

  ghost predicate NodeOk(p: Pool, free: seq<nat>, i: nat)
    requires Sized(p) && i < |free|
  {
    && free[i] < |p.next|
    && p.next[free[i]] == (if i + 1 < |free| then free[i + 1] else NIL)
    && p.prev[free[i]] == (if i > 0 then free[i - 1] else NIL)
  }

  /** The freelist is the doubly linked list of the cells `free`. */
  ghost predicate ListOk(p: Pool, free: seq<nat>)
    requires Sized(p)
  {
    && p.first == (if free == [] then NIL else free[0]) && Distinct(free)
    && forall i {:trigger NodeOk(p, free, i)} :: 0 <= i < |free| ==> NodeOk(p, free, i)
  }

  lemma TakeFreeList(p: Pool, free: seq<nat>)
    requires Sized(p) && ListOk(p, free) && free != []
    ensures p.first == free[0] && ListOk(TakeFree(p), free[1..])
  {
    var q := TakeFree(p);
    assert NodeOk(p, free, 0);
    forall i | 0 <= i < |free| - 1
      ensures NodeOk(q, free[1..], i)
    {
      assert NodeOk(p, free, i + 1);
    }
  }

  lemma PutFreeList(p: Pool, free: seq<nat>, c: nat)
    requires Sized(p) && ListOk(p, free) && c < |p.next| && c !in free
    ensures ListOk(PutFree(p, c), [c] + free)
  {
    var q := PutFree(p, c);
    var free' := [c] + free;
    forall i | 0 <= i < |free'|
      ensures NodeOk(q, free', i)
    {
      if i > 0 {
        assert NodeOk(p, free, i - 1);
        assert free'[i] == free[i - 1];
        assert i + 1 < |free'| ==> free'[i + 1] == free[i];
        assert i > 1 ==> free'[i - 1] == free[i - 2];
      }
    }
  }

  /** Changing flags and counts does not touch the list. */
  lemma ListFrame(p: Pool, q: Pool, free: seq<nat>)
    requires Sized(p) && Sized(q) && ListOk(p, free) && q.next == p.next && q.prev == p.prev && q.first == p.first
    ensures ListOk(q, free)
  {
    forall i | 0 <= i < |free|
      ensures NodeOk(q, free, i)
    {
      assert NodeOk(p, free, i);
    }
  }

  // ------------------------------------------------- the invariant

  /** The pool; then the freelist in order and the references handed out, one entry per reference. */
  datatype State = State(p: Pool, free: seq<nat>, held: multiset<nat>)

  ghost predicate CellOk(st: State, c: nat)
    requires Sized(st.p) && c < |st.p.next|
  {
    && (st.p.slabbed[c] <==> c in st.free)
    && (c in st.free <==> !st.p.linked[c] && st.held[c] == 0)
    && st.p.refs[c] == st.held[c] + (if st.p.linked[c] then 1 else 0)
    && st.held[c] < MAX_REF
  }

  ghost predicate Inv(st: State) {
    && Sized(st.p) && ListOk(st.p, st.free)
    && (forall c {:trigger CellOk(st, c)} :: 0 <= c < |st.p.next| ==> CellOk(st, c))
  }

  datatype Step =
    Alloc | Taken(c: nat) | Linking(c: nat) | Unlinking(c: nat) | Replacing(c: nat, d: nat) | Release(c: nat)

  /**
   A caller gets what is linked, links and releases what it holds, and does not link a cell
   twice; at most MAX_REF - 1 holders at once.
   */
  predicate Enabled(st: State, step: Step) {
    match step
    case Alloc => true
    case Taken(c) => c < |st.p.linked| && st.p.linked[c] && st.held[c] + 1 < MAX_REF
    case Linking(c) => c < |st.p.linked| && !st.p.linked[c] && st.held[c] > 0
    case Unlinking(c) => c < |st.p.linked|
    case Replacing(c, d) =>
      && c < |st.p.linked| && d < |st.p.linked| && !st.p.linked[d] && st.held[d] > 0
      && (st.p.linked[c] || st.held[c] > 0)
    case Release(c) => c < |st.p.linked| && st.held[c] > 0
  }

  function Dropped(st: State, c: nat, q: Pool, held: multiset<nat>): State
    requires c < |q.slabbed| && c < |st.p.slabbed|
  {
    State(q, if q.slabbed[c] && !st.p.slabbed[c] then [c] + st.free else st.free, held)
  }

  function Apply(st: State, step: Step): State
    requires Sized(st.p) && Enabled(st, step)
  {
    match step
    case Alloc =>
      if st.p.first == NIL || st.free == [] then st
      else State(TakeFree(st.p), st.free[1..], st.held + multiset{st.free[0]})
    case Taken(c) => st.(p := Get(st.p, c), held := st.held + multiset{c})
    case Linking(c) => st.(p := Link(st.p, c))
    case Unlinking(c) => Dropped(st, c, Unlink(st.p, c), st.held)
    case Replacing(c, d) => Dropped(st, c, Unlink(st.p, c), st.held).(p := Replace(st.p, c, d))
    case Release(c) => Dropped(st, c, Remove(st.p, c), st.held - multiset{c})
  }

  lemma AllocKeeps(st: State)
    requires Inv(st)
    ensures Inv(Apply(st, Alloc))
  {
    if st.free != [] {
      TakeFreeList(st.p, st.free);
      var st' := Apply(st, Alloc);
      var it := st.free[0];
      assert NodeOk(st.p, st.free, 0);
      forall c | 0 <= c < |st.p.next|
        ensures CellOk(st', c)
      {
        assert CellOk(st, c);
        assert c in st.free <==> c == it || c in st'.free;
      }
    }
  }

  lemma CountKeeps(st: State, st': State, c: nat)
    requires Inv(st) && Sized(st'.p) && st'.free == st.free
    requires st'.p.next == st.p.next && st'.p.prev == st.p.prev && st'.p.first == st.p.first
             && st'.p.slabbed == st.p.slabbed
    requires c < |st.p.next| && CellOk(st', c)
    requires forall x :: 0 <= x < |st.p.next| && x != c ==>
               st'.held[x] == st.held[x] && st'.p.linked[x] == st.p.linked[x] && st'.p.refs[x] == st.p.refs[x]
    ensures Inv(st')
  {
    ListFrame(st.p, st'.p, st.free);
    forall x | 0 <= x < |st.p.next|
      ensures CellOk(st', x)
    {
      assert CellOk(st, x);
    }
  }

  /** Dropping the last reference to an unlinked cell, or one of several. */
  lemma RemoveKeeps(st: State, q: Pool, held: multiset<nat>, c: nat)
    requires Inv(st) && c < |st.p.next| && c !in st.free && Sized(q)
    requires q.next == st.p.next && q.prev == st.p.prev && q.first == st.p.first && q.slabbed == st.p.slabbed
    requires q.refs == st.p.refs && q.refs[c] > 0
    requires q.refs[c] - 1 == held[c] + (if q.linked[c] then 1 else 0) && held[c] < MAX_REF
    requires forall x :: 0 <= x < |st.p.next| && x != c ==> held[x] == st.held[x] && q.linked[x] == st.p.linked[x]
    ensures Inv(Dropped(st, c, Remove(q, c), held))
  {
    var st' := Dropped(st, c, Remove(q, c), held);
    assert CellOk(st, c);
    var r := q.(refs := q.refs[c := q.refs[c] - 1]);
    ListFrame(st.p, r, st.free);
    if r.refs[c] == 0 {
      PutFreeList(r, st.free, c);
      assert st'.free == [c] + st.free;
    }
    forall x | 0 <= x < |st.p.next|
      ensures CellOk(st', x)
    {
      assert CellOk(st, x);
    }
  }

  lemma UnlinkKeeps(st: State, c: nat)
    requires Inv(st) && c < |st.p.next|
    ensures Inv(Dropped(st, c, Unlink(st.p, c), st.held))
  {
    assert CellOk(st, c);
    if st.p.linked[c] {
      RemoveKeeps(st, st.p.(linked := st.p.linked[c := false]), st.held, c);
    } else {
      assert Dropped(st, c, Unlink(st.p, c), st.held) == st;
    }
  }

  lemma LinkKeeps(st: State, c: nat)
    requires Inv(st) && Enabled(st, Linking(c))
    ensures Inv(st.(p := Link(st.p, c)))
  {
    assert CellOk(st, c);
    CountKeeps(st, st.(p := Link(st.p, c)), c);
  }

  lemma StepKeeps(st: State, step: Step)
    requires Inv(st) && Enabled(st, step)
    ensures Inv(Apply(st, step))
  {
    match step {
      case Alloc => AllocKeeps(st);
      case Taken(c) =>
        assert CellOk(st, c);
        CountKeeps(st, Apply(st, step), c);
      case Linking(c) => LinkKeeps(st, c);
      case Unlinking(c) => UnlinkKeeps(st, c);
      case Replacing(c, d) =>
        assert CellOk(st, c) && CellOk(st, d);
        UnlinkKeeps(st, c);
        LinkKeeps(Dropped(st, c, Unlink(st.p, c), st.held), d);
      case Release(c) =>
        assert CellOk(st, c);
        RemoveKeeps(st, st.p, st.held - multiset{c}, c);
    }
  }

  // ------------------------------------------------- every run

  /** freelist_init leaves every cell on the list, the last one first. */
  function Descending(n: nat): (r: seq<nat>)
    ensures |r| == n && forall i :: 0 <= i < n ==> r[i] == n - 1 - i
  {
    seq(n, i requires 0 <= i < n => n - 1 - i)
  }

  ghost predicate Start(st: State) {
    var n := |st.p.next|;
    && Sized(st.p) && ListOk(st.p, st.free) && st.free == Descending(n) && st.held == multiset{}
    && forall c :: 0 <= c < n ==> st.p.slabbed[c] && !st.p.linked[c] && st.p.refs[c] == 0
  }

  ghost predicate Next(st: State, step: Step, st': State) {
    Sized(st.p) && Enabled(st, step) && st' == Apply(st, step)
  }

  lemma StartHolds(st: State)
    requires Start(st)
    ensures Inv(st)
  {
    forall c | 0 <= c < |st.p.next|
      ensures CellOk(st, c)
    {
      assert st.free[|st.p.next| - 1 - c] == c;
    }
  }

  lemma RunKeeps(states: seq<State>, steps: seq<Step>, n: nat)
    requires Runs.IsRun(Start, Next, states, steps) && n < |states|
    ensures Inv(states[n])
  {
    forall s | Start(s)
      ensures Inv(s)
    {
      StartHolds(s);
    }
    forall s, step, s' | Inv(s) && Next(s, step, s')
      ensures Inv(s')
    {
      StepKeeps(s, step);
    }
    Runs.Invariance(Start, Next, Inv, states, steps, n);
  }

  /**
   In every state of every run a cell is on the freelist, once, exactly when nothing refers to
   it; its count is exact.
   */
  lemma CountsAreExact(states: seq<State>, steps: seq<Step>, n: nat, c: nat)
    requires Runs.IsRun(Start, Next, states, steps) && n < |states| && c < |states[n].p.next|
    ensures Sized(states[n].p)
    ensures var st := states[n];
            && st.p.refs[c] == st.held[c] + (if st.p.linked[c] then 1 else 0)
            && (c in st.free <==> !st.p.linked[c] && st.held[c] == 0)
            && (st.p.slabbed[c] <==> c in st.free)
    ensures var free := states[n].free;
            forall i, j :: 0 <= i < |free| && 0 <= j < |free| && free[i] == free[j] ==> i == j
  {
    RunKeeps(states, steps, n);
    assert CellOk(states[n], c);
  }

  // ------------------------------------------------- a reference that is never released

  /** References to `c` that a step hands out, less those it takes back. */
  function Balance(st: State, step: Step, c: nat): int {
    match step
    case Alloc => if st.p.first == c then 1 else 0
    case Taken(x) => if x == c then 1 else 0
    case Release(x) => if x == c then -1 else 0
    case _ => 0
  }

  function Balances(states: seq<State>, steps: seq<Step>, c: nat): int
    requires |states| >= |steps|
  {
    if steps == [] then 0
    else Balance(states[|steps| - 1], steps[|steps| - 1], c) + Balances(states[..|steps| - 1], steps[..|steps| - 1], c)
  }

  lemma BalanceIsHeld(st: State, step: Step, c: nat)
    requires Inv(st) && Enabled(st, step)
    ensures Apply(st, step).held[c] == st.held[c] + Balance(st, step, c)
  {
    if step == Alloc && st.free != [] {
      assert st.p.first == st.free[0];
    }
  }

  /** References are conserved: what is held is what was handed out and not taken back. */
  lemma {:induction false} ReferencesConserved(states: seq<State>, steps: seq<Step>, n: nat, c: nat)
    requires Runs.IsRun(Start, Next, states, steps) && n < |states|
    ensures states[n].held[c] == Balances(states[..n], steps[..n], c)
  {
    if n > 0 {
      ReferencesConserved(states, steps, n - 1, c);
      RunKeeps(states, steps, n - 1);
      assert Next(states[n - 1], steps[n - 1], states[n - 1 + 1]);
      BalanceIsHeld(states[n - 1], steps[n - 1], c);
      assert states[..n][..n - 1] == states[..n - 1] && steps[..n][..n - 1] == steps[..n - 1];
    }
  }

  /**
   In every state of every run a cell is on the freelist exactly when it is not linked and
   every reference handed out to it was taken back. A reference that is never released keeps
   its cell off the freelist for good.
   */
  lemma FreeIffReleased(states: seq<State>, steps: seq<Step>, n: nat, c: nat)
    requires Runs.IsRun(Start, Next, states, steps) && n < |states| && c < |states[n].p.next|
    ensures Sized(states[n].p) && Balances(states[..n], steps[..n], c) >= 0
    ensures c in states[n].free <==> !states[n].p.linked[c] && Balances(states[..n], steps[..n], c) == 0
  {
    ReferencesConserved(states, steps, n, c);
    CountsAreExact(states, steps, n, c);
  }

  // ------------------------------------------------- items.c in place

  class CellPool {
    var next: seq<int>
    var prev: seq<int>
    var first: int
    var slabbed: seq<bool>
    var linked: seq<bool>
    var refs: seq<nat>
    ghost var free: seq<nat>
    ghost var held: multiset<nat>

    function View(): Pool
      reads this
    {
      Pool(next, prev, first, slabbed, linked, refs)
    }

    ghost function Now(): State
      reads this
    {
      State(View(), free, held)
    }

    /** freelist_init: the cells are zeroed, then pushed on the list one by one. */
    constructor (n: nat)
      ensures Start(Now()) && |next| == n
    {
      next, prev, first := seq(n, _ => NIL), seq(n, _ => NIL), NIL;
      slabbed, linked, refs := seq(n, _ => false), seq(n, _ => false), seq(n, _ => 0);
      free, held := Descending(n), multiset{};
      new;
      var x := 0;
      while x < n
        invariant 0 <= x <= n == |next| && |prev| == n && |slabbed| == n && |linked| == n && |refs| == n
        invariant first == x - 1 && free == Descending(n) && held == multiset{}
        invariant forall i :: 0 <= i < x ==>
                    next[i] == i - 1 && slabbed[i] && prev[i] == if i + 1 < x then i + 1 else NIL
        invariant forall i :: x <= i < n ==> next[i] == NIL && prev[i] == NIL
        invariant forall i :: 0 <= i < n ==> !linked[i] && refs[i] == 0
      {
        slabbed := slabbed[x := true];
        prev := prev[x := NIL];
        if x == 0 {
          next := next[x := NIL];
        } else {
          next := next[x := x - 1];
          prev := prev[x - 1 := x];
        }
        first := x;
        x := x + 1;
      }
      forall i | 0 <= i < |free|
        ensures NodeOk(View(), free, i)
      {
        assert free[i] == n - 1 - i;
      }
    }

    /** do_freelist_alloc. */
    method FreelistAlloc() returns (c: int)
      requires Inv(Now())
      modifies this
      ensures Inv(Now()) && Now() == Apply(old(Now()), Alloc)
      ensures c == NIL <==> old(free) == []
      ensures c != NIL ==> c == old(free)[0] && held == old(held) + multiset{c} && refs[c] == 1
    {
      StepKeeps(Now(), Alloc);
      if first == NIL {
        return NIL;
      }
      c := first;
      assert NodeOk(View(), free, 0) && CellOk(Now(), c);
      first := next[c];
      if next[c] != NIL {
        prev := prev[next[c] := NIL];
      }
      slabbed, refs := slabbed[c := false], refs[c := 1];
      free, held := free[1..], held + multiset{c};
    }

    /** do_freelist_free. */
    method FreelistFree(c: nat)
      requires Sized(View()) && c < |next|
      modifies this`next, this`prev, this`first, this`slabbed, this`linked
      ensures View() == PutFree(old(View()), c)
    {
      slabbed, linked := slabbed[c := true], linked[c := false];
      prev := prev[c := NIL];
      next := next[c := first];
      if next[c] != NIL {
        prev := prev[next[c] := c];
      }
      first := c;
    }

    /** do_item_remove, with the assertions of do_item_remove and item_free. */
    method DropReference(c: nat)
      requires Sized(View()) && c < |next| && !slabbed[c] && refs[c] > 0 && (refs[c] == 1 ==> !linked[c])
      modifies this`next, this`prev, this`first, this`slabbed, this`linked, this`refs
      ensures View() == Remove(old(View()), c)
    {
      refs := refs[c := Down(refs[c])];
      if refs[c] == 0 {
        assert !linked[c];
        FreelistFree(c);
      }
    }

    /** do_item_remove by a holder. */
    method ReleaseItem(c: nat)
      requires Inv(Now()) && Enabled(Now(), Release(c))
      modifies this
      ensures Inv(Now()) && Now() == Apply(old(Now()), Release(c))
    {
      StepKeeps(Now(), Release(c));
      assert CellOk(Now(), c);
      ghost var st := Now();
      DropReference(c);
      free, held := Dropped(st, c, View(), st.held - multiset{c}).free, held - multiset{c};
    }

    /** do_item_get on the cell that assoc_find returned. */
    method GetItem(c: nat)
      requires Inv(Now()) && Enabled(Now(), Taken(c))
      modifies this
      ensures Inv(Now()) && Now() == Apply(old(Now()), Taken(c))
    {
      StepKeeps(Now(), Taken(c));
      refs := refs[c := Up(refs[c])];
      held := held + multiset{c};
    }

    /** do_item_link, with its assertion. */
    method LinkItem(c: nat)
      requires Inv(Now()) && Enabled(Now(), Linking(c))
      modifies this
      ensures Inv(Now()) && Now() == Apply(old(Now()), Linking(c))
    {
      StepKeeps(Now(), Linking(c));
      assert !linked[c] && !slabbed[c] by {
        assert CellOk(Now(), c);
      }
      linked := linked[c := true];
      refs := refs[c := Up(refs[c])];
    }

    /** do_item_unlink. */
    method UnlinkItem(c: nat)
      requires Inv(Now()) && Enabled(Now(), Unlinking(c))
      modifies this
      ensures Inv(Now()) && Now() == Apply(old(Now()), Unlinking(c))
    {
      StepKeeps(Now(), Unlinking(c));
      assert CellOk(Now(), c);
      ghost var st := Now();
      if linked[c] {
        linked := linked[c := false];
        DropReference(c);
      }
      free := Dropped(st, c, View(), st.held).free;
    }

    /** do_item_replace, with its assertion. */
    method ReplaceItem(c: nat, d: nat)
      requires Inv(Now()) && Enabled(Now(), Replacing(c, d))
      modifies this
      ensures Inv(Now()) && Now() == Apply(old(Now()), Replacing(c, d))
    {
      assert CellOk(Now(), c) && CellOk(Now(), d);
      assert !slabbed[c];
      UnlinkItem(c);
      assert CellOk(Now(), d);
      LinkItem(d);
    }
  }
}
