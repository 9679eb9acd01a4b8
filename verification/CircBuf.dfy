/**
 circbuf: cells on three circular doubly linked lists with sentinels (active, free,
 prepared), relinked in place. Pushing is two-phase: prepare takes a cell, commit
 makes it the newest active one or rollback frees it.
 */
module CircBuf {
  import opened Chunks

  class Cell<T> {
    var next: Cell<T>
    var prev: Cell<T>
    var value: T

    constructor (v: T)
      ensures next == this && prev == this && value == v
    {
      next := this;
      prev := this;
      value := v;
    }

    /** link_after: puts it behind this cell, the sentinel of the list ns. */
    method LinkAfter(it: Cell<T>, ghost ns: seq<Cell<T>>)
      requires Ring(this, ns) && it != this && it !in ns
      modifies this`next, it`next, it`prev, next`prev
      ensures Ring(this, [it] + ns)
    {
      it.next := next;
      it.prev := this;
      next.prev := it;
      next := it;
    }

    /** unlink_before: takes out the cell before this one, the sentinel of the list ns. */
    method UnlinkBefore(ghost ns: seq<Cell<T>>) returns (r: Cell?<T>)
      requires Ring(this, ns)
      modifies this`prev, prev.prev`next
      ensures |ns| == 0 ==> r == null && Ring(this, ns)
      ensures |ns| > 0 ==> r == ns[|ns| - 1] && Ring(this, ns[..|ns| - 1])
    {
      r := prev;
      if prev == this {
        return null;
      }
      prev := prev.prev;
      prev.next := this;
    }
  }

  /** The cell at position i of a ring: the sentinel at both ends. */
  ghost function On<T>(h: Cell<T>, ns: seq<Cell<T>>, i: int): Cell<T> {
    if 0 <= i < |ns| then ns[i] else h
  }

  /** Following next from the sentinel h gives ns and comes back; prev is the reverse. */
  ghost predicate Ring<T>(h: Cell<T>, ns: seq<Cell<T>>)
    reads h, ns
  {
    && h !in ns
    && (forall i, j :: 0 <= i < j < |ns| ==> ns[i] != ns[j])
    && h.next == On(h, ns, 0) && h.prev == On(h, ns, |ns| - 1)
    && (forall i {:trigger ns[i].next} :: 0 <= i < |ns| ==> ns[i].next == On(h, ns, i + 1))
    && (forall i {:trigger ns[i].prev} :: 0 <= i < |ns| ==> ns[i].prev == On(h, ns, i - 1))
  }

  /** The values of a list from its last cell to its first. */
  ghost function OldestFirst<T>(ns: seq<Cell<T>>): seq<T>
    reads ns`value
  {
    if ns == [] then [] else [ns[|ns| - 1].value] + OldestFirst(ns[..|ns| - 1])
  }

  lemma {:induction false} OldestFirstCons<T>(it: Cell<T>, ns: seq<Cell<T>>)
    ensures OldestFirst([it] + ns) == OldestFirst(ns) + [it.value]
  {
    if ns == [] {
      assert ([it] + ns)[..0] == [];
    } else {
      var n := |ns| - 1;
      assert ([it] + ns)[..n + 1] == [it] + ns[..n];
      OldestFirstCons(it, ns[..n]);
    }
  }

  /** The lists a and b, with sentinels h and k, share no cell. */
  ghost predicate Apart<T>(h: Cell<T>, a: seq<Cell<T>>, k: Cell<T>, b: seq<Cell<T>>) {
    h != k && h !in b && k !in a && forall i, j :: 0 <= i < |a| && 0 <= j < |b| ==> a[i] != b[j]
  }

  /** Three lists with every cell on at most one of them. */
  ghost predicate Three<T>(h: Cell<T>, a: seq<Cell<T>>, k: Cell<T>, b: seq<Cell<T>>, t: Cell<T>, z: seq<Cell<T>>)
    reads h, k, t, a, b, z
  {
    Ring(h, a) && Ring(k, b) && Ring(t, z) && Apart(h, a, k, b) && Apart(h, a, t, z) && Apart(k, b, t, z)
  }

  /** unlink_before on h, then link_after on k: the oldest cell of h becomes the newest of k. */
  method Move<T>(h: Cell<T>, ghost a: seq<Cell<T>>, k: Cell<T>, ghost b: seq<Cell<T>>,
                 ghost t: Cell<T>, ghost z: seq<Cell<T>>)
    returns (c: Cell<T>)
    requires Three(h, a, k, b, t, z) && |a| > 0
    modifies h`next, h`prev, k`next, k`prev, a`next, a`prev, b`next, b`prev
    ensures c == a[|a| - 1] && Three(h, a[..|a| - 1], k, [c] + b, t, z)
  {
    var r := h.UnlinkBefore(a);
    c := r;
    k.LinkAfter(c, b);
  }

  /** A new cell linked after k. */
  method Insert<T>(dflt: T, k: Cell<T>, ghost b: seq<Cell<T>>, ghost h: Cell<T>, ghost a: seq<Cell<T>>,
                   ghost t: Cell<T>, ghost z: seq<Cell<T>>)
    returns (c: Cell<T>)
    requires Three(h, a, k, b, t, z)
    modifies k`next, k`prev, b`next, b`prev
    ensures fresh(c) && Three(h, a, k, [c] + b, t, z)
  {
    c := new Cell(dflt);
    k.LinkAfter(c, b);
  }

  /** The order of the lists does not matter. */
  lemma Turned<T>(h: Cell<T>, a: seq<Cell<T>>, k: Cell<T>, b: seq<Cell<T>>, t: Cell<T>, z: seq<Cell<T>>)
    requires Three(h, a, k, b, t, z)
    ensures Three(k, b, t, z, h, a) && Three(k, b, h, a, t, z)
  {
  }

  // ---- the counters ----

  /** How many cells are active, free and prepared, and the counters n_items_ and size_. */
  datatype Tally = Tally(active: nat, free: nat, prep: nat, n: nat, size: nat)

  /** What the counters promise of a buffer for max items. */
  ghost predicate Counts(t: Tally, max: nat) {
    && t.active + t.free + t.prep == t.size <= max && max > 0 && t.prep <= 1
    && t.active <= t.n <= t.active + 1 && t.n <= max
    && (t.n == t.active + 1 ==> t.size == max)
  }

  datatype Use = Preparing | Committing | RollingBack | Popping

  /** At most one cell is outstanding, and a pop finds an active item. */
  predicate Allowed(t: Tally, u: Use) {
    (u.Preparing? ==> t.prep == 0) && (u.Popping? ==> t.active > 0 && t.n > 0)
  }

  /** prepare finds no free cell and no room: the oldest active item goes. */
  predicate Evicts(t: Tally, max: nat, u: Use) {
    u.Preparing? && t.free == 0 && t.n >= max
  }

  /** commit finds n_items_ at max_ already. */
  predicate CommitsFull(t: Tally, max: nat, u: Use) {
    u.Committing? && t.prep > 0 && t.n == max
  }

  function Used(t: Tally, max: nat, u: Use): Tally
    requires Allowed(t, u)
  {
    match u
    case Preparing =>
      if t.free > 0 then t.(free := t.free - 1, prep := t.prep + 1)
      else if t.n < max then t.(prep := t.prep + 1, size := t.size + 1)
      else t.(active := if t.active > 0 then t.active - 1 else 0, prep := t.prep + 1)
    case Committing =>
      if t.prep == 0 then t
      else t.(prep := t.prep - 1, active := t.active + 1, n := if t.n + 1 > max then max else t.n + 1)
    case RollingBack => if t.prep == 0 then t else t.(prep := t.prep - 1, free := t.free + 1)
    case Popping => t.(active := t.active - 1, free := t.free + 1, n := t.n - 1)
  }

  /** A reception: prepare, then commit or rollback. */
  function Received(t: Tally, max: nat, arrived: bool): Tally
    requires t.prep == 0
  {
    Used(Used(t, max, Preparing), max, if arrived then Committing else RollingBack)
  }

  /** n_items() is the number of active items, as it is documented to be. */
  predicate Exact(t: Tally) {
    t.n == t.active
  }

  lemma UseKeepsCounts(t: Tally, max: nat, u: Use)
    requires Counts(t, max) && Allowed(t, u)
    ensures Counts(Used(t, max, u), max) && (Evicts(t, max, u) ==> t.active > 0)
  {
  }

  /**
   n_items() is exact after an operation exactly if it was before and no item was evicted, or the
   operation commits to a full buffer.
   */
  lemma ExactLaw(t: Tally, max: nat, u: Use)
    requires Counts(t, max) && Allowed(t, u)
    ensures Exact(Used(t, max, u)) <==> (Exact(t) && !Evicts(t, max, u)) || CommitsFull(t, max, u)
    ensures CommitsFull(t, max, u) ==> !Exact(t)
    ensures u.RollingBack? || u.Popping? ==> Used(t, max, u).n - Used(t, max, u).active == t.n - t.active
  {
  }

  const UNUSED := Tally(0, 0, 0, 0, 0)

  ghost predicate IsRun(us: seq<Use>, max: nat)
    decreases |us|, 0
  {
    |us| > 0 ==> IsRun(us[..|us| - 1], max) && Allowed(After(us[..|us| - 1], max), us[|us| - 1])
  }

  ghost function After(us: seq<Use>, max: nat): Tally
    requires IsRun(us, max)
    decreases |us|, 1
  {
    if |us| == 0 then UNUSED else Used(After(us[..|us| - 1], max), max, us[|us| - 1])
  }

  /** An item was evicted, and no commit since then found the buffer full. */
  ghost predicate EvictedSince(us: seq<Use>, max: nat)
    requires IsRun(us, max)
  {
    |us| > 0 &&
    var before, u := us[..|us| - 1], us[|us| - 1];
    Evicts(After(before, max), max, u) || (EvictedSince(before, max) && !CommitsFull(After(before, max), max, u))
  }

  /** In every run the counters keep their promise, and n_items() is exact unless an evicted item still counts. */
  lemma {:induction false} RunCounts(us: seq<Use>, max: nat)
    requires max > 0 && IsRun(us, max)
    ensures Counts(After(us, max), max) && (Exact(After(us, max)) <==> !EvictedSince(us, max))
  {
    if |us| > 0 {
      var before, u := us[..|us| - 1], us[|us| - 1];
      RunCounts(before, max);
      UseKeepsCounts(After(before, max), max, u);
      ExactLaw(After(before, max), max, u);
    }
  }

  /**
   In every run the handlers' test n_items() > 0 finds an active item, unless the one item counted is an
   evicted one.
   */
  lemma GuardFindsItem(us: seq<Use>, max: nat)
    requires max > 0 && IsRun(us, max)
    ensures var t := After(us, max);
            (t.n > 0 ==> t.active > 0) <==> !(EvictedSince(us, max) && t.n == 1)
  {
    RunCounts(us, max);
  }

  lemma OneMore(us: seq<Use>, max: nat, u: Use)
    requires IsRun(us, max) && Allowed(After(us, max), u)
    ensures IsRun(us + [u], max) && After(us + [u], max) == Used(After(us, max), max, u)
  {
    assert (us + [u])[..|us|] == us;
  }

  /** n items prepared and committed. */
  lemma {:induction false} Filled(max: nat, n: nat) returns (us: seq<Use>)
    requires n <= max
    ensures IsRun(us, max) && After(us, max) == Tally(n, 0, 0, n, n)
  {
    us := [];
    if n > 0 {
      us := Filled(max, n - 1);
      OneMore(us, max, Preparing);
      OneMore(us + [Preparing], max, Committing);
      us := us + [Preparing] + [Committing];
    }
  }

  /** ... and k of them popped, once one more was prepared and rolled back. */
  lemma {:induction false} Drained(max: nat, k: nat) returns (us: seq<Use>)
    requires 0 < max && k < max
    ensures IsRun(us, max) && After(us, max) == Tally(max - 1 - k, 1 + k, 0, max - k, max)
  {
    if k == 0 {
      us := Filled(max, max);
      OneMore(us, max, Preparing);
      OneMore(us + [Preparing], max, RollingBack);
      us := us + [Preparing] + [RollingBack];
    } else {
      us := Drained(max, k - 1);
      OneMore(us, max, Popping);
      us := us + [Popping];
    }
  }

  /** A buffer of any size reaches n_items() == 1 with no active and no outstanding item. */
  lemma GuardCanFail(max: nat) returns (us: seq<Use>)
    requires max > 0
    ensures IsRun(us, max) && After(us, max) == Tally(0, max, 0, 1, max)
  {
    us := Drained(max, max - 1);
  }

  // ---- the lists ----

  /** Active, free and prepared cells, newest first; the values committed and the values gone, in order. */
  datatype Lists<T> = Lists(
    active: seq<Cell<T>>, free: seq<Cell<T>>, prep: seq<Cell<T>>, committed: seq<T>, left: seq<T>)

  ghost function CellsOf<T>(g: Lists<T>): set<Cell<T>> {
    (set c | c in g.active) + (set c | c in g.free) + (set c | c in g.prep)
  }

  ghost function FreeToPrep<T>(g: Lists<T>): Lists<T>
    requires |g.free| > 0
  {
    var n := |g.free| - 1;
    g.(free := g.free[..n], prep := [g.free[n]] + g.prep)
  }

  ghost function ActiveToPrep<T>(g: Lists<T>, v: T): Lists<T>
    requires |g.active| > 0
  {
    var n := |g.active| - 1;
    g.(active := g.active[..n], prep := [g.active[n]] + g.prep, left := g.left + [v])
  }

  ghost function PrepToActive<T>(g: Lists<T>, v: T): Lists<T>
    requires |g.prep| > 0
  {
    var n := |g.prep| - 1;
    g.(active := [g.prep[n]] + g.active, prep := g.prep[..n], committed := g.committed + [v])
  }

  ghost function PrepToFree<T>(g: Lists<T>): Lists<T>
    requires |g.prep| > 0
  {
    var n := |g.prep| - 1;
    g.(free := [g.prep[n]] + g.free, prep := g.prep[..n])
  }

  ghost function ActiveToFree<T>(g: Lists<T>, v: T): Lists<T>
    requires |g.active| > 0
  {
    var n := |g.active| - 1;
    g.(active := g.active[..n], free := [g.active[n]] + g.free, left := g.left + [v])
  }

  /** Every committed value has left or is active, in order. */
  ghost predicate InOrder<T>(g: Lists<T>)
    reads g.active`value
  {
    g.committed == g.left + OldestFirst(g.active)
  }

  lemma OldestLeaves<T>(g: Lists<T>)
    requires InOrder(g) && |g.active| > 0
    ensures var v := g.active[|g.active| - 1].value; InOrder(ActiveToPrep(g, v)) && InOrder(ActiveToFree(g, v))
  {
  }

  lemma NewestEnters<T>(g: Lists<T>)
    requires InOrder(g) && |g.prep| > 0
    ensures InOrder(PrepToActive(g, g.prep[|g.prep| - 1].value))
  {
    OldestFirstCons(g.prep[|g.prep| - 1], g.active);
  }

  lemma FreeCellStays<T>(g: Lists<T>)
    requires |g.free| > 0
    ensures CellsOf(FreeToPrep(g)) == CellsOf(g)
  {
    assert g.free == g.free[..|g.free| - 1] + [g.free[|g.free| - 1]];
  }

  lemma ActiveCellStays<T>(g: Lists<T>, v: T)
    requires |g.active| > 0
    ensures CellsOf(ActiveToPrep(g, v)) == CellsOf(g) == CellsOf(ActiveToFree(g, v))
  {
    assert g.active == g.active[..|g.active| - 1] + [g.active[|g.active| - 1]];
  }

  lemma PreparedCellStays<T>(g: Lists<T>, v: T)
    requires |g.prep| > 0
    ensures CellsOf(PrepToActive(g, v)) == CellsOf(g) == CellsOf(PrepToFree(g))
  {
    assert g.prep == g.prep[..|g.prep| - 1] + [g.prep[|g.prep| - 1]];
  }

  /** The values that arrived, in order. */
  function Arrived<T>(msgs: seq<Option<T>>): seq<T> {
    if msgs == [] then [] else
      var m := msgs[|msgs| - 1];
      Arrived(msgs[..|msgs| - 1]) + if m.Some? then [m.value] else []
  }

  lemma JoinAssoc<T>(a: seq<T>, b: seq<T>, c: seq<T>)
    ensures a + b + c == a + (b + c)
  {}

  lemma ArrivedNext<T>(msgs: seq<Option<T>>, i: nat)
    requires i < |msgs|
    ensures Arrived(msgs[..i + 1]) == Arrived(msgs[..i]) + if msgs[i].Some? then [msgs[i].value] else []
  {
    assert msgs[..i + 1][..i] == msgs[..i];
  }

  class CircBuf<T> {
    const head: Cell<T>
    const freelist: Cell<T>
    const preplist: Cell<T>
    const max: nat
    var nItems: nat
    var size: nat
    ghost var g: Lists<T>

    ghost predicate Linked(g: Lists<T>)
      reads head, freelist, preplist, g.active, g.free, g.prep
    {
      && Three(head, g.active, freelist, g.free, preplist, g.prep)
      && InOrder(g)
    }

    ghost function Count(): Tally
      reads this
    {
      Tally(|g.active|, |g.free|, |g.prep|, nItems, size)
    }

    ghost predicate Valid()
      reads this, head, freelist, preplist, g.active, g.free, g.prep
    {
      Linked(g) && Counts(Count(), max)
    }

    /** What has left once the next cell is prepared: the oldest active value too if every cell is in use. */
    ghost function Leaving(): seq<T>
      reads this, g.active`value
    {
      if |g.free| == 0 && nItems == max && |g.active| > 0 then g.left + [g.active[|g.active| - 1].value] else g.left
    }

    /** Every cell on the lists was on them before or is new. */
    twostate predicate KeepsCells()
      reads this
    {
      forall c :: c in CellsOf(g) ==> c in old(CellsOf(g)) || fresh(c)
    }

    constructor (max: nat, dflt: T)
      requires max > 0
      ensures Valid() && this.max == max && g == Lists([], [], [], [], []) && Count() == UNUSED
      ensures fresh(head) && fresh(freelist) && fresh(preplist)
    {
      head := new Cell(dflt);
      freelist := new Cell(dflt);
      preplist := new Cell(dflt);
      this.max, nItems, size := max, 0, 0;
      g := Lists([], [], [], [], []);
    }

    /** The counters, and the lists as they are linked now. */
    method Become(items: nat, cells: nat, ghost n: Lists<T>)
      requires Linked(n)
      modifies this
      ensures g == n && Linked(n) && nItems == items && size == cells
    {
      nItems, size, g := items, cells, n;
    }

    /** The oldest free cell is prepared. */
    method ReuseFree() returns (ret: Cell<T>)
      requires Linked(g) && |g.free| > 0
      modifies this, freelist`next, freelist`prev, preplist`next, preplist`prev
      modifies g.free`next, g.free`prev, g.prep`next, g.prep`prev
      ensures Linked(g) && ret == old(g).free[|old(g).free| - 1]
      ensures g == FreeToPrep(old(g)) && nItems == old(nItems) && size == old(size)
    {
      Turned(head, g.active, freelist, g.free, preplist, g.prep);
      ret := Move(freelist, g.free, preplist, g.prep, head, g.active);
      Become(nItems, size, FreeToPrep(g));
    }

    /** A new cell is prepared. */
    method Grow(dflt: T) returns (ret: Cell<T>)
      requires Linked(g)
      modifies this, preplist`next, preplist`prev, g.prep`next, g.prep`prev
      ensures Linked(g) && fresh(ret)
      ensures g == old(g).(prep := [ret] + old(g).prep) && nItems == old(nItems) && size == old(size) + 1
    {
      Turned(head, g.active, freelist, g.free, preplist, g.prep);
      Turned(freelist, g.free, preplist, g.prep, head, g.active);
      ret := Insert(dflt, preplist, g.prep, freelist, g.free, head, g.active);
      Become(nItems, size + 1, g.(prep := [ret] + g.prep));
    }

    /** The oldest active cell is prepared: its value leaves the buffer. */
    method Evict() returns (ret: Cell<T>)
      requires Linked(g) && |g.active| > 0
      modifies this, head`next, head`prev, preplist`next, preplist`prev
      modifies g.active`next, g.active`prev, g.prep`next, g.prep`prev
      ensures Linked(g) && ret == old(g).active[|old(g).active| - 1]
      ensures g == ActiveToPrep(old(g), ret.value) && nItems == old(nItems) && size == old(size)
    {
      OldestLeaves(g);
      ret := Move(head, g.active, preplist, g.prep, freelist, g.free);
      Become(nItems, size, ActiveToPrep(g, ret.value));
    }

    /** The prepared cell becomes the newest active one. */
    method Activate(items: nat) returns (it: Cell<T>)
      requires Linked(g) && |g.prep| > 0
      modifies this, head`next, head`prev, preplist`next, preplist`prev
      modifies g.active`next, g.active`prev, g.prep`next, g.prep`prev
      ensures Linked(g) && it == old(g).prep[|old(g).prep| - 1]
      ensures g == PrepToActive(old(g), it.value) && nItems == items && size == old(size)
    {
      Turned(head, g.active, freelist, g.free, preplist, g.prep);
      NewestEnters(g);
      it := Move(preplist, g.prep, head, g.active, freelist, g.free);
      Become(items, size, PrepToActive(g, it.value));
    }

    /** The prepared cell becomes the newest free one. */
    method Release() returns (it: Cell<T>)
      requires Linked(g) && |g.prep| > 0
      modifies this, freelist`next, freelist`prev, preplist`next, preplist`prev
      modifies g.free`next, g.free`prev, g.prep`next, g.prep`prev
      ensures Linked(g) && it == old(g).prep[|old(g).prep| - 1]
      ensures g == PrepToFree(old(g)) && nItems == old(nItems) && size == old(size)
    {
      it := Move(preplist, g.prep, freelist, g.free, head, g.active);
      Become(nItems, size, PrepToFree(g));
    }

    /** The oldest active cell becomes the newest free one: its value leaves the buffer. */
    method Retire(items: nat) returns (it: Cell<T>)
      requires Linked(g) && |g.active| > 0
      modifies this, head`next, head`prev, freelist`next, freelist`prev
      modifies g.free`next, g.free`prev, g.active`next, g.active`prev
      ensures Linked(g) && it == old(g).active[|old(g).active| - 1]
      ensures g == ActiveToFree(old(g), it.value) && nItems == items && size == old(size)
    {
      OldestLeaves(g);
      it := Move(head, g.active, freelist, g.free, preplist, g.prep);
      Become(items, size, ActiveToFree(g, it.value));
    }

    /** A new cell becomes the newest free one. */
    method AddFree(dflt: T, items: nat) returns (it: Cell<T>)
      requires Linked(g)
      modifies this, freelist`next, freelist`prev, g.free`next, g.free`prev
      ensures Linked(g) && fresh(it)
      ensures g == old(g).(free := [it] + old(g).free) && nItems == items && size == old(size) + 1
    {
      it := Insert(dflt, freelist, g.free, head, g.active, preplist, g.prep);
      Become(items, size + 1, g.(free := [it] + g.free));
    }

    method HasFree() returns (b: bool)
      requires Linked(g)
      ensures b <==> |g.free| > 0
    {
      b := freelist.prev != freelist;
    }

    /** With no free cell, a new one while n_items_ is below max_, else the oldest active one. */
    method GrowOrEvict(dflt: T) returns (ret: Cell<T>)
      requires Linked(g) && (nItems >= max ==> |g.active| > 0)
      modifies this, head`next, head`prev, preplist`next, preplist`prev
      modifies g.active`next, g.active`prev, g.prep`next, g.prep`prev
      ensures Linked(g) && nItems == old(nItems)
      ensures nItems < max ==> fresh(ret) && g == old(g).(prep := [ret] + old(g).prep) && size == old(size) + 1
      ensures nItems >= max ==> g == ActiveToPrep(old(g), ret.value) && size == old(size)
      ensures |g.prep| > 0 && ret == g.prep[0]
    {
      if nItems < max {
        ret := Grow(dflt);
      } else {
        ret := Evict();
      }
    }

    /** The oldest free cell, if there is one. */
    method Obtain(dflt: T) returns (ret: Cell<T>)
      requires Linked(g) && (|g.free| == 0 && nItems >= max ==> |g.active| > 0)
      modifies this, head`next, head`prev, freelist`next, freelist`prev, preplist`next, preplist`prev
      modifies g.active`next, g.active`prev, g.free`next, g.free`prev, g.prep`next, g.prep`prev
      ensures Linked(g) && nItems == old(nItems) && |g.prep| > 0 && ret == g.prep[0]
      ensures |old(g).free| > 0 ==> g == FreeToPrep(old(g)) && size == old(size)
      ensures |old(g).free| == 0 && nItems < max ==>
                fresh(ret) && g == old(g).(prep := [ret] + old(g).prep) && size == old(size) + 1
      ensures |old(g).free| == 0 && nItems >= max ==> g == ActiveToPrep(old(g), ret.value) && size == old(size)
    {
      var b := HasFree();
      if b {
        ret := ReuseFree();
      } else {
        ret := GrowOrEvict(dflt);
      }
    }

    /**
     prepare, with nothing else outstanding: a free cell, else a new one while n_items_ is
     below max_, else the oldest active one, which exists then.
     */
    method Prepare(dflt: T) returns (ret: Cell<T>)
      requires Valid() && |g.prep| == 0
      modifies this, head`next, head`prev, freelist`next, freelist`prev, preplist`next, preplist`prev
      modifies g.active`next, g.active`prev, g.free`next, g.free`prev, g.prep`next, g.prep`prev
      ensures Valid() && g.prep == [ret] && Count() == Used(old(Count()), max, Preparing)
      ensures |old(g).free| > 0 ==> g == FreeToPrep(old(g))
      ensures |old(g).free| == 0 && nItems < max ==> fresh(ret) && g == old(g).(prep := [ret])
      ensures |old(g).free| == 0 && nItems == max ==> |old(g).active| > 0 && g == ActiveToPrep(old(g), ret.value)
    {
      UseKeepsCounts(Count(), max, Preparing);
      ret := Obtain(dflt);
    }

    /** commit of the outstanding item t, if there is one: it becomes the newest active item. */
    method Commit(t: Cell<T>) returns (added: bool, full: bool)
      requires Valid() && (|g.prep| > 0 ==> t == g.prep[0])
      modifies this, head`next, head`prev, preplist`next, preplist`prev
      modifies g.active`next, g.active`prev, g.prep`next, g.prep`prev
      ensures Valid() && Count() == Used(old(Count()), max, Committing)
      ensures added == (|old(g).prep| > 0) && full == CommitsFull(old(Count()), max, Committing)
      ensures g == if added then PrepToActive(old(g), t.value) else old(g)
    {
      added, full := preplist.next != preplist, false;
      if added {
        full := nItems + 1 > max;
        var it := Activate(if full then max else nItems + 1);
      }
    }

    /** rollback of the outstanding item t, if there is one: its cell is free again. */
    method Rollback(t: Cell<T>)
      requires Valid() && (|g.prep| > 0 ==> t == g.prep[0])
      modifies this, freelist`next, freelist`prev, preplist`next, preplist`prev
      modifies g.free`next, g.free`prev, g.prep`next, g.prep`prev
      ensures Valid() && Count() == Used(old(Count()), max, RollingBack)
      ensures g == if |old(g).prep| > 0 then PrepToFree(old(g)) else old(g)
    {
      if preplist.next != preplist {
        var it := Release();
      }
    }

    /** pop with an active item. */
    method PopOldest() returns (it: Cell<T>)
      requires Valid() && |g.active| > 0
      modifies this, head`next, head`prev, freelist`next, freelist`prev
      modifies g.free`next, g.free`prev, g.active`next, g.active`prev
      ensures Valid() && Count() == Used(old(Count()), max, Popping)
      ensures it == old(g).active[|old(g).active| - 1] && g == ActiveToFree(old(g), it.value)
    {
      UseKeepsCounts(Count(), max, Popping);
      it := Retire(nItems - 1);
    }

    /** pop without an active item. */
    method PopNothing(dflt: T)
      requires Valid() && |g.active| == 0
      modifies this, freelist`next, freelist`prev, g.free`next, g.free`prev
      ensures Linked(g) && nItems == 0 && size == old(size) + 1 && (Valid() <==> old(size) < max)
      ensures |g.free| > 0 && fresh(g.free[0]) && g == old(g).(free := [g.free[0]] + old(g).free)
    {
      var x := AddFree(dflt, if nItems == 0 then 0 else nItems - 1);
    }

    /**
     pop: the oldest active item leaves and its cell is free. Without an active item it fails: the
     count drops to 0 and one more cell, for which dflt stands, is put on the free list.
     */
    method Pop(dflt: T) returns (it: Cell?<T>, empty: bool)
      requires Valid()
      modifies this, head`next, head`prev, freelist`next, freelist`prev
      modifies g.free`next, g.free`prev, g.active`next, g.active`prev
      ensures it == null <==> |old(g).active| == 0
      ensures it != null ==> Valid() && Count() == Used(old(Count()), max, Popping) && empty == (nItems == 0)
      ensures it != null ==> it == old(g).active[|old(g).active| - 1] && g == ActiveToFree(old(g), it.value)
      ensures it == null ==> Linked(g) && nItems == 0 && size == old(size) + 1 && empty == (old(nItems) == 1)
      ensures it == null ==> |g.free| > 0 && fresh(g.free[0]) && g == old(g).(free := [g.free[0]] + old(g).free)
      ensures it == null ==> (Valid() <==> old(size) < max)
    {
      empty := nItems == 1;
      if head.prev == head {
        PopNothing(dflt);
        it := null;
      } else {
        it := PopOldest();
      }
    }

    /** pop with an active item: one of the buffer's cells is freed. */
    method Take(dflt: T) returns (it: Cell<T>)
      requires Valid() && |g.active| > 0
      modifies this, head, freelist, CellsOf(g)
      ensures Valid() && KeepsCells() && Count() == Used(old(Count()), max, Popping)
    {
      ghost var was := g;
      var r, empty := Pop(dflt);
      it := r;
      ActiveCellStays(was, it.value);
    }

    /** The holder of the outstanding cell fills it in. */
    method Fill(t: Cell<T>, v: T)
      requires Valid() && g.prep == [t]
      modifies t`value
      ensures Valid() && t.value == v
    {
      t.value := v;
    }

    /** The second half of a reception: fill the cell and commit it, or roll back when nothing came. */
    method Finish(t: Cell<T>, v: T, arrived: bool)
      requires Valid() && g.prep == [t]
      modifies this, head, freelist, preplist, g.active, g.free, g.prep
      ensures Valid() && Count() == Used(old(Count()), max, if arrived then Committing else RollingBack)
      ensures g == if arrived then PrepToActive(old(g), v) else PrepToFree(old(g))
    {
      Fill(t, v);
      if arrived {
        var _, _ := Commit(t);
      } else {
        Rollback(t);
      }
    }

    /** prepare, as far as a reception needs it. */
    method Reserve(dflt: T) returns (t: Cell<T>)
      requires Valid() && |g.prep| == 0
      modifies this, head, freelist, preplist, CellsOf(g)
      ensures Valid() && g.prep == [t] && KeepsCells()
      ensures Count() == Used(old(Count()), max, Preparing)
      ensures g.committed == old(g.committed) && g.left == old(Leaving())
    {
      ghost var was := g;
      t := Prepare(dflt);
      if |was.free| > 0 {
        FreeCellStays(was);
      } else if nItems == max {
        ActiveCellStays(was, t.value);
      }
    }

    /**
     The receiver's use of the buffer: the values still to be read are a queue that takes v in
     if it arrived, and loses its oldest value exactly when no cell is free and n_items_ has
     reached max_.
     */
    method Receive(dflt: T, v: T, arrived: bool)
      requires Valid() && |g.prep| == 0
      modifies this, head, freelist, preplist, CellsOf(g)
      ensures Valid() && |g.prep| == 0 && KeepsCells()
      ensures Count() == Received(old(Count()), max, arrived)
      ensures g.committed == if arrived then old(g.committed) + [v] else old(g.committed)
      ensures g.left == old(Leaving())
    {
      var t := Reserve(dflt);
      PreparedCellStays(g, v);
      Finish(t, v, arrived);
    }

    /** Any number of receptions: the values that arrived are committed in order, and none is lost but the oldest. */
    method ReceiveAll(dflt: T, msgs: seq<Option<T>>)
      requires Valid() && |g.prep| == 0
      modifies this, head, freelist, preplist, CellsOf(g)
      ensures Valid() && |g.prep| == 0 && KeepsCells()
      ensures g.committed == old(g.committed) + Arrived(msgs)
    {
      for i := 0 to |msgs|
        invariant Valid() && |g.prep| == 0 && KeepsCells()
        invariant g.committed == old(g.committed) + Arrived(msgs[..i])
      {
        ArrivedNext(msgs, i);
        JoinAssoc(old(g.committed), Arrived(msgs[..i]), if msgs[i].Some? then [msgs[i].value] else []);
        Receive(dflt, if msgs[i].Some? then msgs[i].value else dflt, msgs[i].Some?);
      }
      assert msgs[..|msgs|] == msgs;
    }
  }

  /** The buffer and its cells have been allocated by the caller. */
  twostate predicate AllNew<T>(new c: CircBuf<T>)
    reads c
  {
    && fresh(c) && fresh(c.head) && fresh(c.freelist) && fresh(c.preplist)
    && forall x :: x in CellsOf(c.g) ==> fresh(x)
  }

  /** A buffer filled by receptions. */
  method Full<T>(max: nat, v: T) returns (c: CircBuf<T>)
    requires max > 0
    ensures AllNew(c) && c.Valid() && c.max == max && c.Count() == Tally(max, 0, 0, max, max)
  {
    c := new CircBuf(max, v);
    for i := 0 to max
      invariant AllNew(c) && c.Valid() && c.max == max && c.Count() == Tally(i, 0, 0, i, i)
    {
      c.Receive(v, v, true);
    }
  }

  /** k pops from a buffer with at least k active items. */
  method PopMany<T>(c: CircBuf<T>, k: nat, v: T)
    requires c.Valid() && |c.g.active| >= k
    modifies c, c.head, c.freelist, c.preplist, CellsOf(c.g)
    ensures c.Valid() && c.KeepsCells()
    ensures var t := old(c.Count()); c.Count() == t.(active := t.active - k, free := t.free + k, n := t.n - k)
    decreases k
  {
    if k > 0 {
      PopMany(c, k - 1, v);
      var it := c.Take(v);
    }
  }

  /** A full buffer, and one reception that is rolled back. */
  method RolledBack<T>(max: nat, v: T) returns (c: CircBuf<T>)
    requires max > 0
    ensures AllNew(c) && c.Valid() && c.max == max && c.Count() == Tally(max - 1, 1, 0, max, max)
  {
    c := Full(max, v);
    c.Receive(v, v, false);
  }

  /** ... and max - 1 pops: n_items() is 1 with no active item, and the pop it allows fails. */
  method CountOverstates<T>(max: nat, v: T) returns (c: CircBuf<T>, ghost before: Tally, it: Cell?<T>)
    requires max > 0
    ensures before == Tally(0, max, 0, 1, max) && it == null && c.nItems == 0
  {
    c := RolledBack(max, v);
    PopMany(c, max - 1, v);
    before := c.Count();
    var empty;
    it, empty := c.Pop(v);
  }
}
