/**
 inpvec: a sparse vector kept as a list of chunks that only ever grows at its
 tail, so a slot never moves. It refines a finite map from index to value.
 */
module InpVec {
  import opened Chunks

  /** Global index of slot 0 of chunk k. */
  ghost function Base<T>(cs: seq<Chunk<T>>, k: nat): nat
    requires k <= |cs|
  {
    if k == 0 then 0 else Base(cs, k - 1) + cs[k - 1].Size()
  }

  ghost function Total<T>(cs: seq<Chunk<T>>): nat {
    Base(cs, |cs|)
  }

  ghost function Lookup<T>(m: map<nat, T>, g: nat): Option<T> {
    if g in m then Some(m[g]) else None
  }

  /** Slots stored from index base on hold what the map says. */
  ghost predicate Agree<T>(items: seq<Option<T>>, base: nat, m: map<nat, T>) {
    forall o :: 0 <= o < |items| ==> items[o] == Lookup(m, base + o)
  }

  ghost predicate ChunkAgrees<T>(cs: seq<Chunk<T>>, k: nat, m: map<nat, T>)
    requires k < |cs|
  {
    cs[k].Ok() && Agree(cs[k].items, Base(cs, k), m)
  }

  /** The chunk list stands for the map m. */
  ghost predicate Refines<T>(cs: seq<Chunk<T>>, m: map<nat, T>) {
    && |cs| > 0
    && (forall k {:trigger ChunkAgrees(cs, k, m)} :: 0 <= k < |cs| ==> ChunkAgrees(cs, k, m))
    && (forall g :: g in m ==> g < Total(cs))
  }

  // ---- index arithmetic ----

  lemma {:induction false} BaseOrder<T>(cs: seq<Chunk<T>>, i: nat, j: nat)
    requires i < j <= |cs|
    ensures Base(cs, i) + cs[i].Size() <= Base(cs, j)
  {
    if i + 1 < j {
      BaseOrder(cs, i, j - 1);
    }
  }

  /** Chunk bases depend on chunk sizes only. */
  lemma {:induction false} BaseSame<T>(cs: seq<Chunk<T>>, ds: seq<Chunk<T>>, k: nat)
    requires k <= |cs| && k <= |ds|
    requires forall i :: 0 <= i < k ==> cs[i].Size() == ds[i].Size()
    ensures Base(cs, k) == Base(ds, k)
  {
    if k > 0 {
      BaseSame(cs, ds, k - 1);
    }
  }

  /** As many chunks, each of the same size: every index lies in the same chunk. */
  ghost predicate SameShape<T>(cs: seq<Chunk<T>>, ds: seq<Chunk<T>>) {
    |cs| == |ds| && forall i :: 0 <= i < |cs| ==> cs[i].Size() == ds[i].Size()
  }

  /**
   The words of the chunk that is put behind cs for index pos: two more than the last one has, or, if that is too
   few, one more than pos needs.
   */
  ghost function NewWords<T>(cs: seq<Chunk<T>>, pos: nat): nat
    requires |cs| > 0 && pos >= Total(cs)
  {
    var words := (pos - Total(cs)) / 64 + 2;
    if words < cs[|cs| - 1].Mul() + 2 then cs[|cs| - 1].Mul() + 2 else words
  }

  /** ds has the chunk sizes of cs and, if pos is beyond them, one more chunk. */
  ghost predicate GrownFor<T>(cs: seq<Chunk<T>>, ds: seq<Chunk<T>>, pos: nat)
    requires |cs| > 0
  {
    if pos < Total(cs) then SameShape(cs, ds) else
      |ds| == |cs| + 1 && SameShape(cs, ds[..|cs|]) && ds[|cs|].Mul() == NewWords(cs, pos)
  }

  lemma GrownSame<T>(cs: seq<Chunk<T>>, ds: seq<Chunk<T>>, es: seq<Chunk<T>>, pos: nat)
    requires |cs| > 0 && GrownFor(cs, ds, pos) && SameShape(ds, es)
    ensures GrownFor(cs, es, pos)
  {
    if pos >= Total(cs) {
      assert ds[|cs|].Size() == es[|cs|].Size();
    }
  }

  /** Distinct chunks have no index in common. */
  lemma ChunksApart<T>(cs: seq<Chunk<T>>, i: nat, o: nat, j: nat, p: nat)
    requires i < |cs| && j < |cs| && i != j && o < cs[i].Size() && p < cs[j].Size()
    ensures Base(cs, i) + o != Base(cs, j) + p
  {
    if i < j {
      BaseOrder(cs, i, j);
    } else {
      BaseOrder(cs, j, i);
    }
  }

  // ---- what an update of one slot, and growth, do to the map ----

  ghost function Put<T>(m: map<nat, T>, g: nat, v: Option<T>): map<nat, T> {
    if v.Some? then m[g := v.value] else m - {g}
  }

  lemma SlotUpdate<T>(cs: seq<Chunk<T>>, m: map<nat, T>, k: nat, o: nat, v: Option<T>, c: Chunk<T>)
    requires Refines(cs, m) && k < |cs| && o < cs[k].Size()
    requires cs[k].Ok() && c.Ok() && c.Mul() == cs[k].Mul() && c.items == cs[k].items[o := v]
    ensures Refines(cs[k := c], Put(m, Base(cs, k) + o, v))
    ensures SameShape(cs, cs[k := c]) && Total(cs[k := c]) == Total(cs) && Base(cs[k := c], k) == Base(cs, k)
  {
    assert ChunkAgrees(cs, k, m);
    var ds, n := cs[k := c], Put(m, Base(cs, k) + o, v);
    forall j | 0 <= j <= |cs|
      ensures Base(ds, j) == Base(cs, j)
    {
      BaseSame(ds, cs, j);
    }
    forall j | 0 <= j < |ds|
      ensures ChunkAgrees(ds, j, n)
    {
      assert ChunkAgrees(cs, j, m);
      forall p | 0 <= p < |ds[j].items|
        ensures ds[j].items[p] == Lookup(n, Base(ds, j) + p)
      {
        assert cs[j].items[p] == Lookup(m, Base(cs, j) + p);
        if j != k {
          ChunksApart(cs, j, p, k, o);
        }
      }
    }
    BaseOrder(cs, k, |cs|);
  }

  lemma Growth<T>(cs: seq<Chunk<T>>, m: map<nat, T>, c: Chunk<T>)
    requires Refines(cs, m)
    requires c.Ok() && forall o :: 0 <= o < c.Size() ==> c.items[o].None?
    ensures Refines(cs + [c], m) && Base(cs + [c], |cs|) == Total(cs)
    ensures Total(cs + [c]) == Total(cs) + c.Size()
  {
    var ds := cs + [c];
    forall j | 0 <= j <= |cs|
      ensures Base(ds, j) == Base(cs, j)
    {
      BaseSame(ds, cs, j);
    }
    forall j | 0 <= j < |ds|
      ensures ChunkAgrees(ds, j, m)
    {
      if j < |cs| {
        assert ChunkAgrees(cs, j, m);
      }
    }
  }

  /** inpvec::iterator: a chunk (None is the null chunk of end()), an offset in it, and the position get_pos reports. */
  datatype Iter = Iter(i: Option<nat>, pos: nat, gpos: nat)

  const END := Iter(None, 0, 0)

  /** it is on a slot, whatever position it reports. */
  ghost predicate OnSlot<T>(cs: seq<Chunk<T>>, it: Iter) {
    it.i.Some? && it.i.value < |cs| && it.pos < cs[it.i.value].Size()
  }

  /** The index of the slot an iterator is on. */
  ghost function Spot<T>(cs: seq<Chunk<T>>, it: Iter): nat
    requires OnSlot(cs, it)
  {
    Base(cs, it.i.value) + it.pos
  }

  /** it is on slot g and reports it. */
  ghost predicate Stands<T>(cs: seq<Chunk<T>>, it: Iter, g: nat) {
    OnSlot(cs, it) && it.gpos == g == Spot(cs, it)
  }

  /** The index an iterator has reached; the size for end(). */
  ghost function Ahead<T>(cs: seq<Chunk<T>>, it: Iter): nat {
    if it.i.Some? && it.i.value < |cs| then Base(cs, it.i.value) + it.pos else Total(cs)
  }

  /** Where operator++ goes from it. */
  ghost function Stepped<T>(cs: seq<Chunk<T>>, it: Iter): Iter {
    if !OnSlot(cs, it) then END
    else if !NoneAfter(cs[it.i.value], it.pos) then Iter(it.i, it.pos + 1, it.gpos + 1)
    else if it.i.value + 1 < |cs| then Iter(Some(it.i.value + 1), 0, it.gpos + 1)
    else END
  }

  /** o is the first used slot of c after slot s. */
  ghost predicate FirstAfter<T>(c: Chunk<T>, s: nat, o: nat) {
    s < o < |c.items| && c.items[o].Some? && forall x :: s < x < o ==> c.items[x].None?
  }

  ghost predicate NoneAfter<T>(c: Chunk<T>, s: nat) {
    forall x :: s < x < |c.items| ==> c.items[x].None?
  }

  /** Where next_used starts in chunk j when it leaves from it. */
  ghost function StartIn(it: Iter, j: nat): nat {
    if it.i.Some? && j > it.i.value + 1 then 0 else it.pos
  }

  /** iterator::operator== compares the chunk and the reported position. */
  predicate SameIter(a: Iter, b: Iter) {
    a.i == b.i && a.gpos == b.gpos
  }

  // ---- the position a walking iterator reports ----

  /** The last used slot of a chunk's first n slots; 0 if there is none. */
  ghost function LastUsed<T>(items: seq<Option<T>>, n: nat): (r: nat)
    requires n <= |items|
    ensures r == 0 || (r < n && items[r].Some?)
    ensures forall o :: r < o < n ==> items[o].None?
  {
    if n == 0 then 0 else if items[n - 1].Some? then n - 1 else LastUsed(items, n - 1)
  }

  ghost predicate EndsUsed<T>(c: Chunk<T>) {
    |c.items| > 0 && c.items[|c.items| - 1].Some?
  }

  /** What a walk reports when it enters chunk k: it left each earlier one at its last used slot. */
  ghost function Reported<T>(cs: seq<Chunk<T>>, k: nat): nat
    requires k <= |cs|
  {
    if k == 0 then 0 else Reported(cs, k - 1) + LastUsed(cs[k - 1].items, |cs[k - 1].items|) + 1
  }

  /** An iterator that a walk from begin() reaches. */
  ghost predicate OnWalk<T>(cs: seq<Chunk<T>>, it: Iter) {
    && OnSlot(cs, it) && it.gpos == Reported(cs, it.i.value) + it.pos
    && it.pos <= LastUsed(cs[it.i.value].items, |cs[it.i.value].items|)
  }

  lemma SteppedOnWalk<T>(cs: seq<Chunk<T>>, m: map<nat, T>, it: Iter)
    requires Refines(cs, m)
    ensures var r := Stepped(cs, it); OnWalk(cs, it) && r.i.Some? ==> OnWalk(cs, r)
  {
    var r := Stepped(cs, it);
    if OnWalk(cs, it) && r.i.Some? {
      assert ChunkAgrees(cs, r.i.value, m);
    }
  }

  lemma {:induction false} ReportedRight<T>(cs: seq<Chunk<T>>, m: map<nat, T>, k: nat)
    requires Refines(cs, m) && k <= |cs|
    ensures Reported(cs, k) <= Base(cs, k)
    ensures Reported(cs, k) == Base(cs, k) <==> forall j :: 0 <= j < k ==> EndsUsed(cs[j])
  {
    if k > 0 {
      ReportedRight(cs, m, k - 1);
      assert ChunkAgrees(cs, k - 1, m);
    }
  }

  /** The values of m below index n, in index order. */
  ghost function InOrder<T>(m: map<nat, T>, n: nat): seq<T> {
    if n == 0 then [] else if n - 1 in m then InOrder(m, n - 1) + [m[n - 1]] else InOrder(m, n - 1)
  }

  lemma {:induction false} NothingBetween<T>(m: map<nat, T>, g: nat, n: nat)
    requires g <= n && forall x :: g <= x < n ==> x !in m
    ensures InOrder(m, n) == InOrder(m, g)
  {
    if g < n {
      NothingBetween(m, g, n - 1);
    }
  }

  /** Each value is listed once: one place per key, and that of key g is the number of keys below g. */
  lemma {:induction false} EachOnce<T>(m: map<nat, T>, n: nat, g: nat)
    ensures |InOrder(m, n)| == |KeysBelow(m, n)|
    ensures g in m && g < n ==> |KeysBelow(m, g)| < |InOrder(m, n)| && InOrder(m, n)[|KeysBelow(m, g)|] == m[g]
  {
    if n > 0 {
      EachOnce(m, n - 1, g);
      if n - 1 in m {
        assert KeysBelow(m, n) == KeysBelow(m, n - 1) + {n - 1};
      } else {
        assert KeysBelow(m, n) == KeysBelow(m, n - 1);
      }
    } else {
      assert KeysBelow(m, 0) == {};
    }
  }

  lemma SlotValue<T>(cs: seq<Chunk<T>>, m: map<nat, T>, it: Iter)
    requires Refines(cs, m) && OnSlot(cs, it)
    ensures cs[it.i.value].Ok() && cs[it.i.value].items[it.pos] == Lookup(m, Spot(cs, it))
    ensures Spot(cs, it) < Total(cs)
  {
    assert ChunkAgrees(cs, it.i.value, m);
    BaseOrder(cs, it.i.value, |cs|);
  }

  class Vec<T> {
    var nItems: nat
    var chunks: seq<Chunk<T>>
    ghost var contents: map<nat, T>     // the map this vector stands for

    ghost predicate Valid()
      reads this
    {
      Refines(chunks, contents) && nItems == |contents|
    }

    constructor ()
      ensures Valid() && contents == map[]
      ensures |chunks| == 1 && chunks[0].Size() == 64
    {
      var c := Chunk<T>.Alloc(1);
      chunks := [c];
      nItems := 0;
      contents := map[];
      new;
      assert ChunkAgrees(chunks, 0, contents);
    }

    /** size: the number of slots, used or not. */
    method Size() returns (n: nat)
      requires Valid()
      ensures n == Total(chunks)
    {
      n := 0;
      for k := 0 to |chunks|
        invariant n == Base(chunks, k)
      {
        n := n + chunks[k].Size();
      }
    }

    /** The chunk walk every lookup starts with: the chunk of index at and its base, or the null chunk and the size. */
    method Locate(at: nat) returns (p: Option<nat>, px: nat)
      requires Valid()
      ensures p.None? ==> px == Total(chunks) <= at
      ensures p.Some? ==> p.value < |chunks| && px == Base(chunks, p.value) <= at < px + chunks[p.value].Size()
      ensures p.Some? <==> at < Total(chunks)
    {
      px := 0;
      var k := 0;
      while k < |chunks|
        invariant 0 <= k <= |chunks| && px == Base(chunks, k) <= at
      {
        if at < px + chunks[k].Size() {
          BaseOrder(chunks, k, |chunks|);
          return Some(k), px;
        }
        px := px + chunks[k].Size();
        k := k + 1;
      }
      p := None;
    }

    /** allocate(mul): puts a chunk of mul words, all free, behind the last one. */
    method Allocate(mul: nat)
      requires Valid() && mul > 0
      modifies this`chunks
      ensures Valid()
      ensures |chunks| == |old(chunks)| + 1 && old(chunks) <= chunks
      ensures Base(chunks, |old(chunks)|) == Total(old(chunks))
      ensures Total(chunks) == Total(old(chunks)) + 64 * mul
      ensures chunks[|old(chunks)|].Mul() == mul && chunks[|old(chunks)|].Ok()
      ensures forall o :: 0 <= o < 64 * mul ==> chunks[|old(chunks)|].items[o].None?
    {
      var c := Chunk<T>.Alloc(mul);
      Growth(chunks, contents, c);
      chunks := chunks + [c];
    }

    /** The cached item count is the population count of the bitmaps. */
    method Population() returns (n: nat)
      requires Valid()
      ensures n == nItems == |contents|
    {
      n := 0;
      for k := 0 to |chunks|
        invariant n == |KeysBelow(contents, Base(chunks, k))|
      {
        assert ChunkAgrees(chunks, k, contents);
        var c := chunks[k].NItems();
        ChunkKeys(chunks, contents, k);
        n := n + c;
      }
      assert KeysBelow(contents, Total(chunks)) == contents.Keys;
    }

    /** begin: the end iterator for an empty vector, else slot 0 of the first chunk, used or not. */
    method Begin() returns (it: Iter)
      requires Valid()
      ensures it == if contents == map[] then END else Iter(Some(0), 0, 0)
      ensures it.i.Some? ==> OnSlot(chunks, it)
    {
      assert ChunkAgrees(chunks, 0, contents);
      it := if nItems == 0 then END else Iter(Some(0), 0, 0);
    }

    /** operator*: what the slot under the iterator holds. */
    method Deref(it: Iter) returns (v: Option<T>)
      requires Valid() && (it.i.Some? ==> OnSlot(chunks, it))
      ensures v == if it.i.Some? then Lookup(contents, Base(chunks, it.i.value) + it.pos) else None
    {
      v := None;
      if it.i.Some? {
        assert ChunkAgrees(chunks, it.i.value, contents);
        v := chunks[it.i.value].GetPtr(it.pos);
      }
    }

    /** operator++: to the next chunk as soon as nothing used is left in this one, else to the next slot. */
    method Advance(it: Iter) returns (r: Iter)
      requires Valid() && (it.i.Some? ==> OnSlot(chunks, it))
      ensures r == Stepped(chunks, it) && (r.i.Some? ==> OnSlot(chunks, r))
      ensures it.i.Some? ==> Ahead(chunks, r) > Spot(chunks, it)
      ensures it.i.Some? ==> forall g :: Spot(chunks, it) < g < Ahead(chunks, r) ==> g !in contents
    {
      if it.i.None? {
        return END;
      }
      var k := it.i.value;
      var c := chunks[k];
      assert ChunkAgrees(chunks, k, contents);
      BaseOrder(chunks, k, |chunks|);
      var last := c.IsLast(it.pos);
      if last {
        forall g | Base(chunks, k) + it.pos < g < Base(chunks, k) + c.Size()
          ensures g !in contents
        {
          assert c.items[g - Base(chunks, k)] == Lookup(contents, Base(chunks, k) + (g - Base(chunks, k)));
        }
        if k + 1 < |chunks| {
          assert ChunkAgrees(chunks, k + 1, contents);
          r := Iter(Some(k + 1), 0, it.gpos + 1);
        } else {
          r := END;
        }
      } else {
        r := Iter(it.i, it.pos + 1, it.gpos + 1);
      }
    }

    /**
     An iterator moved n times from begin(). The position it reports is its index exactly if the
     last slot of every chunk it has left is used.
     */
    method WalkTo(n: nat) returns (it: Iter)
      requires Valid()
      ensures it.i.Some? ==> OnSlot(chunks, it)
      ensures it.i.Some? ==> (it.gpos == Spot(chunks, it) <==> forall j :: 0 <= j < it.i.value ==> EndsUsed(chunks[j]))
      ensures it.i.Some? ==> it.gpos <= Spot(chunks, it)
    {
      it := Begin();
      for i := 0 to n
        invariant it.i.Some? ==> OnWalk(chunks, it)
      {
        SteppedOnWalk(chunks, contents, it);
        it := Advance(it);
      }
      if it.i.Some? {
        ReportedRight(chunks, contents, it.i.value);
      }
    }

    /** One turn of a walk: look at the slot under the iterator, then step. */
    method Visit(it: Iter) returns (r: Iter, v: Option<T>)
      requires Valid() && OnSlot(chunks, it)
      ensures if r.i.Some? then OnSlot(chunks, r) else r == END
      ensures Ahead(chunks, it) < Ahead(chunks, r) <= Total(chunks)
      ensures InOrder(contents, Ahead(chunks, r)) ==
              InOrder(contents, Ahead(chunks, it)) + if v.Some? then [v.value] else []
    {
      ghost var g := Ahead(chunks, it);
      v := Deref(it);
      r := Advance(it);
      NothingBetween(contents, g + 1, Ahead(chunks, r));
      if r.i.Some? {
        BaseOrder(chunks, r.i.value, |chunks|);
      }
    }

    /** for( it=begin(); it!=end(); ++it ): the objects met are those of the map, each once, in index order. */
    method Walk() returns (met: seq<T>)
      requires Valid()
      ensures met == InOrder(contents, Total(chunks)) && |met| == |contents|
    {
      met := [];
      var it := Begin();
      if it == END {
        NothingBetween(contents, 0, Total(chunks));
      }
      while !SameIter(it, END)
        invariant if it.i.Some? then OnSlot(chunks, it) else it == END
        invariant met == InOrder(contents, Ahead(chunks, it))
        decreases Total(chunks) - Ahead(chunks, it)
      {
        var v;
        it, v := Visit(it);
        if v.Some? {
          met := met + [v.value];
        }
      }
      EachOnce(contents, Total(chunks), 0);
      assert KeysBelow(contents, Total(chunks)) == contents.Keys;
    }

    /**
     iterator::next_used. Inside the iterator's own chunk this is the next used slot. When it moves on, the
     search of the following chunk starts behind the old offset, and that of every later chunk behind slot 0.
     */
    method NextUsed(it: Iter) returns (r: Iter, v: Option<T>)
      requires Valid() && (it.i.Some? ==> OnSlot(chunks, it))
      ensures it.i.None? ==> v.None?
      ensures v.None? ==> r == END
      ensures it.i.Some? && v.None? ==> forall j :: it.i.value <= j < |chunks| ==> NoneAfter(chunks[j], StartIn(it, j))
      ensures it.i.Some? && v.Some? ==>
                && OnSlot(chunks, r) && it.i.value <= r.i.value && v == Lookup(contents, Spot(chunks, r))
                && r.gpos - it.gpos == Spot(chunks, r) - Spot(chunks, it)
                && FirstAfter(chunks[r.i.value], StartIn(it, r.i.value), r.pos)
                && forall j :: it.i.value <= j < r.i.value ==> NoneAfter(chunks[j], StartIn(it, j))
    {
      if it.i.None? {
        return END, None;
      }
      var k, newpos, pos, gpos := it.i.value, it.pos, it.pos, it.gpos;
      while k < |chunks|
        invariant it.i.value <= k <= |chunks|
        invariant newpos == if k < |chunks| then StartIn(it, k) else newpos
        invariant pos == if k == it.i.value then it.pos else 0
        invariant it.gpos <= gpos && gpos - it.gpos == Base(chunks, k) + pos - Spot(chunks, it)
        invariant forall j :: it.i.value <= j < k ==> NoneAfter(chunks[j], StartIn(it, j))
      {
        assert ChunkAgrees(chunks, k, contents);
        var n := chunks[k].NextUsed(newpos);
        if n.Some? {
          gpos := gpos + n.value - pos;
          r := Iter(Some(k), n.value, gpos);
          assert chunks[k].items[n.value] == Lookup(contents, Base(chunks, k) + n.value);
          v := chunks[k].GetPtr(n.value);
          return;
        }
        newpos := pos;
        gpos := gpos + chunks[k].Size() - pos;
        pos := 0;
        k := k + 1;
      }
      return END, None;
    }

    /** iterator_at: end() when the vector is empty or pos is beyond the last chunk. */
    method IteratorAt(pos: nat) returns (it: Iter)
      requires Valid()
      ensures if contents == map[] || pos >= Total(chunks) then it == END else Stands(chunks, it, pos)
    {
      if nItems == 0 {
        return END;
      }
      var p, px := Locate(pos);
      if p.Some? {
        return Iter(p, pos - px, pos);
      }
      return END;
    }

    /** force_iterator_at: like iterator_at, growing by one chunk when pos is beyond the last, then trying again. */
    method ForceIteratorAt(pos: nat) returns (it: Iter)
      requires Valid()
      modifies this`chunks
      ensures Valid() && Stands(chunks, it, pos)
      ensures old(chunks) <= chunks
      ensures |chunks| == |old(chunks)| + if pos < Total(old(chunks)) then 0 else 1
      ensures GrownFor(old(chunks), chunks, pos)
      decreases pos >= Total(chunks)
    {
      var p, px := Locate(pos);
      if p.Some? {
        return Iter(p, pos - px, pos);
      }
      var mul := chunks[|chunks| - 1].Mul() + 2;
      if mul < (pos - px) / 64 + 2 {
        mul := (pos - px) / 64 + 2;
      }
      Allocate(mul);
      it := ForceIteratorAt(pos);
    }

    /** iterator::set: stores t in the slot it is on, whatever position it reports; end() stores nothing. */
    method SetAt(it: Iter, t: T)
      requires Valid() && (it.i.Some? ==> OnSlot(chunks, it))
      modifies this
      ensures Valid() && SameShape(old(chunks), chunks)
      ensures contents == if it.i.Some? then old(contents)[Spot(old(chunks), it) := t] else old(contents)
    {
      if it.i.None? {
        return;
      }
      var k := it.i.value;
      SlotValue(chunks, contents, it);
      var c, added := chunks[k].Set(it.pos, t);
      SlotUpdate(chunks, contents, k, it.pos, Some(t), c);
      contents := contents[Spot(chunks, it) := t];
      chunks := chunks[k := c];
      if added {
        nItems := nItems + 1;
      }
    }

    /** iterator::free: empties the slot it is on, whatever position it reports; end() empties nothing. */
    method FreeIter(it: Iter)
      requires Valid() && (it.i.Some? ==> OnSlot(chunks, it))
      modifies this
      ensures Valid() && SameShape(old(chunks), chunks)
      ensures contents == if it.i.Some? then old(contents) - {Spot(old(chunks), it)} else old(contents)
    {
      if it.i.None? {
        return;
      }
      var k := it.i.value;
      SlotValue(chunks, contents, it);
      var c, removed := chunks[k].Destroy(it.pos);
      SlotUpdate(chunks, contents, k, it.pos, None, c);
      RemoveSize(contents, Spot(chunks, it));
      contents := contents - {Spot(chunks, it)};
      chunks := chunks[k := c];
      if removed {
        nItems := nItems - 1;
      }
    }

    /** set: stores t at pos, growing the vector when pos is beyond its last chunk. */
    method Set(pos: nat, t: T)
      requires Valid()
      modifies this
      ensures Valid() && contents == old(contents)[pos := t]
      ensures GrownFor(old(chunks), chunks, pos)
    {
      var it := ForceIteratorAt(pos);
      ghost var grown := chunks;
      SetAt(it, t);
      GrownSame(old(chunks), grown, chunks, pos);
    }

    /** construct: default-constructs an object at pos unless there is one. */
    method Construct(pos: nat, dflt: T)
      requires Valid()
      modifies this
      ensures Valid()
      ensures contents == if pos in old(contents) then old(contents) else old(contents)[pos := dflt]
      ensures GrownFor(old(chunks), chunks, pos)
    {
      var it := ForceIteratorAt(pos);
      ghost var grown := chunks;
      SlotValue(chunks, contents, it);
      var v := chunks[it.i.value].GetPtr(it.pos);
      if v.None? {
        SetAt(it, dflt);
        GrownSame(old(chunks), grown, chunks, pos);
      }
    }

    /** free_at: true exactly when there was an object at pos. */
    method FreeAt(pos: nat) returns (ok: bool)
      requires Valid()
      modifies this
      ensures Valid() && contents == old(contents) - {pos}
      ensures (ok <==> pos in old(contents)) && SameShape(old(chunks), chunks)
    {
      var it := IteratorAt(pos);
      ok := false;
      if it.i.Some? {
        SlotValue(chunks, contents, it);
        var v := chunks[it.i.value].GetPtr(it.pos);
        if v.Some? {
          FreeIter(it);
          ok := true;
        }
      }
      assert !ok ==> contents == contents - {pos};
    }

    /** is_free_at. */
    method IsFreeAt(pos: nat) returns (r: bool)
      requires Valid()
      ensures r <==> pos !in contents
    {
      var it := IteratorAt(pos);
      r := true;
      if it.i.Some? {
        SlotValue(chunks, contents, it);
        var v := chunks[it.i.value].GetPtr(it.pos);
        r := v.None?;
      }
    }

    /** get_ptr: what the slot at index at holds. */
    method GetPtr(at: nat) returns (r: Option<T>)
      requires Valid()
      ensures r == Lookup(contents, at)
    {
      var p, px := Locate(at);
      r := None;
      if p.Some? {
        SlotValue(chunks, contents, Iter(p, at - px, at));
        r := chunks[p.value].GetPtr(at - px);
      }
    }

    /** A write through the pointer that set or get_ptr returned for the used slot at. */
    method Write(at: nat, t: T)
      requires Valid() && at in contents
      modifies this
      ensures Valid() && contents == old(contents)[at := t]
    {
      var p, px := Locate(at);
      SetAt(Iter(p, at - px, at), t);
    }

    /** reset: back to one empty chunk. */
    method Reset()
      modifies this
      ensures Valid() && contents == map[]
      ensures |chunks| == 1 && chunks[0].Size() == 64
    {
      var c := Chunk<T>.Alloc(1);
      chunks := [c];
      nItems := 0;
      contents := map[];
      assert ChunkAgrees(chunks, 0, contents);
    }

    /** last_free_pos: the end of the last chunk's used part. Above every used index. */
    method LastFreePos() returns (pos: nat)
      requires Valid()
      ensures IsLastFree(chunks, contents, pos)
    {
      var t := |chunks| - 1;
      assert ChunkAgrees(chunks, t, contents);
      var f := chunks[t].LastFree();
      var base := 0;
      for k := 0 to t
        invariant base == Base(chunks, k)
      {
        base := base + chunks[k].Size();
      }
      pos := base + f;
      forall g | g in contents
        ensures g < pos
      {
        if g >= base {
          assert chunks[t].items[g - base] == Lookup(contents, base + (g - base));
        }
      }
      if f > 0 {
        assert chunks[t].items[f - 1] == Lookup(contents, base + (f - 1));
      }
    }

    /** last_free: an iterator on the slot last_free_pos names, in a new chunk when the last one ends used. */
    method LastFree() returns (it: Iter)
      requires Valid()
      modifies this`chunks
      ensures Valid() && Stands(chunks, it, it.gpos) && IsLastFree(old(chunks), contents, it.gpos)
      ensures old(chunks) <= chunks
      ensures |chunks| == |old(chunks)| + if it.gpos == Total(old(chunks)) then 1 else 0
      ensures GrownFor(old(chunks), chunks, it.gpos)
    {
      var t := |chunks| - 1;
      var gp := LastFreePos();
      var sz := Size();
      if gp == sz {
        var mul := chunks[t].Mul() + 2;
        assert ChunkAgrees(chunks, t, contents);
        Allocate(mul);
        it := Iter(Some(t + 1), 0, sz);
      } else {
        it := ForceIteratorAt(gp);
      }
    }

    /** push_back: stores t above every used index. */
    method PushBack(t: T) returns (pos: nat)
      requires Valid()
      modifies this
      ensures Valid() && contents == old(contents)[pos := t]
      ensures forall g :: g in old(contents) ==> g < pos
      ensures IsLastFree(old(chunks), old(contents), pos) && GrownFor(old(chunks), chunks, pos)
    {
      var it := LastFree();
      pos := it.gpos;
      ghost var grown := chunks;
      SetAt(it, t);
      GrownSame(old(chunks), grown, chunks, pos);
    }

    /** first_free_pos: the least unused index. */
    method FirstFreePos() returns (pos: nat)
      requires Valid()
      ensures IsFirstFree(contents, pos) && pos <= Total(chunks)
    {
      var k := 0;
      pos := 0;
      while k < |chunks|
        invariant 0 <= k <= |chunks| && pos == Base(chunks, k)
        invariant forall g :: 0 <= g < pos ==> g in contents
      {
        assert ChunkAgrees(chunks, k, contents);
        var f := chunks[k].FirstFree();
        forall g | pos <= g < pos + f
          ensures g in contents
        {
          assert chunks[k].items[g - pos] == Lookup(contents, pos + (g - pos));
        }
        if f != chunks[k].Size() {
          assert chunks[k].items[f] == Lookup(contents, pos + f);
          BaseOrder(chunks, k, |chunks|);
          pos := pos + f;
          return;
        }
        pos := pos + f;
        k := k + 1;
      }
    }

    /** first_free: an iterator on the least unused index; grows only when every slot is used. */
    method FirstFree() returns (it: Iter)
      requires Valid()
      modifies this`chunks
      ensures Valid() && Stands(chunks, it, it.gpos) && IsFirstFree(contents, it.gpos)
      ensures chunks == old(chunks) <==> exists g :: 0 <= g < Total(old(chunks)) && g !in contents
      ensures GrownFor(old(chunks), chunks, it.gpos)
    {
      var pos := FirstFreePos();
      it := ForceIteratorAt(pos);
    }
  }

  // ---- counting ----

  ghost function KeysBelow<T>(m: map<nat, T>, n: nat): set<nat> {
    set g | g in m && g < n
  }

  ghost function Shifted(s: set<nat>, base: nat): set<nat> {
    set o | o in s :: base + o
  }

  lemma {:induction false} ShiftedSize(s: set<nat>, base: nat)
    ensures |Shifted(s, base)| == |s|
  {
    if s != {} {
      var o :| o in s;
      ShiftedSize(s - {o}, base);
      var rest := Shifted(s - {o}, base);
      forall x | x in Shifted(s, base)
        ensures x in rest + {base + o}
      {
        var y :| y in s && x == base + y;
        assert y == o || y in s - {o};
      }
      assert Shifted(s, base) == rest + {base + o};
    }
  }

  /** The objects of chunk k are the keys of the map in chunk k's index range. */
  lemma ChunkKeys<T>(cs: seq<Chunk<T>>, m: map<nat, T>, k: nat)
    requires Refines(cs, m) && k < |cs| && cs[k].Ok()
    ensures |KeysBelow(m, Base(cs, k + 1))| == |KeysBelow(m, Base(cs, k))| + |cs[k].Occupied()|
  {
    assert ChunkAgrees(cs, k, m);
    var lo, hi := KeysBelow(m, Base(cs, k)), KeysBelow(m, Base(cs, k + 1));
    var part := Shifted(cs[k].Occupied(), Base(cs, k));
    forall g | g in hi && g !in lo
      ensures g in part
    {
      assert cs[k].items[g - Base(cs, k)] == Lookup(m, Base(cs, k) + (g - Base(cs, k)));
      assert g - Base(cs, k) in cs[k].Occupied();
    }
    assert hi == lo + part;
    ShiftedSize(cs[k].Occupied(), Base(cs, k));
  }

  /** pos is the least index that m leaves unused. */
  ghost predicate IsFirstFree<T>(m: map<nat, T>, pos: nat) {
    pos !in m && forall g :: 0 <= g < pos ==> g in m
  }

  /** pos is above every index used, in the last chunk: behind its last used slot, or its start if it has none. */
  ghost predicate IsLastFree<T>(cs: seq<Chunk<T>>, m: map<nat, T>, pos: nat) {
    && |cs| > 0 && Base(cs, |cs| - 1) <= pos <= Total(cs)
    && (forall g :: g in m ==> g < pos)
    && (pos == Base(cs, |cs| - 1) || pos - 1 in m)
  }

  /** The position depends on the shape of the chunks and the used indices only. */
  lemma LastFreeUnique<T>(cs: seq<Chunk<T>>, m: map<nat, T>, p: nat, ds: seq<Chunk<T>>, n: map<nat, T>, q: nat)
    requires IsLastFree(cs, m, p) && IsLastFree(ds, n, q) && SameShape(cs, ds) && m.Keys == n.Keys
    ensures p == q
  {
    BaseSame(cs, ds, |cs| - 1);
    assert forall g :: g in m <==> g in n.Keys;
  }

  lemma RemoveSize<T>(m: map<nat, T>, g: nat)
    ensures |m - {g}| == |m| - if g in m then 1 else 0
  {
    if g in m {
      assert m.Keys == (m - {g}).Keys + {g};
    } else {
      assert m - {g} == m;
    }
  }
}
