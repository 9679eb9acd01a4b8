/**
 One chunk of an inpvec: mul 64-bit occupancy words and 64 * mul slots stored in
 place. The searches run on the words; what they find is stated about the slots.
 */
module Chunks {
  import opened BitWord
  import opened WordSearch

  datatype Option<+T> = None | Some(value: T)

  /** Slot at of a bitmap is in use. */
  predicate UsedIn(bmap: seq<bv64>, at: nat)
    requires at < 64 * |bmap|
  {
    Bit(bmap[at / 64], at % 64)
  }

  // ---- bitmaps as sequences of words ----

  lemma SetWordBit(bmap: seq<bv64>, at: nat, o: nat)
    requires at < 64 * |bmap| && o < 64 * |bmap|
    ensures UsedIn(bmap[at / 64 := SetBit(bmap[at / 64], at % 64)], o) <==> o == at || UsedIn(bmap, o)
  {
    SetBitOnly(bmap[at / 64], at % 64, o % 64);
  }

  lemma ClearWordBit(bmap: seq<bv64>, at: nat, o: nat)
    requires at < 64 * |bmap| && o < 64 * |bmap|
    ensures UsedIn(bmap[at / 64 := ClearBit(bmap[at / 64], at % 64)], o) <==> o != at && UsedIn(bmap, o)
  {
    ClearBitOnly(bmap[at / 64], at % 64, o % 64);
  }

  /** The members below n of a set of naturals given by its characteristic function. */
  ghost function Below(u: nat -> bool, n: nat): set<nat> {
    set at | 0 <= at < n && u(at)
  }

  lemma BelowStep(u: nat -> bool, n: nat)
    ensures |Below(u, n + 1)| == |Below(u, n)| + if u(n) then 1 else 0
  {
    if u(n) {
      assert Below(u, n + 1) == Below(u, n) + {n};
    } else {
      assert Below(u, n + 1) == Below(u, n);
    }
  }

  ghost function Slots(bmap: seq<bv64>): nat -> bool {
    (at: nat) => at < 64 * |bmap| && UsedIn(bmap, at)
  }

  /** Adding the bit count of word i to the slots before it counts the slots of word i. */
  lemma {:induction false} BelowWord(bmap: seq<bv64>, i: nat, n: nat)
    requires i < |bmap| && n <= 64
    ensures |Below(Slots(bmap), 64 * i + n)| == |Below(Slots(bmap), 64 * i)| + Count(bmap[i], n)
  {
    if n > 0 {
      BelowWord(bmap, i, n - 1);
      BelowStep(Slots(bmap), 64 * i + n - 1);
      assert (64 * i + n - 1) / 64 == i && (64 * i + n - 1) % 64 == n - 1;
    }
  }

  /** One chunk: inpvec::item. A slot that is None is raw storage without an object in it. */
  datatype Chunk<T> = Chunk(bmap: seq<bv64>, items: seq<Option<T>>) {
    function Mul(): nat {
      |bmap|
    }

    function Size(): nat {
      64 * |bmap|
    }

    /** The bitmap and the storage have the chunk's size, and a slot holds an object exactly when its bit is set. */
    ghost predicate Ok()
    {
      && |bmap| > 0 && |items| == 64 * |bmap|
      && forall at {:trigger UsedIn(bmap, at)} :: 0 <= at < 64 * |bmap| ==> (UsedIn(bmap, at) <==> items[at].Some?)
    }

    /** The slots that hold an object. */
    ghost function Occupied(): set<nat>
      requires |items| == 64 * |bmap|
    {
      set at | 0 <= at < 64 * |bmap| && items[at].Some?
    }

    lemma BitIsObject()
      requires Ok()
      ensures forall at {:trigger items[at]} :: 0 <= at < Size() ==> (UsedIn(bmap, at) <==> items[at].Some?)
    {}

    /** mul_alloc: a chunk of m words, all slots free. */
    static method Alloc(m: nat) returns (c: Chunk<T>)
      requires m > 0
      ensures c.Ok() && c.Mul() == m
      ensures forall at :: 0 <= at < c.Size() ==> c.items[at].None?
    {
      c := Chunk(seq(m, _ => 0), seq(64 * m, _ => None));
      forall at | 0 <= at < c.Size()
        ensures !UsedIn(c.bmap, at)
      {
        ZeroWord(at % 64);
      }
    }

    /** n_items: population count through the byte table. */
    method NItems() returns (n: nat)
      requires Ok()
      ensures n == |Occupied()|
    {
      n := 0;
      for i := 0 to |bmap|
        invariant n == |Below(Slots(bmap), 64 * i)|
      {
        var c := CountInWord(bmap[i]);
        BelowWord(bmap, i, 64);
        n := n + c;
      }
      BitIsObject();
      assert Below(Slots(bmap), 64 * |bmap|) == Occupied();
    }

    /** last_free: one past the highest used slot. */
    method LastFree() returns (r: nat)
      requires Ok()
      ensures r <= Size()
      ensures forall at :: r <= at < Size() ==> items[at].None?
      ensures r > 0 ==> items[r - 1].Some?
    {
      r := LastFreeBit();
      BitIsObject();
    }

    method LastFreeBit() returns (r: nat)
      requires Ok()
      ensures r <= Size()
      ensures forall at :: r <= at < Size() ==> !UsedIn(bmap, at)
      ensures r > 0 ==> UsedIn(bmap, r - 1)
    {
      r := Size();
      var i := |bmap|;
      while i > 0
        invariant 0 <= i <= |bmap| && r == 64 * i
        invariant forall at :: r <= at < Size() ==> !UsedIn(bmap, at)
      {
        i := i - 1;
        if bmap[i] == 0 {
          forall at | 64 * i <= at < 64 * i + 64
            ensures !UsedIn(bmap, at)
          {
            ZeroWord(at % 64);
          }
          r := 64 * i;
        } else {
          var f := LastFreeInWord(bmap[i]);
          r := 64 * i + f;
          assert forall at :: r <= at < 64 * i + 64 ==> !UsedIn(bmap, at);
          if f != 0 {
            return;
          }
        }
      }
    }

    /** first_free: the lowest free slot, or the size of the chunk when it is full. */
    method FirstFree() returns (r: nat)
      requires Ok()
      ensures r <= Size()
      ensures forall at :: 0 <= at < r ==> items[at].Some?
      ensures r < Size() ==> items[r].None?
    {
      r := FirstFreeBit();
      BitIsObject();
    }

    method FirstFreeBit() returns (r: nat)
      requires Ok()
      ensures r <= Size()
      ensures forall at :: 0 <= at < r ==> UsedIn(bmap, at)
      ensures r < Size() ==> !UsedIn(bmap, r)
    {
      for i := 0 to |bmap|
        invariant forall at :: 0 <= at < 64 * i ==> UsedIn(bmap, at)
      {
        if bmap[i] == 0xFFFF_FFFF_FFFF_FFFF {
          forall at | 64 * i <= at < 64 * i + 64
            ensures UsedIn(bmap, at)
          {
            FullWord(at % 64);
          }
        } else {
          var f := FirstFreeInWord(bmap[i]);
          assert forall at :: 64 * i <= at < 64 * i + f ==> UsedIn(bmap, at);
          if f < 64 {
            return 64 * i + f;
          }
        }
      }
      return Size();
    }

    /** set: assigns to a used slot, constructs in a free one. Says whether the slot was free. */
    method Set(at: nat, t: T) returns (c: Chunk<T>, added: bool)
      requires Ok() && at < Size()
      ensures c.Ok() && c.Mul() == Mul()
      ensures c.items == items[at := Some(t)]
      ensures added <==> items[at].None?
    {
      assert UsedIn(bmap, at) <==> items[at].Some?;
      if Bit(bmap[at / 64], at % 64) {
        return Chunk(bmap, items[at := Some(t)]), false;
      }
      c := Chunk(bmap[at / 64 := SetBit(bmap[at / 64], at % 64)], items[at := Some(t)]);
      forall o | 0 <= o < Size()
        ensures UsedIn(c.bmap, o) <==> c.items[o].Some?
      {
        SetWordBit(bmap, at, o);
        assert UsedIn(bmap, o) <==> items[o].Some?;
      }
      added := true;
    }

    /** destroy(at): a used slot loses its object, a free one is left alone. Says whether there was one. */
    method Destroy(at: nat) returns (c: Chunk<T>, removed: bool)
      requires Ok() && at < Size()
      ensures c.Ok() && c.Mul() == Mul()
      ensures c.items == items[at := None]
      ensures removed <==> items[at].Some?
    {
      assert UsedIn(bmap, at) <==> items[at].Some?;
      if !Bit(bmap[at / 64], at % 64) {
        return this, false;
      }
      c := Chunk(bmap[at / 64 := ClearBit(bmap[at / 64], at % 64)], items[at := None]);
      forall o | 0 <= o < Size()
        ensures UsedIn(c.bmap, o) <==> c.items[o].Some?
      {
        ClearWordBit(bmap, at, o);
        assert UsedIn(bmap, o) <==> items[o].Some?;
      }
      removed := true;
    }

    /** get_ptr: what a slot holds. */
    method GetPtr(at: nat) returns (r: Option<T>)
      requires Ok() && at < Size()
      ensures r == items[at]
    {
      assert UsedIn(bmap, at) <==> items[at].Some?;
      if Bit(bmap[at / 64], at % 64) {
        r := items[at];
      } else {
        r := None;
      }
    }

    /** is_last: no slot after at is used. */
    method IsLast(at: nat) returns (r: bool)
      requires Ok() && at < Size()
      ensures r <==> forall o :: at < o < Size() ==> items[o].None?
    {
      var n := NextUsed(at);
      r := n.None?;
    }

    /** next_used: the first used slot after at. */
    method NextUsed(at: nat) returns (r: Option<nat>)
      requires Ok()
      ensures r.Some? ==> at < r.value < Size() && items[r.value].Some?
      ensures r.Some? ==> forall o :: at < o < r.value ==> items[o].None?
      ensures r.None? ==> forall o :: at < o < Size() ==> items[o].None?
    {
      r := NextUsedBit(at);
      BitIsObject();
    }

    /** The bits of word i from pos on: the first one that is set. */
    method NextInWord(i: nat, pos: nat) returns (r: Option<nat>)
      requires i < |bmap| && pos < 64
      ensures r.Some? ==> 64 * i + pos <= r.value < 64 * i + 64 && UsedIn(bmap, r.value)
      ensures r.Some? ==> forall o :: 64 * i + pos <= o < r.value ==> !UsedIn(bmap, o)
      ensures r.None? ==> forall o :: 64 * i + pos <= o < 64 * i + 64 ==> !UsedIn(bmap, o)
    {
      var j := pos;
      while j < 64
        invariant pos <= j <= 64
        invariant forall o :: 64 * i + pos <= o < 64 * i + j ==> !UsedIn(bmap, o)
      {
        if Bit(bmap[i], j) {
          assert UsedIn(bmap, 64 * i + j);
          return Some(64 * i + j);
        }
        assert !UsedIn(bmap, 64 * i + j);
        if ShiftedOut(bmap[i], Shift(j)) {
          forall o | 64 * i + j < o < 64 * i + 64
            ensures !UsedIn(bmap, o)
          {
            NoBitsFrom(bmap[i], j, o - 64 * i);
          }
          j := 64;
        } else {
          j := j + 1;
        }
      }
      r := None;
    }

    method NextUsedBit(at: nat) returns (r: Option<nat>)
      requires Ok()
      ensures r.Some? ==> at < r.value < Size() && UsedIn(bmap, r.value)
      ensures r.Some? ==> forall o :: at < o < r.value ==> !UsedIn(bmap, o)
      ensures r.None? ==> forall o :: at < o < Size() ==> !UsedIn(bmap, o)
    {
      var i, pos := (at + 1) / 64, (at + 1) % 64;
      while i < |bmap|
        invariant 0 <= pos < 64
        invariant i < |bmap| ==> at < 64 * i + pos
        invariant forall o :: at < o < 64 * i + pos && o < Size() ==> !UsedIn(bmap, o)
      {
        r := NextInWord(i, pos);
        if r.Some? {
          return;
        }
        pos := 0;
        i := i + 1;
      }
      r := None;
    }
  }
}
