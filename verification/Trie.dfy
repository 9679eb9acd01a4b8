/**
 The index of the hash: a trie over the bytes of a key, lowest byte first, kept in one
 sparse vector. An entry is a page or a link to a block of 256 entries. A split turns
 a page into a link to a new block at the end of the vector.
 */
module Trie {
  import opened Chunks
  import opened Division
  import opened InpVec

  const WORD: nat := 0x1_0000_0000_0000_0000
  const NOT_FOUND: nat := 0xffff_ffff_ffff_ffff

  // ---- entries ----

  /** An entry: a position of 63 bits, and whether it is a page. */
  function Pack(pos: nat, isPage: bool): (r: nat)
    ensures IsPage(r) == isPage && (pos < WORD / 2 ==> Pos(r) == pos)
  {
    2 * (pos % (WORD / 2)) + if isPage then 1 else 0
  }

  predicate IsPage(p: nat) {
    p % 2 == 1
  }

  function Pos(p: nat): nat {
    p / 2
  }

  /** The entry is the word (pos << 1) | is_page; the shift drops the top bit of pos. */
  lemma PackIsShift(pos: nat, isPage: bool)
    ensures Pack(pos, isPage) == (2 * pos + if isPage then 1 else 0) % WORD
    ensures Pos(Pack(pos, isPage)) == pos % (WORD / 2)
  {
  }

  // ---- resolution ----

  function Pow2(i: nat): (r: nat)
    ensures r > 0
  {
    if i == 0 then 1 else 2 * Pow2(i - 1)
  }

  /** Index of the first entry of block b. */
  function Block(b: nat): nat {
    256 * b
  }

  /** (hk >> i) & 0xff */
  function Digit(hk: nat, i: nat): (r: nat)
    ensures r < 256
  {
    hk / Pow2(i) % 256
  }

  /** Where a key ends up: at a page, at some shift, or nowhere. */
  datatype Found = Missing | At(slot: nat, shift: nat)

  function Resolve(m: map<nat, nat>, hk: nat, off: nat, i: nat): (r: Found)
    ensures r.At? ==> r.slot in m && IsPage(m[r.slot]) && i <= r.shift < 64
    decreases 64 - i
  {
    var at := off + Digit(hk, i);
    if i >= 64 || at !in m then Missing
    else if IsPage(m[at]) then At(at, i)
    else Resolve(m, hk, Block(Pos(m[at])), i + 8)
  }

  // ---- the bytes of a key ----

  /** The lowest n bytes of a key, put together again. */
  ghost function KeySum(hk: nat, n: nat): nat {
    if n == 0 then 0 else KeySum(hk, n - 1) + Pow2(8 * (n - 1)) * Digit(hk, 8 * (n - 1))
  }

  lemma NextByte(i: nat)
    ensures Pow2(i + 8) == 256 * Pow2(i)
  {
    assert Pow2(i + 2) == 4 * Pow2(i);
    assert Pow2(i + 4) == 4 * Pow2(i + 2);
    assert Pow2(i + 6) == 4 * Pow2(i + 4);
  }

  /** The digit at i is what a key has modulo 2^(i + 8) beyond what it has modulo 2^i. */
  lemma LowStep(hk: nat, i: nat)
    ensures hk % Pow2(i + 8) == hk % Pow2(i) + Pow2(i) * Digit(hk, i)
  {
    var p, d := Pow2(i), Digit(hk, i);
    var q := hk / p;
    NextByte(i);
    assert hk == p * q + hk % p && q == 256 * (q / 256) + d;
    assert p * q == 256 * p * (q / 256) + p * d;
    MultiplesApart(p, d, 256);
    QuotientIs(hk, 256 * p, q / 256);
  }

  lemma {:induction false} LowBytes(hk: nat, n: nat)
    ensures KeySum(hk, n) == hk % Pow2(8 * n)
  {
    if n > 0 {
      LowBytes(hk, n - 1);
      LowStep(hk, 8 * (n - 1));
      assert 8 * (n - 1) + 8 == 8 * n;
    }
  }

  lemma WordIsPower()
    ensures Pow2(64) == WORD
  {
    NextByte(0);
    NextByte(8);
    NextByte(16);
    NextByte(24);
    NextByte(32);
    NextByte(40);
    NextByte(48);
    NextByte(56);
  }

  lemma BelowDivisor(x: nat, d: nat)
    requires x < d
    ensures x % d == x
  {
    QuotientIs(x, d, 0);
  }

  /** A key of 64 bits is the sum of its eight bytes, byte k times 2^8k. */
  lemma KeyIsItsBytes(hk: nat)
    requires hk < WORD
    ensures KeySum(hk, 8) == hk
  {
    WordIsPower();
    BelowDivisor(hk, Pow2(64));
    LowBytes(hk, 8);
  }

  /** Two keys have the same lowest bits. */
  predicate SameLow(h1: nat, h2: nat, bits: nat) {
    h1 % Pow2(bits) == h2 % Pow2(bits)
  }

  /** One more byte of two keys is the same exactly if that digit is. */
  lemma SameByte(h1: nat, h2: nat, i: nat)
    ensures SameLow(h1, h2, i + 8) <==> SameLow(h1, h2, i) && Digit(h1, i) == Digit(h2, i)
  {
    LowStep(h1, i);
    LowStep(h2, i);
    MultiplesApart(Pow2(i), Digit(h1, i), Digit(h2, i));
    MultiplesApart(Pow2(i), Digit(h2, i), Digit(h1, i));
  }

  // ---- the way of a key through the blocks ----

  type KeyByte = b: nat | b < 256

  /** The bytes of a key, lowest first. */
  ghost function Bytes(hk: nat): (ds: seq<KeyByte>)
    ensures |ds| == 8 && forall n :: 0 <= n < 8 ==> ds[n] == Digit(hk, 8 * n)
  {
    seq(8, n requires 0 <= n < 8 => Digit(hk, 8 * n))
  }

  /** Keys have their lowest 8n bits in common exactly if they have their first n bytes in common. */
  lemma {:induction false} SameBytes(h1: nat, h2: nat, n: nat)
    requires n <= 8
    ensures SameLow(h1, h2, 8 * n) <==> Bytes(h1)[..n] == Bytes(h2)[..n]
  {
    if n > 0 {
      SameBytes(h1, h2, n - 1);
      SameByte(h1, h2, 8 * (n - 1));
      assert Bytes(h1)[..n] == Bytes(h1)[..n - 1] + [Bytes(h1)[n - 1]];
      assert Bytes(h2)[..n] == Bytes(h2)[..n - 1] + [Bytes(h2)[n - 1]];
    }
  }

  /** The block in which byte n selects an entry, if the bytes before it lead over links only. */
  ghost function Reach(m: map<nat, nat>, ds: seq<KeyByte>, n: nat): Option<nat>
    requires n <= |ds|
  {
    if n == 0 then Some(0) else
      var b := Reach(m, ds, n - 1);
      if b.None? then None else
        var at := Block(b.value) + ds[n - 1];
        if at in m && !IsPage(m[at]) then Some(Pos(m[at])) else None
  }

  /** Byte n selects the page in slot. */
  ghost predicate Finds(m: map<nat, nat>, ds: seq<KeyByte>, n: nat, slot: nat)
    requires n < |ds|
  {
    Reach(m, ds, n).Some? && slot == Block(Reach(m, ds, n).value) + ds[n] && slot in m && IsPage(m[slot])
  }

  lemma {:induction false} WayEnds(m: map<nat, nat>, ds: seq<KeyByte>, k: nat, n: nat)
    requires k <= n <= |ds| && Reach(m, ds, k).None?
    ensures Reach(m, ds, n).None?
  {
    if k < n {
      WayEnds(m, ds, k, n - 1);
    }
  }

  /** The bytes lead over the entry at only if that is a link. */
  lemma WayBlocked(m: map<nat, nat>, ds: seq<KeyByte>, b: nat, k: nat, n: nat)
    requires k < n <= |ds| && Reach(m, ds, k) == Some(b)
    requires var at := Block(b) + ds[k]; at !in m || IsPage(m[at])
    ensures Reach(m, ds, n).None?
  {
    WayEnds(m, ds, k + 1, n);
  }

  lemma ResolveStep(m: map<nat, nat>, hk: nat, off: nat, i: nat)
    requires i < 64
    ensures var at := off + Digit(hk, i);
            Resolve(m, hk, off, i) == if at !in m then Missing else if IsPage(m[at]) then At(at, i)
                                      else Resolve(m, hk, Block(Pos(m[at])), i + 8)
  {}

  /** One level of resolution. */
  lemma ResolveLevel(m: map<nat, nat>, hk: nat, b: nat, k: nat)
    requires k < 8
    ensures var at := Block(b) + Bytes(hk)[k];
            Resolve(m, hk, Block(b), 8 * k) ==
            if at !in m then Missing else if IsPage(m[at]) then At(at, 8 * k)
            else Resolve(m, hk, Block(Pos(m[at])), 8 * (k + 1))
  {
    ResolveStep(m, hk, Block(b), 8 * k);
    assert 8 * (k + 1) == 8 * k + 8;
  }

  lemma {:induction false} ResolveOnWay(m: map<nat, nat>, hk: nat, b: nat, k: nat, n: nat, slot: nat)
    requires k <= n < 8 && Reach(m, Bytes(hk), k) == Some(b)
    ensures Resolve(m, hk, Block(b), 8 * k) == At(slot, 8 * n) <==> Finds(m, Bytes(hk), n, slot)
    decreases n - k
  {
    var at := Block(b) + Bytes(hk)[k];
    ResolveLevel(m, hk, b, k);
    if k < n {
      if at in m && !IsPage(m[at]) {
        ResolveOnWay(m, hk, Pos(m[at]), k + 1, n, slot);
      } else {
        WayBlocked(m, Bytes(hk), b, k, n);
      }
    }
  }

  /** A key resolves to a page at shift 8n exactly if its first n bytes lead over links and byte n to that page. */
  lemma ResolveIsWay(m: map<nat, nat>, hk: nat, n: nat, slot: nat)
    requires n < 8
    ensures Resolve(m, hk, 0, 0) == At(slot, 8 * n) <==> Finds(m, Bytes(hk), n, slot)
  {
    ResolveOnWay(m, hk, 0, 0, n, slot);
  }

  /** A page in the first block is the page of exactly the keys whose lowest byte is its slot. */
  lemma RootPage(m: map<nat, nat>, hk: nat, slot: nat)
    requires slot < 256 && slot in m && IsPage(m[slot])
    ensures Resolve(m, hk, 0, 0) == At(slot, 0) <==> hk % 256 == slot
  {
    ResolveIsWay(m, hk, 0, slot);
    assert Digit(hk, 0) == hk % 256;
  }

  lemma {:induction false} SameWay(m: map<nat, nat>, ds: seq<KeyByte>, es: seq<KeyByte>, n: nat)
    requires n <= |ds| && n <= |es| && ds[..n] == es[..n]
    ensures Reach(m, ds, n) == Reach(m, es, n)
  {
    if n > 0 {
      assert ds[..n][..n - 1] == ds[..n - 1] && es[..n][..n - 1] == es[..n - 1];
      assert ds[n - 1] == ds[..n][n - 1] == es[..n][n - 1];
      SameWay(m, ds, es, n - 1);
    }
  }

  lemma AlikeAt(m: map<nat, nat>, h1: nat, h2: nat, k: nat, n: nat, slot: nat)
    requires n < k <= 8 && SameLow(h1, h2, 8 * k)
    ensures Resolve(m, h1, 0, 0) == At(slot, 8 * n) <==> Resolve(m, h2, 0, 0) == At(slot, 8 * n)
  {
    var ds, es := Bytes(h1), Bytes(h2);
    SameBytes(h1, h2, k);
    assert ds[..n] == ds[..k][..n] == es[..k][..n] == es[..n] && ds[n] == ds[..k][n] == es[..k][n] == es[n];
    SameWay(m, ds, es, n);
    ResolveIsWay(m, h1, n, slot);
    ResolveIsWay(m, h2, n, slot);
  }

  /** The entry at index at is a link to block b. */
  ghost predicate LinksTo(m: map<nat, nat>, at: nat, b: nat) {
    at in m && !IsPage(m[at]) && Pos(m[at]) == b
  }

  /** No block is linked twice, and the first block is not linked. */
  ghost predicate Tree(m: map<nat, nat>) {
    (forall at :: !LinksTo(m, at, 0)) && (forall x, y, b :: LinksTo(m, x, b) && LinksTo(m, y, b) ==> x == y)
  }

  /** The entry over which byte n - 1 leads on. */
  ghost function Over(m: map<nat, nat>, ds: seq<KeyByte>, n: nat): (at: nat)
    requires 0 < n <= |ds| && Reach(m, ds, n).Some?
    ensures LinksTo(m, at, Reach(m, ds, n).value)
    ensures Reach(m, ds, n - 1) == Some(at / 256) && ds[n - 1] == at % 256
  {
    Block(Reach(m, ds, n - 1).value) + ds[n - 1]
  }

  /** In a tree a block below the first one is reached over the same entry only. */
  lemma SameOver(m: map<nat, nat>, ds: seq<KeyByte>, es: seq<KeyByte>, n: nat, k: nat)
    requires 0 < n <= |ds| && 0 < k <= |es| && Tree(m)
    requires Reach(m, ds, n).Some? && Reach(m, ds, n) == Reach(m, es, k)
    ensures Reach(m, ds, n - 1).Some? && Reach(m, ds, n - 1) == Reach(m, es, k - 1) && ds[n - 1] == es[k - 1]
  {
    assert Over(m, ds, n) == Over(m, es, k);
  }

  lemma BelowRoot(m: map<nat, nat>, ds: seq<KeyByte>, n: nat)
    requires 0 < n <= |ds| && Tree(m) && Reach(m, ds, n).Some?
    ensures Reach(m, ds, n).value > 0
  {
    assert LinksTo(m, Over(m, ds, n), Reach(m, ds, n).value);
  }

  lemma OneMoreByte(ds: seq<KeyByte>, es: seq<KeyByte>, n: nat)
    requires n < |ds| && n < |es| && ds[..n] == es[..n] && ds[n] == es[n]
    ensures ds[..n + 1] == es[..n + 1]
  {
    assert ds[..n + 1] == ds[..n] + [ds[n]] && es[..n + 1] == es[..n] + [es[n]];
  }

  /** In a tree a block is reached after the same bytes only. */
  lemma {:induction false} OneWay(m: map<nat, nat>, ds: seq<KeyByte>, es: seq<KeyByte>, n: nat, k: nat)
    requires n <= |ds| && k <= |es| && Tree(m) && Reach(m, ds, n).Some? && Reach(m, ds, n) == Reach(m, es, k)
    ensures n == k && ds[..n] == es[..n]
    decreases n
  {
    if n > 0 && k > 0 {
      SameOver(m, ds, es, n, k);
      OneWay(m, ds, es, n - 1, k - 1);
      OneMoreByte(ds, es, n - 1);
    } else if n > 0 {
      BelowRoot(m, ds, n);
    } else if k > 0 {
      BelowRoot(m, es, k);
    }
  }

  /** Both keys find the same page: it is after the same bytes. */
  lemma OnePageOneWay(m: map<nat, nat>, ds: seq<KeyByte>, es: seq<KeyByte>, n: nat, k: nat, slot: nat)
    requires n < |ds| && k < |es| && Tree(m) && Finds(m, ds, n, slot) && Finds(m, es, k, slot)
    ensures n == k && ds[..n + 1] == es[..n + 1]
  {
    assert Reach(m, ds, n) == Some(slot / 256) == Reach(m, es, k);
    OneWay(m, ds, es, n, k);
    OneMoreByte(ds, es, n);
  }

  lemma SamePage(m: map<nat, nat>, h1: nat, h2: nat, n: nat, k: nat, slot: nat)
    requires Tree(m) && n < 8 && k < 8
    requires Resolve(m, h1, 0, 0) == At(slot, 8 * n) && Resolve(m, h2, 0, 0) == At(slot, 8 * k)
    ensures n == k && SameLow(h1, h2, 8 * (n + 1))
  {
    ResolveIsWay(m, h1, n, slot);
    ResolveIsWay(m, h2, k, slot);
    OnePageOneWay(m, Bytes(h1), Bytes(h2), n, k, slot);
    SameBytes(h1, h2, n + 1);
  }

  lemma {:induction false} ShiftIsByte(m: map<nat, nat>, hk: nat, off: nat, k: nat) returns (n: nat)
    requires k <= 8 && Resolve(m, hk, off, 8 * k).At?
    ensures n < 8 && Resolve(m, hk, off, 8 * k).shift == 8 * n
    decreases 8 - k
  {
    assert k < 8;
    ResolveStep(m, hk, off, 8 * k);
    var at := off + Digit(hk, 8 * k);
    if IsPage(m[at]) {
      n := k;
    } else {
      assert 8 * (k + 1) == 8 * k + 8;
      n := ShiftIsByte(m, hk, Block(Pos(m[at])), k + 1);
    }
  }

  /** A page that is found is found at a whole byte. */
  lemma AtByte(m: map<nat, nat>, hk: nat) returns (n: nat)
    requires Resolve(m, hk, 0, 0).At?
    ensures n < 8 && Resolve(m, hk, 0, 0).shift == 8 * n
  {
    n := ShiftIsByte(m, hk, 0, 0);
  }

  /** In any index, keys that are equal modulo 2^(i + 8) resolve alike up to shift i. */
  lemma SameLowResolvesAlike(m: map<nat, nat>, h1: nat, h2: nat, i: nat, slot: nat, shift: nat)
    requires i < 64 && i % 8 == 0 && SameLow(h1, h2, i + 8) && shift <= i
    ensures Resolve(m, h1, 0, 0) == At(slot, shift) <==> Resolve(m, h2, 0, 0) == At(slot, shift)
  {
    var k := i / 8 + 1;
    assert 8 * k == i + 8;
    if Resolve(m, h1, 0, 0) == At(slot, shift) {
      var n := AtByte(m, h1);
      AlikeAt(m, h1, h2, k, n, slot);
    } else if Resolve(m, h2, 0, 0) == At(slot, shift) {
      var n := AtByte(m, h2);
      AlikeAt(m, h1, h2, k, n, slot);
    }
  }

  /**
   If no block is linked twice, the page a key resolves to at shift i is the page of exactly the keys that are
   equal to it modulo 2^(i + 8).
   */
  lemma KeysOfPage(m: map<nat, nat>, h1: nat, h2: nat)
    requires Tree(m) && Resolve(m, h1, 0, 0).At?
    ensures var r, r' := Resolve(m, h1, 0, 0), Resolve(m, h2, 0, 0);
            && (r'.At? && r'.slot == r.slot <==> SameLow(h1, h2, r.shift + 8))
            && (r'.At? && r'.slot == r.slot ==> r' == r)
  {
    var r, r' := Resolve(m, h1, 0, 0), Resolve(m, h2, 0, 0);
    var n := AtByte(m, h1);
    assert 8 * (n + 1) == r.shift + 8;
    if SameLow(h1, h2, r.shift + 8) {
      AlikeAt(m, h1, h2, n + 1, n, r.slot);
    } else if r'.At? && r'.slot == r.slot {
      var k := AtByte(m, h2);
      SamePage(m, h1, h2, n, k, r.slot);
    }
  }

  // ---- what a split does to resolution ----

  /** Every link leads to a block that has an entry in it or beyond it. */
  ghost predicate Anchored(m: map<nat, nat>) {
    forall at :: at in m && !IsPage(m[at]) ==> exists g :: g in m && Block(Pos(m[at])) <= g
  }

  /** The entry at index at once slot links to block e, in which reg gives the pages by byte. */
  ghost function Entry(m: map<nat, nat>, slot: nat, e: nat, reg: map<nat, nat>, at: nat): Option<nat> {
    if at >= Block(e) && at - Block(e) in reg then Some(Pack(reg[at - Block(e)], true))
    else if at == slot then Some(Pack(e, false))
    else Lookup(m, at)
  }

  ghost predicate SplitInto(m: map<nat, nat>, n: map<nat, nat>, slot: nat, e: nat, reg: map<nat, nat>) {
    forall at: nat :: Lookup(n, at) == Entry(m, slot, e, reg, at)
  }

  /** Block e starts at or above ii, which is above every entry: nothing is stored in it or beyond. */
  ghost predicate Fresh(m: map<nat, nat>, e: nat) {
    forall g :: g in m ==> g < Block(e)
  }

  /** A key that reached the split page goes on to the page of its next byte, if that byte was registered. */
  ghost function Descend(e: nat, reg: map<nat, nat>, hk: nat, shift: nat): Found {
    if shift < 56 && Digit(hk, shift + 8) in reg then At(Block(e) + Digit(hk, shift + 8), shift + 8) else Missing
  }

  lemma ResolveSplit(m: map<nat, nat>, n: map<nat, nat>, slot: nat, e: nat, reg: map<nat, nat>,
                     hk: nat, off: nat, i: nat)
    requires SplitInto(m, n, slot, e, reg) && Fresh(m, e) && slot in m
    requires off + Digit(hk, i) == slot && i < 64 && e < WORD / 2
    ensures Resolve(n, hk, off, i) == if i < 56 then Descend(e, reg, hk, i) else Missing
  {
    assert Lookup(n, slot) == Entry(m, slot, e, reg, slot) == Some(Pack(e, false));
    var next := Block(e) + Digit(hk, i + 8);
    assert Lookup(n, next) == Entry(m, slot, e, reg, next);
  }

  /** Entries below block e other than the split one are as they were. */
  lemma BelowBlock(m: map<nat, nat>, n: map<nat, nat>, slot: nat, e: nat, reg: map<nat, nat>, at: nat)
    requires SplitInto(m, n, slot, e, reg) && at != slot && at < Block(e)
    ensures Lookup(n, at) == Lookup(m, at)
  {
    assert Lookup(n, at) == Entry(m, slot, e, reg, at);
  }

  /** n is m with its page slot split into the block e above every entry. */
  ghost predicate CanSplit(m: map<nat, nat>, n: map<nat, nat>, slot: nat, e: nat, reg: map<nat, nat>) {
    SplitInto(m, n, slot, e, reg) && Anchored(m) && Fresh(m, e) && slot in m && IsPage(m[slot]) && e < WORD / 2
  }

  ghost predicate ResolvesOn(m: map<nat, nat>, n: map<nat, nat>, slot: nat, e: nat, reg: map<nat, nat>,
                             hk: nat, off: nat, i: nat)
  {
    var r := Resolve(m, hk, off, i);
    Resolve(n, hk, off, i) == if r.At? && r.slot == slot then Descend(e, reg, hk, r.shift) else r
  }

  /** Every link leads to a block below e. */
  lemma LinkBelow(m: map<nat, nat>, e: nat, at: nat)
    requires Anchored(m) && Fresh(m, e) && at in m && !IsPage(m[at])
    ensures Pos(m[at]) < e
  {
    var g :| g in m && Block(Pos(m[at])) <= g;
  }

  /**
   A split moves the keys that resolved to the split page one level down, to the page
   registered for their next byte or to nothing; every other key resolves as before.
   */
  lemma {:induction false} SplitResolves(m: map<nat, nat>, n: map<nat, nat>, slot: nat, e: nat, reg: map<nat, nat>,
                                         hk: nat, b: nat, i: nat)
    requires CanSplit(m, n, slot, e, reg)
    requires b < e && i <= 64 && i % 8 == 0
    ensures ResolvesOn(m, n, slot, e, reg, hk, Block(b), i)
    decreases 64 - i
  {
    var at := Block(b) + Digit(hk, i);
    if i < 64 {
      if at == slot {
        ResolveSplit(m, n, slot, e, reg, hk, Block(b), i);
      } else {
        BelowBlock(m, n, slot, e, reg, at);
        if at in m && !IsPage(m[at]) {
          LinkBelow(m, e, at);
          SplitResolves(m, n, slot, e, reg, hk, Pos(m[at]), i + 8);
        }
      }
    }
  }

  /** The links stay anchored exactly if the split registers a page. */
  lemma AnchoredIff(m: map<nat, nat>, n: map<nat, nat>, slot: nat, e: nat, reg: map<nat, nat>)
    requires SplitInto(m, n, slot, e, reg) && Anchored(m) && Fresh(m, e) && slot in m && e < WORD / 2
    ensures Anchored(n) <==> reg != map[]
  {
    assert Lookup(n, slot) == Entry(m, slot, e, reg, slot) == Some(Pack(e, false));
    if reg != map[] {
      var x :| x in reg;
      var top := Block(e) + x;
      assert Lookup(n, top) == Entry(m, slot, e, reg, top);
      forall at | at in n && !IsPage(n[at])
        ensures exists g :: g in n && Block(Pos(n[at])) <= g
      {
        assert Lookup(n, at) == Entry(m, slot, e, reg, at);
        assert Block(Pos(n[at])) <= top;
      }
    } else {
      forall g | g in n
        ensures g < Block(e)
      {
        assert Lookup(n, g) == Entry(m, slot, e, reg, g);
      }
    }
  }

  // ---- which positions the split registers ----

  /** The last used slot of c behind slot s; 0 if there is none. */
  ghost function LastAfter(c: Chunk<nat>, s: nat, n: nat): (r: nat)
    requires n <= |c.items|
    ensures r == 0 || (s < r < n && c.items[r].Some?)
    ensures forall o :: s < o < n && c.items[o].Some? ==> o <= r
  {
    if n == 0 || n - 1 <= s then 0 else if c.items[n - 1].Some? then n - 1 else LastAfter(c, s, n - 1)
  }

  /** The offset behind which the walk with next_used looks at chunk j. */
  ghost function Start(cs: seq<Chunk<nat>>, j: nat): nat
    requires j <= |cs|
  {
    if j == 0 then 0 else LastAfter(cs[j - 1], Start(cs, j - 1), |cs[j - 1].items|)
  }

  /** The walk stops at slot o of chunk j. */
  ghost predicate Met(cs: seq<Chunk<nat>>, j: nat, o: nat) {
    j < |cs| && o < |cs[j].items| && cs[j].items[o].Some? && (o > Start(cs, j) || (j == 0 && o == 0))
  }

  /** The walk has reached (k, p): a slot it stopped at, or the first slot of all. */
  ghost predicate Reached(cs: seq<Chunk<nat>>, k: nat, p: nat) {
    k < |cs| && p < |cs[k].items| && (Met(cs, k, p) || (k == 0 && p == 0))
  }

  /** Nothing more behind (k, p) in the chunks before j: the walk enters chunk j where next_used does. */
  lemma StartReached(cs: seq<Chunk<nat>>, it: Iter, j: nat)
    requires it.i.Some? && Reached(cs, it.i.value, it.pos) && it.i.value < j < |cs|
    requires forall x :: it.i.value <= x < j ==> NoneAfter(cs[x], StartIn(it, x))
    ensures Start(cs, j) == StartIn(it, j)
  {
    assert NoneAfter(cs[j - 1], StartIn(it, j - 1));
  }

  /** Position g is a slot the walk stops at. */
  ghost predicate MetAt(cs: seq<Chunk<nat>>, g: nat) {
    exists j, o :: Met(cs, j, o) && g == Base(cs, j) + o
  }

  /** The entries below n the walk stops at. */
  ghost function Registered(cs: seq<Chunk<nat>>, m: map<nat, nat>, n: nat): map<nat, nat> {
    map g | g in m && g < n && MetAt(cs, g) :: m[g]
  }

  /**
   next_used went from it to chunk k, slot p, or found nothing (k is the number of chunks): it looked at every
   slot behind the starts in between.
   */
  ghost predicate Skipped(cs: seq<Chunk<nat>>, it: Iter, k: nat, p: nat) {
    && it.i.Some? && Reached(cs, it.i.value, it.pos) && it.i.value <= k <= |cs|
    && (forall x :: it.i.value <= x < k ==> NoneAfter(cs[x], StartIn(it, x)))
    && (k < |cs| ==> FirstAfter(cs[k], StartIn(it, k), p))
  }

  lemma NoneSkipped(cs: seq<Chunk<nat>>, it: Iter, k: nat, p: nat, j: nat, o: nat)
    requires Skipped(cs, it, k, p) && j < |cs|
    requires it.i.value < j || (it.i.value == j && it.pos < o)
    requires j < k || (j == k && o < p)
    ensures !Met(cs, j, o)
  {
    if j > it.i.value {
      StartReached(cs, it, j);
    }
    if j < k {
      assert NoneAfter(cs[j], StartIn(it, j));
    }
  }

  lemma NextMet(cs: seq<Chunk<nat>>, it: Iter, k: nat, p: nat)
    requires Skipped(cs, it, k, p) && k < |cs|
    ensures Met(cs, k, p)
  {
    if k > it.i.value {
      StartReached(cs, it, k);
    }
  }

  lemma NoneBetween(cs: seq<Chunk<nat>>, it: Iter, k: nat, p: nat, g: nat)
    requires Skipped(cs, it, k, p)
    requires forall x :: 0 <= x < |cs| ==> cs[x].Ok()
    requires Base(cs, it.i.value) + it.pos < g < Base(cs, k) + if k < |cs| then p else 0
    ensures !MetAt(cs, g)
  {
    forall j: nat, o: nat | Met(cs, j, o) && g == Base(cs, j) + o
      ensures false
    {
      if j < it.i.value {
        BaseOrder(cs, j, it.i.value);
      } else if k < j {
        BaseOrder(cs, k, j);
      } else {
        NoneSkipped(cs, it, k, p, j, o);
      }
    }
  }

  lemma NoneMet(cs: seq<Chunk<nat>>, it: Iter, k: nat, p: nat)
    requires Skipped(cs, it, k, p) && forall x :: 0 <= x < |cs| ==> cs[x].Ok()
    ensures forall x {:trigger MetAt(cs, x)} ::
              Base(cs, it.i.value) + it.pos + 1 <= x < Base(cs, k) + (if k < |cs| then p else 0) ==> !MetAt(cs, x)
  {
    forall x | Base(cs, it.i.value) + it.pos + 1 <= x < Base(cs, k) + if k < |cs| then p else 0
      ensures !MetAt(cs, x)
    {
      NoneBetween(cs, it, k, p, x);
    }
  }

  /** At the start of the walk only slot 0 can have been registered. */
  lemma FirstSlot(cs: seq<Chunk<nat>>, m: map<nat, nat>)
    requires Refines(cs, m)
    ensures Registered(cs, m, 1) == if 0 in m then map[0 := m[0]] else map[]
    ensures 0 in m ==> Registered(cs, m, 1) != map[]
    ensures Reached(cs, 0, 0)
  {
    assert ChunkAgrees(cs, 0, m);
    assert cs[0].items[0] == Lookup(m, Base(cs, 0) + 0);
    if 0 in m {
      assert Met(cs, 0, 0);
      assert 0 in Registered(cs, m, 1);
    }
  }

  lemma AllOk(cs: seq<Chunk<nat>>, m: map<nat, nat>)
    requires Refines(cs, m)
    ensures forall x :: 0 <= x < |cs| ==> cs[x].Ok()
  {
    forall x | 0 <= x < |cs|
      ensures cs[x].Ok()
    {
      assert ChunkAgrees(cs, x, m);
    }
  }

  /** Nothing is met between a and b: what is registered below them is the same. */
  lemma Widen(cs: seq<Chunk<nat>>, m: map<nat, nat>, a: nat, b: nat)
    requires a <= b && forall x {:trigger MetAt(cs, x)} :: a <= x < b ==> !MetAt(cs, x)
    ensures Registered(cs, m, b) == Registered(cs, m, a)
  {
  }

  lemma WidenBy(cs: seq<Chunk<nat>>, m: map<nat, nat>, h: nat)
    requires h in m && MetAt(cs, h)
    ensures Registered(cs, m, h + 1) == Registered(cs, m, h)[h := m[h]]
  {
  }

  /** One more slot met: the walk has registered what it stops at up to that slot. */
  lemma NextRegistered(cs: seq<Chunk<nat>>, m: map<nat, nat>, it: Iter, k: nat, p: nat, n: nat, h: nat, v: nat)
    requires Refines(cs, m) && Skipped(cs, it, k, p) && k < |cs|
    requires n == Base(cs, it.i.value) + it.pos + 1 && h == Base(cs, k) + p && h in m && m[h] == v
    ensures n <= h && Reached(cs, k, p) && Registered(cs, m, h + 1) == Registered(cs, m, n)[h := v]
  {
    NextMet(cs, it, k, p);
    if it.i.value < k {
      BaseOrder(cs, it.i.value, k);
    }
    AllOk(cs, m);
    NoneMet(cs, it, k, p);
    Widen(cs, m, n, h);
    WidenBy(cs, m, h);
  }

  /** The walk stands on (k, p), which it has reached. */
  ghost predicate Walking(cs: seq<Chunk<nat>>, it: Iter) {
    Stands(cs, it, it.gpos) && Reached(cs, it.i.value, it.pos)
  }

  /** One turn of the walk from it: one more position v is registered and the walk is at r, or none is left. */
  ghost predicate WalkedOn(cs: seq<Chunk<nat>>, m: map<nat, nat>, it: Iter, r: Iter, v: Option<nat>) {
    if v.None? then Registered(cs, m, Total(cs)) == Registered(cs, m, it.gpos + 1) else
      && Walking(cs, r) && it.gpos < r.gpos < Total(cs)
      && Registered(cs, m, r.gpos + 1) == Registered(cs, m, it.gpos + 1)[r.gpos := v.value]
  }

  lemma FoundRegistered(cs: seq<Chunk<nat>>, m: map<nat, nat>, it: Iter, r: Iter, v: nat)
    requires Refines(cs, m) && Walking(cs, it) && Stands(cs, r, r.gpos)
    requires Skipped(cs, it, r.i.value, r.pos) && Lookup(m, r.gpos) == Some(v)
    ensures it.gpos < r.gpos && Reached(cs, r.i.value, r.pos)
    ensures Registered(cs, m, r.gpos + 1) == Registered(cs, m, it.gpos + 1)[r.gpos := v]
  {
    NextRegistered(cs, m, it, r.i.value, r.pos, it.gpos + 1, r.gpos, v);
  }

  lemma FoundPage(cs: seq<Chunk<nat>>, m: map<nat, nat>, it: Iter, r: Iter, v: nat)
    requires Refines(cs, m) && Walking(cs, it) && Stands(cs, r, r.gpos)
    requires Skipped(cs, it, r.i.value, r.pos) && Lookup(m, r.gpos) == Some(v)
    ensures WalkedOn(cs, m, it, r, Some(v))
  {
    FoundRegistered(cs, m, it, r, v);
    BaseOrder(cs, r.i.value, |cs|);
  }

  lemma LastPage(cs: seq<Chunk<nat>>, m: map<nat, nat>, it: Iter)
    requires Refines(cs, m) && Walking(cs, it) && Skipped(cs, it, |cs|, 0)
    ensures WalkedOn(cs, m, it, END, None)
  {
    LastRegistered(cs, m, it, it.gpos + 1);
  }

  lemma LastRegistered(cs: seq<Chunk<nat>>, m: map<nat, nat>, it: Iter, n: nat)
    requires Refines(cs, m) && Skipped(cs, it, |cs|, 0) && n == Base(cs, it.i.value) + it.pos + 1
    ensures Registered(cs, m, Total(cs)) == Registered(cs, m, n)
  {
    BaseOrder(cs, it.i.value, |cs|);
    AllOk(cs, m);
    NoneMet(cs, it, |cs|, 0);
    Widen(cs, m, n, Total(cs));
  }

  class Index {
    const items: Vec<nat>

    ghost predicate Valid()
      reads this, items
    {
      items.Valid()
    }

    /** A slot takes 8 bytes, so the address space bounds the vector. */
    ghost predicate Fits()
      reads this, items
    {
      Total(items.chunks) <= WORD / 2
    }

    constructor ()
      ensures Valid() && items.contents == map[] && fresh(items)
      ensures |items.chunks| == 1 && items.chunks[0].Size() == 64
    {
      items := new Vec();
    }

    /** internal_get */
    method InternalGet(at: nat) returns (found: bool, pos: nat, isPage: bool)
      requires Valid()
      ensures found <==> at in items.contents
      ensures found ==> pos == Pos(items.contents[at]) && isPage == IsPage(items.contents[at])
    {
      var i := items.GetPtr(at);
      if i.None? {
        return false, 0, false;
      }
      return true, i.value / 2, i.value % 2 == 1;
    }

    /** internal_set */
    method InternalSet(at: nat, pos: nat, isPage: bool)
      requires Valid()
      modifies items
      ensures Valid() && items.contents == old(items.contents)[at := Pack(pos, isPage)]
      ensures at < Total(old(items.chunks)) ==> SameShape(old(items.chunks), items.chunks)
    {
      PackIsShift(pos, isPage);
      var p := (2 * pos + if isPage then 1 else 0) % WORD;
      items.Set(at, p);
    }

    /** The entry that byte i of a key selects behind off, and what that means for the resolution. */
    method Look(hk: nat, off: nat, i: nat) returns (at: nat, found: bool, pos: nat, isPage: bool)
      requires Valid() && Fits() && i < 64
      ensures !found ==> Resolve(items.contents, hk, off, i) == Missing
      ensures found && isPage ==> Resolve(items.contents, hk, off, i) == At(at, i) && at < WORD / 2
      ensures found && !isPage ==> Resolve(items.contents, hk, off, i) == Resolve(items.contents, hk, pos * 256, i + 8)
    {
      ResolveStep(items.contents, hk, off, i);
      at := off + Digit(hk, i);
      found, pos, isPage := InternalGet(at);
    }

    /**
     lookup_pagepos_for_hashkey: the slot of the page a key resolves to and its shift; shift is kept when there
     is none.
     */
    method LookupPagePos(hk: nat, shift0: nat) returns (ret: nat, shift: nat)
      requires Valid() && Fits()
      ensures ret == NOT_FOUND ==> Resolve(items.contents, hk, 0, 0).Missing? && shift == shift0
      ensures ret != NOT_FOUND ==> Resolve(items.contents, hk, 0, 0) == At(ret, shift) && ret < WORD / 2
    {
      shift := shift0;
      ghost var goal := Resolve(items.contents, hk, 0, 0);
      var off, i := 0, 0;
      while i < 64
        invariant shift == shift0 && Resolve(items.contents, hk, off, i) == goal
        decreases 64 - i
      {
        var at, found, pos, isPage := Look(hk, off, i);
        if !found {
          return NOT_FOUND, shift;
        }
        if isPage {
          return at, i;
        }
        off := pos * 256;
        i := i + 8;
      }
      ret := NOT_FOUND;
    }

    /** get: the page a key resolves to. */
    method Get(hk: nat, pgpos0: nat, shift0: nat) returns (ok: bool, pgpos: nat, shift: nat)
      requires Valid() && Fits()
      ensures var r := Resolve(items.contents, hk, 0, 0);
              if r.At? then ok && pgpos == Pos(items.contents[r.slot]) && shift == r.shift
              else !ok && pgpos == pgpos0 && shift == shift0
    {
      var pos;
      pos, shift := LookupPagePos(hk, shift0);
      var found, pg, isPage := InternalGet(pos);
      if !found {
        return false, pgpos0, shift;
      }
      if isPage {
        return true, pg, shift;
      }
      return false, pgpos0, shift;
    }

    /** Stores page x for position g of block e. */
    method Register(e: nat, g: nat, x: nat, ghost m: map<nat, nat>, ghost slot: nat, ghost reg: map<nat, nat>)
      requires Valid() && SplitInto(m, items.contents, slot, e, reg)
      modifies items
      ensures Valid() && SplitInto(m, items.contents, slot, e, reg[g := x]) && reg[g := x] != map[]
    {
      assert g in reg[g := x];
      ghost var was := items.contents;
      InternalSet(Block(e) + g, x, true);
      forall at: nat
        ensures Lookup(items.contents, at) == Entry(m, slot, e, reg[g := x], at)
      {
        assert Lookup(was, at) == Entry(m, slot, e, reg, at);
      }
    }

    /**
     The pages reg are stored in block e; if there are none the vector has kept the shape it had with the chunks
     cs.
     */
    ghost predicate Stored(m: map<nat, nat>, slot: nat, e: nat, reg: map<nat, nat>, cs: seq<Chunk<nat>>)
      reads items
    {
      SplitInto(m, items.contents, slot, e, reg) && (reg == map[] ==> SameShape(cs, items.chunks))
    }

    /** *begin(): slot 0 of the positions, if it is used. */
    method RegisterFirst(e: nat, posv: Vec<nat>, it: Iter, ghost m: map<nat, nat>, ghost slot: nat)
      requires Valid() && posv.Valid() && posv != items && it == Iter(Some(0), 0, 0)
      requires SplitInto(m, items.contents, slot, e, map[])
      modifies items
      ensures Valid() && Walking(posv.chunks, it)
      ensures Stored(m, slot, e, Registered(posv.chunks, posv.contents, 1), old(items.chunks))
    {
      FirstSlot(posv.chunks, posv.contents);
      assert posv.chunks[0].Ok() by {
        AllOk(posv.chunks, posv.contents);
      }
      var x := posv.Deref(it);
      if x.Some? {
        Register(e, 0, x.value, m, slot, map[]);
      }
    }

    /** The walk over the positions to register: begin, then next_used until it finds nothing. */
    method RegisterAll(e: nat, posv: Vec<nat>, ghost m: map<nat, nat>, ghost slot: nat)
      requires Valid() && posv.Valid() && posv != items && SplitInto(m, items.contents, slot, e, map[])
      modifies items
      ensures Valid() && Stored(m, slot, e, Pages(posv), old(items.chunks))
    {
      var it := posv.Begin();
      if it.i.None? {
        assert Pages(posv) == map[];
        return;
      }
      RegisterFirst(e, posv, it, m, slot);
      while true
        invariant posv.Valid() && posv.contents == old(posv.contents) && posv.chunks == old(posv.chunks)
        invariant Valid() && Walking(posv.chunks, it)
        invariant Stored(m, slot, e, Registered(posv.chunks, posv.contents, it.gpos + 1), old(items.chunks))
        decreases Total(posv.chunks) - it.gpos
      {
        var r, v := NextPage(posv, it);
        if v.None? {
          break;
        }
        Register(e, r.gpos, v.value, m, slot, Registered(posv.chunks, posv.contents, it.gpos + 1));
        it := r;
      }
    }

    /** it.next_used on the positions, in terms of what is registered so far. */
    method NextPage(posv: Vec<nat>, it: Iter) returns (r: Iter, v: Option<nat>)
      requires posv.Valid() && Walking(posv.chunks, it)
      ensures WalkedOn(posv.chunks, posv.contents, it, r, v)
    {
      r, v := posv.NextUsed(it);
      if v.None? {
        LastPage(posv.chunks, posv.contents, it);
      } else {
        FoundPage(posv.chunks, posv.contents, it, r, v.value);
      }
    }

    /** What split registers: the positions its walk over posv stops at. */
    ghost function Pages(posv: Vec<nat>): map<nat, nat>
      reads posv
    {
      Registered(posv.chunks, posv.contents, Total(posv.chunks))
    }

    /** The entry at pos becomes a link to block e, and the pages of posv are stored there. */
    method LinkTo(pos: nat, e: nat, posv: Vec<nat>)
      requires Valid() && posv.Valid() && posv != items && pos in items.contents
      modifies items
      ensures Valid() && Stored(old(items.contents), pos, e, Pages(posv), old(items.chunks))
    {
      ghost var m, cs := items.contents, items.chunks;
      InternalSet(pos, e, false);
      ghost var ds := items.chunks;
      RegisterAll(e, posv, m, pos);
      assert SameShape(cs, ds);
    }

    /**
     split: links the page hk resolves to, if any, to the block above the last used entry ii, which
     holds nothing yet, and registers the pages of posv there. It answers false in every case.
     */
    method Split(hk: nat, shift0: nat, posv: Vec<nat>) returns (ok: bool, shift: nat, ghost ii: nat)
      requires Valid() && Fits() && posv.Valid() && posv != items
      modifies items
      ensures Valid() && !ok && IsLastFree(old(items.chunks), old(items.contents), ii)
      ensures var r := Resolve(old(items.contents), hk, 0, 0);
              if r.At?
              then && shift == r.shift && 0 < BlockAbove(ii) < WORD / 2 && Fresh(old(items.contents), BlockAbove(ii))
                   && Stored(old(items.contents), r.slot, BlockAbove(ii), Pages(posv), old(items.chunks))
              else shift == shift0 && items.contents == old(items.contents) && items.chunks == old(items.chunks)
    {
      ghost var m := items.contents;
      var pos;
      pos, shift := LookupPagePos(hk, shift0);
      var end := items.LastFreePos();
      ii := end;
      var endp := (end + 255) / 256;
      if pos == NOT_FOUND {
        return false, shift, ii;
      }
      AboveAll(items.chunks, m, ii, pos);
      LinkTo(pos, endp, posv);
      ok := false;
    }
  }

  // ---- the block of the next split ----

  /** The first block that starts at or above index ii. */
  function BlockAbove(ii: nat): nat {
    (ii + 255) / 256
  }

  lemma AboveAll(cs: seq<Chunk<nat>>, m: map<nat, nat>, ii: nat, slot: nat)
    requires IsLastFree(cs, m, ii) && slot in m && Total(cs) <= WORD / 2
    ensures 0 < BlockAbove(ii) < WORD / 2 && Fresh(m, BlockAbove(ii))
  {
  }

  /**
   The block a split linked is linked again by the next one exactly if it registered nothing there;
   otherwise the next one is a later block.
   */
  lemma NextBlock(cs: seq<Chunk<nat>>, m: map<nat, nat>, ii: nat, slot: nat, reg: map<nat, nat>,
                  ds: seq<Chunk<nat>>, n: map<nat, nat>, jj: nat)
    requires IsLastFree(cs, m, ii) && slot in m && SplitInto(m, n, slot, BlockAbove(ii), reg)
    requires IsLastFree(ds, n, jj) && (reg == map[] ==> SameShape(cs, ds))
    ensures BlockAbove(jj) == BlockAbove(ii) <==> reg == map[]
    ensures reg != map[] ==> BlockAbove(jj) > BlockAbove(ii)
  {
    var e := BlockAbove(ii);
    if reg == map[] {
      SameKeys(m, n, slot, e);
      LastFreeUnique(cs, m, ii, ds, n, jj);
    } else {
      var x :| x in reg;
      assert Lookup(n, Block(e) + x) == Entry(m, slot, e, reg, Block(e) + x);
      assert Block(e) + x in n;
    }
  }

  lemma SameKeys(m: map<nat, nat>, n: map<nat, nat>, slot: nat, e: nat)
    requires slot in m && SplitInto(m, n, slot, e, map[])
    ensures n.Keys == m.Keys
  {
    forall at: nat
      ensures at in n <==> at in m
    {
      assert Lookup(n, at) == Entry(m, slot, e, map[], at);
    }
  }

  /** Exactly what a split does to every key, and exactly when the next split is as safe. */
  lemma SplitTheorem(m: map<nat, nat>, n: map<nat, nat>, slot: nat, e: nat, reg: map<nat, nat>, hk: nat)
    requires CanSplit(m, n, slot, e, reg) && e > 0
    ensures forall g :: Block(e) <= g < Block(e) + 256 ==> g !in m
    ensures forall at :: at in m && !IsPage(m[at]) ==> Pos(m[at]) != e
    ensures var r := Resolve(m, hk, 0, 0);
            Resolve(n, hk, 0, 0) == if r.At? && r.slot == slot then Descend(e, reg, hk, r.shift) else r
    ensures Anchored(n) <==> reg != map[]
  {
    SplitResolves(m, n, slot, e, reg, hk, 0, 0);
    AnchoredIff(m, n, slot, e, reg);
  }

  /** Storing a page keeps the links anchored. */
  lemma PageKeepsAnchored(m: map<nat, nat>, at: nat, pos: nat)
    requires Anchored(m)
    ensures Anchored(m[at := Pack(pos, true)])
  {
    var n := m[at := Pack(pos, true)];
    forall x | x in n && !IsPage(n[x])
      ensures exists g :: g in n && Block(Pos(n[x])) <= g
    {
      var g :| g in m && Block(Pos(m[x])) <= g;
      assert g in n;
    }
  }

  /** One change of the index: a page stored, or a page split with at least one page registered. */
  ghost predicate PageStored(m: map<nat, nat>, n: map<nat, nat>, at: nat, pos: nat) {
    n == m[at := Pack(pos, true)]
  }

  ghost predicate PageSplit(m: map<nat, nat>, n: map<nat, nat>, slot: nat, e: nat, reg: map<nat, nat>) {
    slot in m && IsPage(m[slot]) && 0 < e < WORD / 2 && Fresh(m, e) && reg != map[] && SplitInto(m, n, slot, e, reg)
  }

  ghost predicate Change(m: map<nat, nat>, n: map<nat, nat>) {
    (exists at, pos :: PageStored(m, n, at, pos)) || (exists slot, e, reg :: PageSplit(m, n, slot, e, reg))
  }

  /** In every such run from the empty index each split finds the links anchored, so it is safe. */
  lemma {:induction false} RunAnchored(run: seq<map<nat, nat>>)
    requires |run| > 0 && run[0] == map[] && forall i :: 0 <= i < |run| - 1 ==> Change(run[i], run[i + 1])
    ensures Anchored(run[|run| - 1])
  {
    var k := |run| - 1;
    if k > 0 {
      RunAnchored(run[..k]);
      var m, n := run[k - 1], run[k];
      assert Change(m, run[k - 1 + 1]);
      if at, pos :| PageStored(m, n, at, pos) {
        PageKeepsAnchored(m, at, pos);
      } else {
        var slot, e, reg :| PageSplit(m, n, slot, e, reg);
        AnchoredIff(m, n, slot, e, reg);
      }
    }
  }

  lemma PageKeepsTree(m: map<nat, nat>, at: nat, pos: nat)
    requires Tree(m)
    ensures Tree(m[at := Pack(pos, true)])
  {
    var n := m[at := Pack(pos, true)];
    forall x: nat, b: nat | LinksTo(n, x, b)
      ensures LinksTo(m, x, b)
    {}
  }

  /** The links after a split are those before and the new one. */
  lemma LinksAfterSplit(m: map<nat, nat>, n: map<nat, nat>, slot: nat, e: nat, reg: map<nat, nat>, x: nat, b: nat)
    requires Anchored(m) && PageSplit(m, n, slot, e, reg) && LinksTo(n, x, b)
    ensures if x == slot then b == e else LinksTo(m, x, b) && b < e
  {
    assert Lookup(n, x) == Entry(m, slot, e, reg, x);
    if x != slot {
      LinkBelow(m, e, x);
    }
  }

  lemma SplitKeepsTree(m: map<nat, nat>, n: map<nat, nat>, slot: nat, e: nat, reg: map<nat, nat>)
    requires Tree(m) && Anchored(m) && PageSplit(m, n, slot, e, reg)
    ensures Tree(n)
  {
    forall x: nat, b: nat | LinksTo(n, x, b)
      ensures if x == slot then b == e else LinksTo(m, x, b) && b < e
    {
      LinksAfterSplit(m, n, slot, e, reg, x, b);
    }
  }

  lemma {:induction false} RunTree(run: seq<map<nat, nat>>)
    requires |run| > 0 && run[0] == map[] && forall i :: 0 <= i < |run| - 1 ==> Change(run[i], run[i + 1])
    ensures Tree(run[|run| - 1])
  {
    var k := |run| - 1;
    if k > 0 {
      RunTree(run[..k]);
      RunAnchored(run[..k]);
      var m, n := run[k - 1], run[k];
      assert Change(m, run[k - 1 + 1]);
      if at, pos :| PageStored(m, n, at, pos) {
        PageKeepsTree(m, at, pos);
      } else {
        var slot, e, reg :| PageSplit(m, n, slot, e, reg);
        SplitKeepsTree(m, n, slot, e, reg);
      }
    }
  }

  /** In every such run a page belongs to exactly the keys that agree on the bytes that lead to it. */
  lemma RunKeysOfPage(run: seq<map<nat, nat>>, h1: nat, h2: nat)
    requires |run| > 0 && run[0] == map[] && forall i :: 0 <= i < |run| - 1 ==> Change(run[i], run[i + 1])
    requires Resolve(run[|run| - 1], h1, 0, 0).At?
    ensures var r, r' := Resolve(run[|run| - 1], h1, 0, 0), Resolve(run[|run| - 1], h2, 0, 0);
            r'.At? && r'.slot == r.slot <==> SameLow(h1, h2, r.shift + 8)
  {
    RunTree(run);
    KeysOfPage(run[|run| - 1], h1, h2);
  }

  const TWO_PAGES: map<nat, nat> := map[0 := Pack(9, true), 1 := Pack(9, true)]
  const ONE_LINK: map<nat, nat> := map[0 := Pack(1, false), 1 := Pack(9, true)]
  const BOTH_LINKED: map<nat, nat> := map[0 := Pack(1, false), 1 := Pack(1, false), 256 := Pack(7, true)]

  /** Two splits into block 1, the first of which registers nothing. */
  lemma SharedSplits()
    ensures SplitInto(TWO_PAGES, ONE_LINK, 0, 1, map[]) && SplitInto(ONE_LINK, BOTH_LINKED, 1, 1, map[0 := 7])
    ensures Resolve(TWO_PAGES, 0, 0, 0) == At(0, 0)
    ensures Resolve(ONE_LINK, 0, 0, 0) == Missing && Resolve(ONE_LINK, 1, 0, 0) == At(1, 0)
    ensures Resolve(BOTH_LINKED, 0, 0, 0) == At(256, 8)
  {
    assert Digit(0, 0) == 0 && Digit(0, 8) == 0 && Digit(1, 0) == 1;
    assert Resolve(ONE_LINK, 0, 256, 8) == Missing;
  }

  lemma SplitUnique(m: map<nat, nat>, n: map<nat, nat>, p: map<nat, nat>, slot: nat, e: nat, reg: map<nat, nat>)
    requires SplitInto(m, n, slot, e, reg) && SplitInto(m, p, slot, e, reg)
    ensures n == p
  {
    forall at: nat
      ensures Lookup(n, at) == Lookup(p, at)
    {
      assert Lookup(n, at) == Entry(m, slot, e, reg, at);
    }
    assert forall at :: at in n ==> Lookup(n, at) == Lookup(p, at);
    assert forall at :: at in p ==> Lookup(n, at) == Lookup(p, at);
  }

  /** A vector of one chunk whose last used index is 1. */
  lemma TwoUsed(cs: seq<Chunk<nat>>, m: map<nat, nat>, ii: nat)
    requires IsLastFree(cs, m, ii) && |cs| == 1 && m.Keys == {0, 1}
    ensures ii == 2 && BlockAbove(ii) == 1
  {
    assert 1 in m.Keys;
    assert ii - 1 in m ==> ii - 1 in m.Keys;
  }

  lemma OnePage(cs: seq<Chunk<nat>>)
    requires Refines(cs, map[0 := 7])
    ensures Registered(cs, map[0 := 7], Total(cs)) == map[0 := 7]
  {
    var m: map<nat, nat> := map[0 := 7];
    FirstSlot(cs, m);
    assert 0 in Registered(cs, m, 1);
    assert 0 in m && 0 < Total(cs);
  }

  /** An index with two pages. */
  method TwoPages() returns (ix: Index)
    ensures fresh(ix) && fresh(ix.items) && ix.Valid() && ix.Fits()
    ensures |ix.items.chunks| == 1 && ix.items.contents == TWO_PAGES
  {
    ix := new Index();
    ghost var cs := ix.items.chunks;
    ix.InternalSet(0, 9, true);
    ix.InternalSet(1, 9, true);
    BaseSame(cs, ix.items.chunks, 1);
  }

  /** The first of the two pages split without any page to register. */
  method SplitFirst(ix: Index)
    requires ix.Valid() && ix.Fits() && |ix.items.chunks| == 1 && ix.items.contents == TWO_PAGES
    modifies ix.items
    ensures ix.Valid() && ix.Fits() && |ix.items.chunks| == 1 && ix.items.contents == ONE_LINK
  {
    SharedSplits();
    ghost var cs := ix.items.chunks;
    var none := new Vec<nat>();
    var _, _, ii := ix.Split(0, 0, none);
    TwoUsed(cs, TWO_PAGES, ii);
    SplitUnique(TWO_PAGES, ix.items.contents, ONE_LINK, 0, 1, map[]);
    BaseSame(cs, ix.items.chunks, 1);
  }

  method PageSeven() returns (one: Vec<nat>)
    ensures fresh(one) && one.Valid() && Registered(one.chunks, one.contents, Total(one.chunks)) == map[0 := 7]
  {
    one := new Vec<nat>();
    one.Set(0, 7);
    OnePage(one.chunks);
  }

  /** The second one split with page 7 to register. */
  method SplitSecond(ix: Index)
    requires ix.Valid() && ix.Fits() && |ix.items.chunks| == 1 && ix.items.contents == ONE_LINK
    modifies ix.items
    ensures ix.Valid() && ix.items.contents == BOTH_LINKED
  {
    SharedSplits();
    ghost var cs := ix.items.chunks;
    var one := PageSeven();
    var _, _, ii := ix.Split(1, 0, one);
    TwoUsed(cs, ONE_LINK, ii);
    SplitUnique(ONE_LINK, ix.items.contents, BOTH_LINKED, 1, 1, map[0 := 7]);
  }

  /**
   A split of the first page that registers nothing, then one of the second page that registers page 7:
   the key 0, which had resolved to nothing in between, now resolves to page 7.
   */
  method BlockShared() returns (ix: Index, ghost between: map<nat, nat>)
    ensures ix.Valid() && Resolve(between, 0, 0, 0) == Missing && between == ONE_LINK
    ensures ix.items.contents == BOTH_LINKED && Resolve(ix.items.contents, 0, 0, 0) == At(256, 8)
  {
    SharedSplits();
    ix := TwoPages();
    SplitFirst(ix);
    between := ix.items.contents;
    SplitSecond(ix);
  }

  /** A position belongs to one slot only. */
  lemma OneSlot(cs: seq<Chunk<nat>>, i: nat, p: nat, j: nat, o: nat)
    requires i < |cs| && j < |cs| && p < cs[i].Size() && o < cs[j].Size()
    requires Base(cs, i) + p == Base(cs, j) + o
    ensures i == j && p == o
  {
    if i != j {
      ChunksApart(cs, i, p, j, o);
    }
  }

  /** A position the walk does not stop at is not registered. */
  lemma NotMet(cs: seq<Chunk<nat>>, j: nat, o: nat)
    requires (forall x :: 0 <= x < |cs| ==> cs[x].Ok()) && j < |cs| && o < |cs[j].items| && !Met(cs, j, o)
    ensures !MetAt(cs, Base(cs, j) + o)
  {
    forall i: nat, p: nat | Met(cs, i, p)
      ensures Base(cs, j) + o != Base(cs, i) + p
    {
      if Base(cs, j) + o == Base(cs, i) + p {
        OneSlot(cs, i, p, j, o);
      }
    }
  }

  lemma {:induction false} InSomeChunk(cs: seq<Chunk<nat>>, g: nat, k: nat) returns (j: nat, o: nat)
    requires k <= |cs| && g < Base(cs, k) && forall x :: 0 <= x < |cs| ==> cs[x].Ok()
    ensures j < k && o < |cs[j].items| && g == Base(cs, j) + o
  {
    if g >= Base(cs, k - 1) {
      j, o := k - 1, g - Base(cs, k - 1);
    } else {
      j, o := InSomeChunk(cs, g, k - 1);
    }
  }

  /** No position in chunk j at or before the walk's start there. */
  ghost predicate NoneBefore(cs: seq<Chunk<nat>>, j: nat)
    requires j < |cs|
  {
    forall o :: 0 <= o < |cs[j].items| && o <= Start(cs, j) ==> cs[j].items[o].None?
  }

  lemma Unregistered(cs: seq<Chunk<nat>>, m: map<nat, nat>, j: nat, o: nat)
    requires Refines(cs, m) && 0 < j < |cs| && o < |cs[j].items| && o <= Start(cs, j) && cs[j].items[o].Some?
    ensures Base(cs, j) + o in m && Base(cs, j) + o !in Registered(cs, m, Total(cs))
  {
    assert Base(cs, j) + o in m by {
      assert ChunkAgrees(cs, j, m);
      assert cs[j].items[o] == Lookup(m, Base(cs, j) + o);
    }
    assert !MetAt(cs, Base(cs, j) + o) by {
      AllOk(cs, m);
      NotMet(cs, j, o);
    }
  }

  lemma IsMet(cs: seq<Chunk<nat>>, m: map<nat, nat>, g: nat)
    requires Refines(cs, m) && g in m && forall j :: 0 < j < |cs| ==> NoneBefore(cs, j)
    ensures MetAt(cs, g)
  {
    AllOk(cs, m);
    var j, o := InSomeChunk(cs, g, |cs|);
    assert ChunkAgrees(cs, j, m);
    assert cs[j].items[o] == Lookup(m, Base(cs, j) + o);
    assert j > 0 ==> NoneBefore(cs, j);
    assert Met(cs, j, o);
  }

  /** Every position is registered exactly if no chunk after the first has one at or before the walk's start there. */
  lemma AllRegisteredIff(cs: seq<Chunk<nat>>, m: map<nat, nat>)
    requires Refines(cs, m)
    ensures Registered(cs, m, Total(cs)) == m <==> forall j :: 0 < j < |cs| ==> NoneBefore(cs, j)
  {
    if forall j :: 0 < j < |cs| ==> NoneBefore(cs, j) {
      forall g | g in m
        ensures MetAt(cs, g)
      {
        IsMet(cs, m, g);
      }
    } else {
      var j :| 0 < j < |cs| && !NoneBefore(cs, j);
      var o :| 0 <= o < |cs[j].items| && o <= Start(cs, j) && cs[j].items[o].Some?;
      Unregistered(cs, m, j, o);
    }
  }

  /** Positions 5 and 67, in the first and in the second chunk of a vector grown as inpvec grows: 67 is lost. */
  method LostPage() returns (cs: seq<Chunk<nat>>)
    ensures Refines(cs, map[5 := 1, 67 := 2]) && Registered(cs, map[5 := 1, 67 := 2], Total(cs)) != map[5 := 1, 67 := 2]
  {
    var a := Chunk<nat>.Alloc(1);
    var b := Chunk<nat>.Alloc(3);
    var c, _ := a.Set(5, 1);
    var d, _ := b.Set(3, 2);
    cs := [c, d];
    ghost var m := map[5 := 1, 67 := 2];
    assert Base(cs, 0) == 0 && Base(cs, 1) == 64 && Base(cs, 2) == 256;
    assert ChunkAgrees(cs, 0, m) && ChunkAgrees(cs, 1, m);
    assert cs[0].items[5] == Some(1);
    assert Start(cs, 1) == LastAfter(cs[0], Start(cs, 0), 64) == 5;
    assert cs[1].items[3] == Some(2);
    assert !NoneBefore(cs, 1);
    AllRegisteredIff(cs, m);
  }
}
