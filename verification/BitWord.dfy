/**
 64-bit bitmap words, as the chunks of an inpvec keep them: bit p of a word says
 whether slot p is used. Words are bit-vectors and are read and written with the
 program's own shifts and masks.
 */
module BitWord {
  const WIDTH: nat := 64

  /** A shift amount below 64, as the 64-bit integer the program shifts by. */
  function Shift(p: nat): bv64 {
    if p == 0 then 0 else Plus(Shift(p - 1), 1)
  }

  function Plus(x: bv64, y: bv64): bv64 {
    x + y
  }

  function Mask(x: bv64): bv64 {
    if x < 64 then 1 << x else 0
  }

  predicate BitAt(w: bv64, x: bv64) {
    x < 64 && (w >> x) & 1 == 1
  }

  predicate Bit(w: bv64, p: nat)
    requires p < 64
  {
    BitAt(w, Shift(p))
  }

  function SetBit(w: bv64, p: nat): bv64
    requires p < 64
  {
    w | Mask(Shift(p))
  }

  function AndNot(a: bv64, b: bv64): bv64 {
    a & !b
  }

  function ClearAt(w: bv64, x: bv64): bv64 {
    AndNot(w, Mask(x))
  }

  function ClearBit(w: bv64, p: nat): bv64
    requires p < 64
  {
    ClearAt(w, Shift(p))
  }

  function LowByte(w: bv64, x: bv64): (b: bv64)
    ensures b < 256
  {
    if x < 64 then (w >> x) & 0xff else 0
  }

  /** Byte k of a word, lowest first. */
  function ByteAt(w: bv64, k: nat): (b: bv64)
    requires k < 8
    ensures b < 256
  {
    LowByte(w, Shift(8 * k))
  }

  // ---- shift amounts ----

  lemma ShiftStep(y: bv64)
    requires y as nat < 63
    ensures y < 63 && Plus(y, 1) as nat == y as nat + 1
  {
    assert y != 63;
  }

  lemma {:induction false} ShiftValue(p: nat)
    requires p < 64
    ensures Shift(p) < 64 && Shift(p) as nat == p
  {
    if p > 0 {
      ShiftValue(p - 1);
      ShiftStep(Shift(p - 1));
    }
  }

  lemma ShiftInjective(x: bv64, y: bv64)
    requires x < 64 && y < 64
    ensures x as nat == y as nat <==> x == y
  {}

  lemma ShiftEq(p: nat, q: nat)
    requires p < 64 && q < 64
    ensures Shift(p) < 64 && Shift(q) < 64
    ensures Shift(p) == Shift(q) <==> p == q
  {
    ShiftValue(p);
    ShiftValue(q);
    ShiftInjective(Shift(p), Shift(q));
  }

  lemma ShiftBound(x: bv64)
    requires x < 64
    ensures x as nat <= 56 ==> x <= 56
    ensures x as nat < 8 ==> x < 8
  {}

  lemma ShiftSmall(p: nat)
    requires p < 64
    ensures p <= 56 ==> Shift(p) <= 56
    ensures p < 8 ==> Shift(p) < 8
  {
    ShiftValue(p);
    ShiftBound(Shift(p));
  }

  lemma PlusAssoc(x: bv64, y: bv64)
    requires x < 64 && y < 64
    ensures Plus(Plus(x, y), 1) == Plus(x, Plus(y, 1))
  {}

  lemma ShiftBelow(p: nat)
    requires p < 64
    ensures Shift(p) < 64
  {
    ShiftValue(p);
  }

  lemma PlusZero(x: bv64)
    ensures Plus(x, 0) == x
  {}

  lemma ShiftNext(p: nat)
    ensures Shift(p + 1) == Plus(Shift(p), 1)
  {}

  lemma ShiftSumNext(p: nat, q: nat)
    requires p < 64 && q < 64 && Shift(p + q) == Plus(Shift(p), Shift(q))
    ensures Shift(p + q + 1) == Plus(Shift(p), Plus(Shift(q), 1))
  {
    ShiftNext(p + q);
    ShiftBelow(p);
    ShiftBelow(q);
    PlusAssoc(Shift(p), Shift(q));
  }

  lemma {:induction false} ShiftSum(p: nat, q: nat)
    requires p < 64 && q < 64
    ensures Shift(p + q) == Plus(Shift(p), Shift(q))
  {
    if q == 0 {
      PlusZero(Shift(p));
    } else {
      ShiftSum(p, q - 1);
      ShiftSumNext(p, q - 1);
      ShiftNext(q - 1);
      assert p + (q - 1) + 1 == p + q;
    }
  }

  // ---- bits ----

  lemma OrBit(a: bv64, b: bv64, y: bv64)
    ensures BitAt(a | b, y) == (BitAt(a, y) || BitAt(b, y))
  {}

  lemma MaskBit(x: bv64, y: bv64)
    requires x < 64 && y < 64
    ensures BitAt(Mask(x), y) == (x == y)
  {}

  lemma ComplementBit(a: bv64, b: bv64, y: bv64)
    ensures BitAt(a & !b, y) == (BitAt(a, y) && !BitAt(b, y))
  {}

  /** And-ing with the complement of a mask that has one bit takes that bit away. */
  lemma AndNotBit(a: bv64, m: bv64, x: bv64, y: bv64)
    requires BitAt(m, y) == (x == y)
    ensures BitAt(AndNot(a, m), y) == (x != y && BitAt(a, y))
  {
    ComplementBit(a, m, y);
  }

  lemma ClearBitAt(w: bv64, x: bv64, y: bv64)
    requires x < 64 && y < 64
    ensures BitAt(ClearAt(w, x), y) == (x != y && BitAt(w, y))
  {
    MaskBit(x, y);
    AndNotBit(w, Mask(x), x, y);
  }

  /** Setting bit p changes bit p and no other. */
  lemma SetBitOnly(w: bv64, p: nat, q: nat)
    requires p < 64 && q < 64
    ensures Bit(SetBit(w, p), q) <==> p == q || Bit(w, q)
  {
    ShiftEq(p, q);
    OrBit(w, Mask(Shift(p)), Shift(q));
    MaskBit(Shift(p), Shift(q));
  }

  /** Clearing bit p changes bit p and no other. */
  lemma ClearBitOnly(w: bv64, p: nat, q: nat)
    requires p < 64 && q < 64
    ensures Bit(ClearBit(w, p), q) <==> p != q && Bit(w, q)
  {
    ShiftEq(p, q);
    ClearBitAt(w, Shift(p), Shift(q));
  }

  lemma LowByteBit(w: bv64, x: bv64, y: bv64)
    requires x <= 56 && y < 8
    ensures BitAt(w, Plus(x, y)) == BitAt(LowByte(w, x), y)
  {}

  /** Bit 8k + j of a word is bit j of its byte k. */
  lemma ByteBit(w: bv64, k: nat, j: nat)
    requires k < 8 && j < 8
    ensures Bit(w, 8 * k + j) <==> Bit(ByteAt(w, k), j)
  {
    ShiftSmall(8 * k);
    ShiftSmall(j);
    ShiftSum(8 * k, j);
    LowByteBit(w, Shift(8 * k), Shift(j));
  }

  lemma ShiftOrder(x: bv64, y: bv64)
    requires x < 64 && y < 64 && x as nat <= y as nat
    ensures x <= y
  {}

  lemma ShiftedOutAt(w: bv64, x: bv64, y: bv64)
    requires x < 64 && x <= y && ShiftedOut(w, x)
    ensures !BitAt(w, y)
  {}

  /** Nothing is left of w after shifting x bits out. */
  predicate ShiftedOut(w: bv64, x: bv64) {
    x < 64 && w >> x == 0
  }

  /** When w >> p is zero no bit from p upwards is set. */
  lemma NoBitsFrom(w: bv64, p: nat, q: nat)
    requires p <= q < 64 && ShiftedOut(w, Shift(p))
    ensures !Bit(w, q)
  {
    ShiftValue(p);
    ShiftValue(q);
    ShiftOrder(Shift(p), Shift(q));
    ShiftedOutAt(w, Shift(p), Shift(q));
  }

  lemma ZeroWord(p: nat)
    requires p < 64
    ensures !Bit(0, p)
  {
    ZeroWordAt(Shift(p));
  }

  lemma ZeroWordAt(x: bv64)
    ensures !BitAt(0, x)
  {}

  lemma FullWord(p: nat)
    requires p < 64
    ensures Bit(0xFFFF_FFFF_FFFF_FFFF, p)
  {
    ShiftEq(p, p);
    FullWordAt(Shift(p));
  }

  lemma FullWordAt(x: bv64)
    requires x < 64
    ensures BitAt(0xFFFF_FFFF_FFFF_FFFF, x)
  {}

  // ---- what the byte tables are asked for ----

  function BitsOfByte(x: bv64): nat {
    (x & 1) as nat + ((x >> 1) & 1) as nat + ((x >> 2) & 1) as nat + ((x >> 3) & 1) as nat +
    ((x >> 4) & 1) as nat + ((x >> 5) & 1) as nat + ((x >> 6) & 1) as nat + ((x >> 7) & 1) as nat
  }

  function LastFreeOfByte(x: bv64): nat {
    if x & 128 != 0 then 8 else if x & 64 != 0 then 7 else if x & 32 != 0 then 6 else if x & 16 != 0 then 5
    else if x & 8 != 0 then 4 else if x & 4 != 0 then 3 else if x & 2 != 0 then 2 else if x & 1 != 0 then 1 else 0
  }

  function FirstFreeOfByte(x: bv64): nat {
    if x & 1 == 0 then 0 else if x & 2 == 0 then 1 else if x & 4 == 0 then 2 else if x & 8 == 0 then 3
    else if x & 16 == 0 then 4 else if x & 32 == 0 then 5 else if x & 64 == 0 then 6
    else if x & 128 == 0 then 7 else 255
  }

  lemma ShiftLiterals()
    ensures Shift(0) == 0 && Shift(1) == 1 && Shift(2) == 2 && Shift(3) == 3
    ensures Shift(4) == 4 && Shift(5) == 5 && Shift(6) == 6 && Shift(7) == 7
  {}

  lemma LastFreeOfByteAt(x: bv64)
    ensures var r := LastFreeOfByte(x);
            r <= 8 &&
            (r <= 7 ==> !BitAt(x, 7)) && (r <= 6 ==> !BitAt(x, 6)) && (r <= 5 ==> !BitAt(x, 5)) &&
            (r <= 4 ==> !BitAt(x, 4)) && (r <= 3 ==> !BitAt(x, 3)) && (r <= 2 ==> !BitAt(x, 2)) &&
            (r <= 1 ==> !BitAt(x, 1)) && (r <= 0 ==> !BitAt(x, 0)) &&
            (r == 8 ==> BitAt(x, 7)) && (r == 7 ==> BitAt(x, 6)) && (r == 6 ==> BitAt(x, 5)) &&
            (r == 5 ==> BitAt(x, 4)) && (r == 4 ==> BitAt(x, 3)) && (r == 3 ==> BitAt(x, 2)) &&
            (r == 2 ==> BitAt(x, 1)) && (r == 1 ==> BitAt(x, 0))
  {}

  /** LastFreeOfByte is one past the highest set bit. */
  lemma LastFreeOfByteBits(x: bv64, j: nat)
    requires j < 8
    ensures LastFreeOfByte(x) <= 8
    ensures LastFreeOfByte(x) <= j ==> !Bit(x, j)
    ensures LastFreeOfByte(x) == j + 1 ==> Bit(x, j)
  {
    ShiftLiterals();
    LastFreeOfByteAt(x);
  }

  lemma FirstFreeOfByteAt(x: bv64)
    ensures var r := FirstFreeOfByte(x);
            (r < 8 || r == 255) &&
            (r > 0 ==> BitAt(x, 0)) && (r > 1 ==> BitAt(x, 1)) && (r > 2 ==> BitAt(x, 2)) &&
            (r > 3 ==> BitAt(x, 3)) && (r > 4 ==> BitAt(x, 4)) && (r > 5 ==> BitAt(x, 5)) &&
            (r > 6 ==> BitAt(x, 6)) && (r > 7 ==> BitAt(x, 7)) &&
            (r == 0 ==> !BitAt(x, 0)) && (r == 1 ==> !BitAt(x, 1)) && (r == 2 ==> !BitAt(x, 2)) &&
            (r == 3 ==> !BitAt(x, 3)) && (r == 4 ==> !BitAt(x, 4)) && (r == 5 ==> !BitAt(x, 5)) &&
            (r == 6 ==> !BitAt(x, 6)) && (r == 7 ==> !BitAt(x, 7))
  {}

  /** FirstFreeOfByte is the lowest clear bit, or 255 when all eight are set. */
  lemma FirstFreeOfByteBits(x: bv64, j: nat)
    requires j < 8
    ensures FirstFreeOfByte(x) < 8 || FirstFreeOfByte(x) == 255
    ensures j < FirstFreeOfByte(x) ==> Bit(x, j)
    ensures FirstFreeOfByte(x) == j ==> !Bit(x, j)
  {
    ShiftLiterals();
    FirstFreeOfByteAt(x);
  }

  function One(w: bv64, p: nat): nat
    requires p < 64
  {
    if Bit(w, p) then 1 else 0
  }

  /** Number of set bits of w at positions below n. */
  function Count(w: bv64, n: nat): nat
    requires n <= 64
  {
    if n == 0 then 0 else Count(w, n - 1) + One(w, n - 1)
  }

  lemma BitsOfByteIsCount(x: bv64)
    ensures BitsOfByte(x) == Count(x, 8)
  {
    ShiftLiterals();
    CountFour(x, 0);
    CountFour(x, 4);
  }

  lemma CountFour(w: bv64, n: nat)
    requires n + 4 <= 64
    ensures Count(w, n + 4) == Count(w, n) + One(w, n) + One(w, n + 1) + One(w, n + 2) + One(w, n + 3)
  {
    assert Count(w, n + 2) == Count(w, n) + One(w, n) + One(w, n + 1);
  }

  lemma {:induction false} ByteCount(w: bv64, k: nat, j: nat)
    requires k < 8 && j <= 8
    ensures Count(w, 8 * k + j) == Count(w, 8 * k) + Count(ByteAt(w, k), j)
  {
    if j > 0 {
      ByteCount(w, k, j - 1);
      ByteBit(w, k, j - 1);
    }
  }

  /** Counting a word byte by byte counts its set bits. */
  lemma BitsOfByteCount(w: bv64, k: nat)
    requires k < 8
    ensures Count(w, 8 * k + 8) == Count(w, 8 * k) + BitsOfByte(ByteAt(w, k))
  {
    ByteCount(w, k, 8);
    BitsOfByteIsCount(ByteAt(w, k));
  }
}
