/**
 ustr::crc64: a table-driven CRC over the bytes of a string up to its first zero
 byte. The reference is the bit-serial register: message bits go in one at a time,
 low bit of each byte first, and the register is reduced by the reflected
 polynomial after each.
 */
module Crc {
  const POLY: bv64 := 0xd800_0000_0000_0000

  function Xor(a: bv64, b: bv64): bv64 {
    a ^ b
  }

  function Half(x: bv64): bv64 {
    x >> 1
  }

  function LowBit(x: bv64): bv64 {
    x & 1
  }

  /** One shift of the register, with reduction when a one falls out. */
  function BitStep(x: bv64): bv64 {
    if x & 1 == 1 then (x >> 1) ^ POLY else x >> 1
  }

  function Steps(x: bv64, n: nat): bv64 {
    if n == 0 then x else BitStep(Steps(x, n - 1))
  }

  // ---- reference: one message bit at a time ----

  function FeedBit(crc: bv64, bit: bv64): bv64 {
    BitStep(Xor(crc, bit))
  }

  /** The low n bits of b, lowest first. */
  function FeedBits(crc: bv64, b: bv64, n: nat): bv64 {
    if n == 0 then crc else FeedBit(FeedBits(crc, b, n - 1), LowBit(Down(b, n - 1)))
  }

  function Down(w: bv64, n: nat): bv64 {
    if n == 0 then w else Half(Down(w, n - 1))
  }

  ghost function BitSerial(s: seq<bv8>): bv64 {
    if s == [] then 0 else FeedBits(BitSerial(s[..|s| - 1]), s[|s| - 1] as bv64, 8)
  }

  /** The bytes before the first zero byte. */
  ghost function UpToZero(s: seq<bv8>): seq<bv8> {
    if s == [] || s[0] == 0 then [] else [s[0]] + UpToZero(s[1..])
  }

  // ---- the register is linear ----

  lemma StepSplit(c: bv64, w: bv64)
    ensures BitStep(Xor(c, w)) == Xor(BitStep(Xor(c, LowBit(w))), Half(w))
  {
    var l, h := LowBit(w), Half(w);
    var x, y := Xor(c, w), Xor(c, l);
    XorParts(c, w);
    XorParts(c, l);
    HalfOfLowBit(w);
    if LowBit(x) == 1 {
      XorSwap(Half(c), h);
    }
    XorZero(Half(c));
    StepParts(x);
    StepParts(y);
  }

  lemma XorParts(a: bv64, b: bv64)
    ensures Half(Xor(a, b)) == Xor(Half(a), Half(b)) && LowBit(Xor(a, b)) == LowBit(Xor(a, LowBit(b)))
  {}

  lemma HalfOfLowBit(w: bv64)
    ensures Half(LowBit(w)) == 0
  {}

  lemma XorSwap(a: bv64, b: bv64)
    ensures Xor(Xor(a, b), POLY) == Xor(Xor(a, POLY), b)
  {}

  lemma StepParts(x: bv64)
    ensures BitStep(x) == if LowBit(x) == 1 then Xor(Half(x), POLY) else Half(x)
  {}

  lemma StepHigh(c: bv64, w: bv64)
    requires LowBit(w) == 0
    ensures BitStep(Xor(c, w)) == Xor(BitStep(c), Half(w))
  {
    StepSplit(c, w);
    XorZero(c);
  }

  lemma XorZero(c: bv64)
    ensures Xor(c, 0) == c
  {}

  /**
   Feeding n bits one by one is shifting n times with the byte xored in at the start; what is not yet fed is
   still there.
   */
  lemma {:induction false} FeedIsSteps(crc: bv64, b: bv64, n: nat)
    ensures Steps(Xor(crc, b), n) == Xor(FeedBits(crc, b, n), Down(b, n))
  {
    if n > 0 {
      FeedIsSteps(crc, b, n - 1);
      StepSplit(FeedBits(crc, b, n - 1), Down(b, n - 1));
    }
  }

  /** The low n bits of w are zero. */
  predicate LowZero(w: bv64, n: nat) {
    n > 0 ==> LowZero(w, n - 1) && LowBit(Down(w, n - 1)) == 0
  }

  lemma {:induction false} StepsHigh(c: bv64, w: bv64, n: nat)
    requires LowZero(w, n)
    ensures Steps(Xor(c, w), n) == Xor(Steps(c, n), Down(w, n))
  {
    if n > 0 {
      StepsHigh(c, w, n - 1);
      StepHigh(Steps(c, n - 1), Down(w, n - 1));
    }
  }

  // ---- eight shifts by way of the low byte ----

  function LowByte(x: bv64): bv64 {
    x & 0xff
  }

  function HighBytes(x: bv64): bv64 {
    x & 0xffff_ffff_ffff_ff00
  }

  function Shift8(x: bv64): bv64 {
    x >> 8
  }

  lemma DownEight(w: bv64)
    ensures Down(w, 8) == Shift8(w)
  {
    DownFour(w);
    DownTwo(w, 4);
    DownTwo(w, 6);
    ShiftTwice(w >> 4);
    ShiftFour(w);
  }

  lemma DownFour(w: bv64)
    ensures Down(w, 4) == w >> 4
  {
    DownTwo(w, 0);
    DownTwo(w, 2);
    ShiftTwice(w);
  }

  lemma ShiftTwice(w: bv64)
    ensures (w >> 2) >> 2 == w >> 4
  {}

  lemma ShiftFour(w: bv64)
    ensures (w >> 4) >> 4 == w >> 8
  {}

  lemma DownTwo(w: bv64, n: nat)
    ensures Down(w, n + 2) == Down(w, n) >> 2
  {}

  lemma LowZeroTwo(w: bv64, n: nat)
    requires LowZero(w, n) && Down(w, n) & 3 == 0
    ensures LowZero(w, n + 2)
  {}

  lemma HighLowZero(x: bv64)
    ensures LowZero(HighBytes(x), 8)
  {
    var hi := HighBytes(x);
    DownTwo(hi, 0);
    DownTwo(hi, 2);
    DownTwo(hi, 4);
    LowZeroTwo(hi, 0);
    LowZeroTwo(hi, 2);
    LowZeroTwo(hi, 4);
    LowZeroTwo(hi, 6);
  }

  lemma Split(x: bv64)
    ensures Xor(LowByte(x), HighBytes(x)) == x && Shift8(HighBytes(x)) == Shift8(x)
  {}

  /** Eight shifts of the register by way of its low byte. */
  lemma EightSteps(x: bv64)
    ensures Steps(x, 8) == Xor(Steps(LowByte(x), 8), Shift8(x))
  {
    Split(x);
    HighLowZero(x);
    StepsHigh(LowByte(x), HighBytes(x), 8);
    DownEight(HighBytes(x));
  }

  // ---- the program ----

  /** The table entry for a byte value: the value shifted eight times. */
  ghost predicate IsTable(t: seq<bv64>) {
    |t| == 256 && forall i :: 0 <= i < 256 ==> t[i] == Steps(i as bv64, 8)
  }

  method TableEntry(i: nat) returns (part: bv64)
    requires i < 256
    ensures part == Steps(i as bv64, 8)
  {
    part := i as bv64;
    for j := 0 to 8
      invariant part == Steps(i as bv64, j)
    {
      part := if part & 1 == 1 then (part >> 1) ^ POLY else part >> 1;
    }
  }

  method FillTable() returns (table: array<bv64>)
    ensures fresh(table) && IsTable(table[..])
  {
    table := new bv64[256];
    for i := 0 to 256
      invariant forall k :: 0 <= k < i ==> table[k] == Steps(k as bv64, 8)
    {
      var part := TableEntry(i);
      table[i] := part;
    }
  }

  lemma IndexBack(x: bv64)
    requires x < 256
    ensures x as nat < 256 && (x as nat) as bv64 == x
  {}

  lemma ByteFits(b: bv8)
    ensures Down(b as bv64, 8) == 0
  {
    DownEight(b as bv64);
    assert Shift8(b as bv64) == 0;
  }

  /** One turn of the main loop is eight bits of the reference. */
  lemma TableStep(t: seq<bv64>, crc: bv64, b: bv8)
    requires IsTable(t)
    ensures LowByte(Xor(crc, b as bv64)) as nat < 256
    ensures Xor(t[LowByte(Xor(crc, b as bv64)) as nat], Shift8(crc)) == FeedBits(crc, b as bv64, 8)
  {
    var x := Xor(crc, b as bv64);
    IndexBack(LowByte(x));
    EightSteps(x);
    SameHigh(crc, b);
    FeedIsSteps(crc, b as bv64, 8);
    ByteFits(b);
    XorZero(FeedBits(crc, b as bv64, 8));
  }

  lemma SameHigh(crc: bv64, b: bv8)
    ensures Shift8(Xor(crc, b as bv64)) == Shift8(crc)
  {}

  lemma {:induction false} ZeroAt(s: seq<bv8>, k: nat)
    requires k <= |s| && forall i :: 0 <= i < k ==> s[i] != 0
    requires k == |s| || s[k] == 0
    ensures UpToZero(s) == s[..k]
  {
    if k > 0 {
      ZeroAt(s[1..], k - 1);
      assert s[..k] == [s[0]] + s[1..][..k - 1];
    }
  }

  method Fold(table: array<bv64>, crc: bv64, b: bv8) returns (r: bv64)
    requires IsTable(table[..])
    ensures r == FeedBits(crc, b as bv64, 8)
  {
    TableStep(table[..], crc, b);
    r := Xor(table[LowByte(Xor(crc, b as bv64)) as nat], Shift8(crc));
  }

  lemma {:induction false} BitSerialNext(s: seq<bv8>, k: nat)
    requires k < |s|
    ensures BitSerial(s[..k + 1]) == FeedBits(BitSerial(s[..k]), s[k] as bv64, 8)
  {
    assert s[..k + 1][..k] == s[..k];
  }

  /** crc64: the table-driven loop computes the bit-serial CRC of the bytes before the first zero byte. */
  method Crc64(s: seq<bv8>) returns (crc: bv64)
    ensures crc == BitSerial(UpToZero(s))
  {
    var table := FillTable();
    crc := 0;
    var k := 0;
    while k < |s| && s[k] != 0
      invariant 0 <= k <= |s| && forall i :: 0 <= i < k ==> s[i] != 0
      invariant IsTable(table[..]) && crc == BitSerial(s[..k])
    {
      BitSerialNext(s, k);
      crc := Fold(table, crc, s[k]);
      k := k + 1;
    }
    ZeroAt(s, k);
  }
}
