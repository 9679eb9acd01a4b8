/**
 Byte-by-byte searches of one bitmap word through the byte tables, proved to
 answer the same question as a bit-by-bit scan of the word.
 */
module WordSearch {
  import opened BitWord
  import opened ByteTables

  /** r is one past the highest set bit of w. */
  ghost predicate IsLastFree(w: bv64, r: nat) {
    r <= 64 && (forall p :: r <= p < 64 ==> !Bit(w, p)) && (r > 0 ==> Bit(w, r - 1))
  }

  /** r is the lowest clear bit of w, or 64 when there is none. */
  ghost predicate IsFirstFree(w: bv64, r: nat) {
    r <= 64 && (forall p :: 0 <= p < r ==> Bit(w, p)) && (r < 64 ==> !Bit(w, r))
  }

  lemma LastFreeBit(w: bv64, k: nat, j: nat)
    requires k < 8 && j < 8
    ensures var y := LastFreeOfByte(ByteAt(w, k));
            y <= 8 && (y <= j ==> !Bit(w, 8 * k + j)) && (y == j + 1 ==> Bit(w, 8 * k + j))
  {
    LastFreeOfByteBits(ByteAt(w, k), j);
    ByteBit(w, k, j);
  }

  lemma LastFreeByte(w: bv64, k: nat, y: nat)
    requires k < 8 && y == LastFreeOfByte(ByteAt(w, k))
    ensures y <= 8
    ensures forall p :: 8 * k + y <= p < 8 * k + 8 ==> !Bit(w, p)
    ensures y > 0 ==> Bit(w, 8 * k + y - 1)
  {
    LastFreeBit(w, k, 0);
    forall p | 8 * k + y <= p < 8 * k + 8
      ensures !Bit(w, p)
    {
      LastFreeBit(w, k, p - 8 * k);
    }
    if y > 0 {
      LastFreeBit(w, k, y - 1);
    }
  }

  lemma FirstFreeBit(w: bv64, k: nat, j: nat)
    requires k < 8 && j < 8
    ensures var x := FirstFreeOfByte(ByteAt(w, k));
            (x < 8 || x == 255) && (j < x ==> Bit(w, 8 * k + j)) && (x == j ==> !Bit(w, 8 * k + j))
  {
    FirstFreeOfByteBits(ByteAt(w, k), j);
    ByteBit(w, k, j);
  }

  lemma FirstFreeByte(w: bv64, k: nat, x: nat)
    requires k < 8 && x == FirstFreeOfByte(ByteAt(w, k))
    ensures x < 8 || x == 255
    ensures forall p :: 8 * k <= p < 8 * k + 8 && p < 8 * k + x ==> Bit(w, p)
    ensures x < 8 ==> !Bit(w, 8 * k + x)
  {
    FirstFreeBit(w, k, 0);
    forall p | 8 * k <= p < 8 * k + 8 && p < 8 * k + x
      ensures Bit(w, p)
    {
      FirstFreeBit(w, k, p - 8 * k);
    }
    if x < 8 {
      FirstFreeBit(w, k, x);
    }
  }

  /** Highest byte first: the first byte whose table entry is not 0 decides. */
  method LastFreeInWord(w: bv64) returns (r: nat)
    ensures IsLastFree(w, r)
  {
    r := 64;
    var k := 8;
    while k > 0
      invariant 0 <= k <= 8 && r == 8 * k
      invariant forall p :: r <= p < 64 ==> !Bit(w, p)
    {
      k := k - 1;
      var y := ByteLastFree(ByteAt(w, k));
      LastFreeByte(w, k, y);
      r := 8 * k + y;
      if y != 0 {
        return;
      }
    }
  }

  /** Lowest byte first: the first byte whose table entry is not 255 decides. */
  method FirstFreeInWord(w: bv64) returns (r: nat)
    ensures IsFirstFree(w, r)
  {
    var k := 0;
    while k < 8
      invariant 0 <= k <= 8
      invariant forall p :: 0 <= p < 8 * k ==> Bit(w, p)
    {
      var x := ByteFirstFree(ByteAt(w, k));
      FirstFreeByte(w, k, x);
      if x != 255 {
        return 8 * k + x;
      }
      k := k + 1;
    }
    return 64;
  }

  /** Sum of the table entries of the eight bytes. */
  method CountInWord(w: bv64) returns (n: nat)
    ensures n == Count(w, 64)
  {
    n := 0;
    for k := 0 to 8
      invariant n == Count(w, 8 * k)
    {
      var b := ByteBits(ByteAt(w, k));
      BitsOfByteCount(w, k);
      n := n + b;
    }
  }
}
