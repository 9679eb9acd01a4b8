/**
 XDR coding of xdrbuf: integers of 4 and 8 bytes, most significant byte first
 (sections 4.1 and 4.5 of RFC 4506), and byte strings and nested buffers as a
 length, the bytes, and zero bytes up to a multiple of four (section 4.10, but
 with an 8-byte length).
 */
module Xdr {
  import opened Division
  import opened Pbuf
  import opened XdrCursor

  datatype Val = I32(i: int) | U32(u: nat) | I64(i: int) | U64V(u: nat) | Bytes(s: seq<Byte>) | Buf(s: seq<Byte>)

  /** What a reader asks for; bytes are read into a buffer of max bytes. */
  datatype Kind = KI32 | KU32 | KI64 | KU64 | KBytes(max: nat) | KBuf

  predicate Fitting(v: Val, k: Kind) {
    match v
    case I32(i) => k == KI32 && -0x8000_0000 <= i < 0x8000_0000
    case U32(u) => k == KU32 && u < 0x1_0000_0000
    case I64(i) => k == KI64 && -0x8000_0000_0000_0000 <= i < 0x8000_0000_0000_0000
    case U64V(u) => k == KU64 && u < U64
    case Bytes(s) => k.KBytes? && |s| <= k.max && |s| + 3 < U64
    case Buf(s) => k == KBuf && |s| + 3 < U64
  }

  // ---- integers ----

  function Pow256(n: nat): (r: nat)
    ensures r > 0
  {
    if n == 0 then 1 else 256 * Pow256(n - 1)
  }

  /** v as n bytes, most significant first. */
  function BigEndian(v: nat, n: nat): (s: seq<Byte>)
    ensures |s| == n
  {
    if n == 0 then [] else BigEndian(v / 256, n - 1) + [v % 256]
  }

  function Number(s: seq<Byte>): (v: nat)
    ensures v < Pow256(|s|)
  {
    if s == [] then 0 else
      var v := Number(s[..|s| - 1]);
      256 * v + s[|s| - 1]
  }

  lemma {:induction false} NumberOfBigEndian(v: nat, n: nat)
    requires v < Pow256(n)
    ensures Number(BigEndian(v, n)) == v
  {
    if n > 0 {
      NumberOfBigEndian(v / 256, n - 1);
      assert BigEndian(v, n)[..n - 1] == BigEndian(v / 256, n - 1);
    }
  }

  /** Reading a word and writing it again gives the same bytes, so every n bytes are the word of some number. */
  lemma {:induction false} BigEndianOfNumber(s: seq<Byte>)
    ensures BigEndian(Number(s), |s|) == s
  {
    if s != [] {
      BigEndianOfNumber(s[..|s| - 1]);
    }
  }

  /** s is the n-byte word v: its bytes are the base-256 digits of v, the most significant one first. */
  ghost predicate IsWord(s: seq<Byte>, v: int, n: nat) {
    |s| == n && forall k :: 0 <= k < n ==> s[k] == v / Pow256(n - 1 - k) % 256
  }

  /** Dividing by 256 and then by p is dividing by 256p. */
  lemma DivideTwice(v: nat, p: nat)
    requires p > 0
    ensures v / 256 / p == v / (256 * p)
  {
    var q := v / 256 / p;
    assert 0 <= v / 256 - p * q < p;
    assert 256 * (p * q) == 256 * p * q;
    QuotientIs(v, 256 * p, q);
  }

  lemma {:induction false} BigEndianIsWord(v: nat, n: nat)
    ensures IsWord(BigEndian(v, n), v, n)
  {
    if n > 0 {
      BigEndianIsWord(v / 256, n - 1);
      forall k | 0 <= k < n
        ensures BigEndian(v, n)[k] == v / Pow256(n - 1 - k) % 256
      {
        if k < n - 1 {
          DivideTwice(v, Pow256(n - 2 - k));
        }
      }
    }
  }

  lemma Powers()
    ensures Pow256(0) == 1 && Pow256(1) == 0x100 && Pow256(2) == 0x1_0000 && Pow256(3) == 0x100_0000
    ensures Pow256(4) == 0x1_0000_0000 && Pow256(8) == U64
  {
    assert Pow256(2) == 0x1_0000;
    assert Pow256(6) == 0x1_0000 * Pow256(4);
  }

  /** Two's complement with the given range. */
  function Unsigned(i: int, range: nat): nat
    requires range > 0
  {
    i % range
  }

  function Signed(u: nat, range: nat): int {
    if 2 * u < range then u else u - range
  }

  /** A negative integer is sent as the one above it by the range. */
  lemma TwosComplement(i: int, range: nat)
    requires 0 - range <= 2 * i < range
    ensures Unsigned(i, range) == if i < 0 then i + range else i
  {
    QuotientIs(i, range, if i < 0 then -1 else 0);
  }

  // ---- the wire format ----

  function Zeros(n: nat): (s: seq<Byte>)
    ensures |s| == n
  {
    seq(n, _ => 0)
  }

  function EncodeBytes(s: seq<Byte>): seq<Byte> {
    BigEndian(|s|, 8) + s + Zeros(Pad(|s|))
  }

  function Encode(v: Val): seq<Byte> {
    match v
    case I32(i) => BigEndian(Unsigned(i, 0x1_0000_0000), 4)
    case U32(u) => BigEndian(u, 4)
    case I64(i) => BigEndian(Unsigned(i, U64), 8)
    case U64V(u) => BigEndian(u, 8)
    case Bytes(s) => EncodeBytes(s)
    case Buf(s) => EncodeBytes(s)
  }

  /** s is a byte string b as sent: its length, b, and less than four zero bytes. */
  ghost predicate IsBlock(s: seq<Byte>, b: seq<Byte>) {
    && 8 + |b| <= |s| < 8 + |b| + 4 && |s| % 4 == 0
    && IsWord(s[..8], |b|, 8) && s[8..8 + |b|] == b
    && forall k :: 8 + |b| <= k < |s| ==> s[k] == 0
  }

  /** s is v as sent, without reference to how it is computed; negative integers are in two's complement. */
  ghost predicate OnWire(s: seq<Byte>, v: Val) {
    match v
    case I32(i) => IsWord(s, if i < 0 then i + 0x1_0000_0000 else i, 4)
    case U32(u) => IsWord(s, u, 4)
    case I64(i) => IsWord(s, if i < 0 then i + 0x1_0000_0000_0000_0000 else i, 8)
    case U64V(u) => IsWord(s, u, 8)
    case Bytes(b) => IsBlock(s, b)
    case Buf(b) => IsBlock(s, b)
  }

  /** Signed values are of the width they are sent in. */
  predicate Ranged(v: Val) {
    && (v.I32? ==> -0x8000_0000 <= v.i < 0x8000_0000)
    && (v.I64? ==> -0x8000_0000_0000_0000 <= v.i < 0x8000_0000_0000_0000)
  }

  lemma BlockFormat(b: seq<Byte>)
    ensures IsBlock(EncodeBytes(b), b)
  {
    var s := EncodeBytes(b);
    BigEndianIsWord(|b|, 8);
    assert s[..8] == BigEndian(|b|, 8);
    assert s[8..8 + |b|] == b;
  }

  lemma SignedFormat(v: Val)
    requires Ranged(v) && (v.I32? || v.I64?)
    ensures OnWire(Encode(v), v)
  {
    match v
    case I32(i) =>
      TwosComplement(i, 0x1_0000_0000);
      BigEndianIsWord(Unsigned(i, 0x1_0000_0000), 4);
    case I64(i) =>
      TwosComplement(i, U64);
      BigEndianIsWord(Unsigned(i, U64), 8);
  }

  /** The bytes of every encoded value. */
  lemma WireFormat(v: Val)
    requires Ranged(v)
    ensures OnWire(Encode(v), v)
  {
    match v
    case I32(_) => SignedFormat(v);
    case I64(_) => SignedFormat(v);
    case U32(u) => BigEndianIsWord(u, 4);
    case U64V(u) => BigEndianIsWord(u, 8);
    case Bytes(b) => BlockFormat(b);
    case Buf(b) => BlockFormat(b);
  }

  /** The format leaves no choice. */
  lemma OneFormat(s: seq<Byte>, t: seq<Byte>, v: Val)
    requires OnWire(s, v) && OnWire(t, v)
    ensures s == t
  {
    if v.Bytes? || v.Buf? {
      assert s[..8] == t[..8];
      assert s[..8 + |v.s|] == s[..8] + v.s == t[..8 + |v.s|];
      assert s == s[..8 + |v.s|] + s[8 + |v.s|..];
      assert t == t[..8 + |v.s|] + t[8 + |v.s|..];
    }
  }

  /**
   What a read gives: a value, or the exceptions rs_xdr_eof and rs_xdr_invalid, or a refusal because max is too
   small.
   */
  datatype Out = Value(v: Val) | Eof | Invalid | TooLong(size: nat)

  datatype Dec = Dec(out: Out, rest: seq<Byte>)

  /** An n-byte integer at the front of rest: the error if there is none. */
  function NoWord(rest: seq<Byte>): Out {
    if rest == [] then Eof else Invalid
  }

  function DecodeInt(k: Kind, u: nat): Val {
    match k
    case KI32 => I32(Signed(u, 0x1_0000_0000))
    case KI64 => I64(Signed(u, U64))
    case KU32 => U32(u)
    case _ => U64V(u)
  }

  function WordSize(k: Kind): nat {
    if k == KI32 || k == KU32 then 4 else 8
  }

  /** What follows the word u that was read from rest: a value of kind k, from the bytes body behind that word. */
  function DecodeBody(k: Kind, u: nat, rest: seq<Byte>, body: seq<Byte>): Dec
    requires |body| % 4 == 0 && |body| + 3 < U64
  {
    if !k.KBytes? && !k.KBuf? then Dec(Value(DecodeInt(k, u)), body)
    else if k.KBytes? && u > k.max then Dec(TooLong(u), rest)
    else if u > |body| then Dec(Invalid, [])
    else Dec(Value(if k.KBuf? then Buf(body[..u]) else Bytes(body[..u])), body[u + Pad(u)..])
  }

  /** What reading a k does to the bytes ahead, when their number is a multiple of four. */
  function Decode(k: Kind, rest: seq<Byte>): Dec
    requires |rest| % 4 == 0 && |rest| + 3 < U64
  {
    var w := WordSize(k);
    if |rest| < w then Dec(NoWord(rest), []) else DecodeBody(k, Number(rest[..w]), rest, rest[w..])
  }

  lemma PaddedSize(s: seq<Byte>)
    ensures |EncodeBytes(s)| == 8 + |s| + Pad(|s|) && |EncodeBytes(s)| % 4 == 0
  {}

  lemma EncodedSize(v: Val)
    ensures |Encode(v)| % 4 == 0
  {
    if v.Bytes? || v.Buf? {
      PaddedSize(v.s);
    }
  }

  /** The unsigned integer an integer value is sent as. */
  function WordOf(v: Val): nat {
    match v
    case I32(i) => Unsigned(i, 0x1_0000_0000)
    case I64(i) => Unsigned(i, U64)
    case U32(u) => u
    case U64V(u) => u
    case _ => 0
  }

  lemma WordBack(v: Val, k: Kind)
    requires Fitting(v, k) && !v.Bytes? && !v.Buf?
    ensures DecodeInt(k, WordOf(v)) == v && Encode(v) == BigEndian(WordOf(v), WordSize(k))
    ensures WordOf(v) < if WordSize(k) == 4 then 0x1_0000_0000 else U64
  {
    match v
    case I32(i) => TwosComplement(i, 0x1_0000_0000);
    case I64(i) => TwosComplement(i, U64);
    case _ =>
  }

  lemma FrontWord(u: nat, w: nat, rest: seq<Byte>)
    requires u < Pow256(w)
    ensures var all := BigEndian(u, w) + rest; Number(all[..w]) == u && all[w..] == rest
  {
    NumberOfBigEndian(u, w);
    var all := BigEndian(u, w) + rest;
    assert all[..w] == BigEndian(u, w);
  }

  lemma DecodeWord(v: Val, k: Kind, rest: seq<Byte>)
    requires Fitting(v, k) && !v.Bytes? && !v.Buf? && |Encode(v) + rest| % 4 == 0 && |Encode(v) + rest| + 3 < U64
    ensures Decode(k, Encode(v) + rest) == Dec(Value(v), rest)
  {
    Powers();
    WordBack(v, k);
    FrontWord(WordOf(v), WordSize(k), rest);
  }

  lemma Parts(h: seq<Byte>, s: seq<Byte>, z: seq<Byte>, rest: seq<Byte>)
    ensures var all := h + s + z + rest;
            && all[..|h|] == h && |all[|h|..]| == |s| + |z| + |rest|
            && all[|h|..][..|s|] == s && all[|h|..][|s| + |z|..] == rest
  {
    var all := h + s + z + rest;
    assert all[|h|..] == s + z + rest;
  }

  lemma DecodeBytes(v: Val, k: Kind, rest: seq<Byte>)
    requires Fitting(v, k) && (v.Bytes? || v.Buf?) && |Encode(v) + rest| % 4 == 0 && |Encode(v) + rest| + 3 < U64
    ensures Decode(k, Encode(v) + rest) == Dec(Value(v), rest)
  {
    Powers();
    NumberOfBigEndian(|v.s|, 8);
    Parts(BigEndian(|v.s|, 8), v.s, Zeros(Pad(|v.s|)), rest);
  }

  /** Decoding what was encoded gives it back and consumes exactly its encoding. */
  lemma DecodeEncode(v: Val, k: Kind, rest: seq<Byte>)
    requires Fitting(v, k) && |rest| % 4 == 0 && |Encode(v)| + |rest| + 3 < U64
    ensures Decode.requires(k, Encode(v) + rest) && Decode(k, Encode(v) + rest) == Dec(Value(v), rest)
  {
    EncodedSize(v);
    if v.Bytes? || v.Buf? {
      DecodeBytes(v, k, rest);
    } else {
      DecodeWord(v, k, rest);
    }
  }

  /** A byte string too long for the reader's buffer is refused with its size, and nothing is consumed. */
  lemma DecodeTooLong(s: seq<Byte>, max: nat, rest: seq<Byte>)
    requires max < |s| < U64 - 3 && |rest| % 4 == 0 && |EncodeBytes(s) + rest| + 3 < U64
    ensures |EncodeBytes(s) + rest| % 4 == 0
    ensures Decode(KBytes(max), EncodeBytes(s) + rest) == Dec(TooLong(|s|), EncodeBytes(s) + rest)
  {
    PaddedSize(s);
    Powers();
    NumberOfBigEndian(|s|, 8);
    Parts(BigEndian(|s|, 8), s, Zeros(Pad(|s|)), rest);
  }

  /** The word in front of a block that is cut off behind it. */
  lemma CutBlock(s: seq<Byte>, n: nat)
    requires |s| < U64 && 8 <= n < |EncodeBytes(s)| && n % 4 == 0
    ensures Number(EncodeBytes(s)[..n][..8]) == |s| && |EncodeBytes(s)[..n][8..]| < |s|
  {
    Powers();
    NumberOfBigEndian(|s|, 8);
    assert EncodeBytes(s)[..n][..8] == BigEndian(|s|, 8);
  }

  /** An encoding that is cut off is an error, and the end of data only if nothing of it is there. */
  lemma DecodeCut(v: Val, k: Kind, n: nat)
    requires Fitting(v, k) && n < |Encode(v)| && n % 4 == 0 && |Encode(v)| + 3 < U64
    ensures Decode(k, Encode(v)[..n]) == Dec(if n == 0 then Eof else Invalid, [])
  {
    if (v.Bytes? || v.Buf?) && n >= 8 {
      CutBlock(v.s, n);
    }
  }
}
