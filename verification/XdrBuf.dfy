/**
 xdrbuf: writing values to a pbuf and reading them back through a cursor. The
 methods are the program's loops; they are tied to the cursor functions of
 XdrCursor and, on streams made of XDR values, to the decoding of Xdr.
 */
module XdrBuf {
  import opened Pbuf
  import opened XdrCursor
  import opened Xdr

  // ---- writing ----

  /** size_and_buf_to_pbuf, and the lone zero length of an empty byte string. */
  method PutBytes(b: Buffer, s: seq<Byte>)
    requires b.Valid()
    modifies b
    ensures b.Valid() && b.bytes == old(b.bytes) + EncodeBytes(s) && IsBlock(EncodeBytes(s), s)
  {
    BlockFormat(s);
    var ok := b.Append(BigEndian(|s|, 8));
    if |s| != 0 {
      ok := b.Append(s);
      if Pad(|s|) != 0 {
        ok := b.Append(Zeros(Pad(|s|)));
      }
    }
  }

  /** operator<<(pbuf): the length, the pages one by one, the padding. */
  method PutBuf(b: Buffer, val: Buffer)
    requires b.Valid() && val.Valid() && b != val
    modifies b
    ensures b.Valid() && b.bytes == old(b.bytes) + EncodeBytes(val.bytes) && IsBlock(EncodeBytes(val.bytes), val.bytes)
  {
    BlockFormat(val.bytes);
    var ok := b.Append(BigEndian(val.size, 8));
    if val.size == 0 {
      return;
    }
    PutPages(b, val);
    if Pad(val.size) != 0 {
      ok := b.Append(Zeros(Pad(val.size)));
    }
  }

  method PutPages(b: Buffer, val: Buffer)
    requires b.Valid() && val.Valid() && b != val
    modifies b
    ensures b.Valid() && b.bytes == old(b.bytes) + val.bytes
  {
    ghost var start := b.bytes;
    for i := 0 to |val.pages|
      invariant b.Valid() && b.bytes == start + val.bytes[..Min(PAGE * i, |val.bytes|)]
    {
      assert val.pages[i] == PageAt(val.bytes, i);
      OnePageMore(val.bytes, i);
      var ok := b.Append(val.pages[i]);
    }
  }

  method Put(b: Buffer, v: Val)
    requires b.Valid()
    modifies b
    ensures b.Valid() && b.bytes == old(b.bytes) + Encode(v)
  {
    var ok;
    match v
    case Bytes(s) => PutBytes(b, s);
    case Buf(s) =>
      var nested := new Buffer();
      ok := nested.Append(s);
      PutBuf(b, nested);
    case _ =>
      ok := b.Append(Encode(v));
  }

  // ---- reading ----

  lemma JoinAssoc(a: seq<Byte>, b: seq<Byte>, c: seq<Byte>)
    ensures a + b + c == a + (b + c)
  {}

  class Reader {
    const b: Buffer
    var c: Cursor

    ghost predicate Ok()
      reads this, b
    {
      b.Valid() && InRange(b.pages, c)
    }

    constructor (b: Buffer)
      requires b.Valid()
      ensures this.b == b && Ok() && c == PageStart(b.pages, 0)
    {
      this.b := b;
      c := if 0 < |b.pages| then On(0, 0) else End;
    }

    /** The common opening of the three loops. */
    method StepForward()
      requires Ok()
      modifies this
      ensures Ok() && c == Normal(b.pages, old(c)) && Normalized(b.pages, c)
    {
      if c.On? && c.pos >= |b.pages[c.i]| {
        c := PageStart(b.pages, c.i + 1);
      }
    }

    /** One turn of the three loops: the bytes of this page, up to left of them. */
    method Turn(left: nat) returns (piece: seq<Byte>, left': nat)
      requires Ok() && c.On? && left > 0
      modifies this
      ensures Ok() && left == |piece| + left'
      ensures Take(b.pages, old(c), left) == Got(piece + Take(b.pages, c, left').data, Take(b.pages, c, left').c)
      ensures if left' > 0 then c == PageStart(b.pages, old(c).i + 1) else c.On? && c.i == old(c).i
    {
      var page := b.pages[c.i];
      var ts := Room(b.pages, c);
      if ts >= left {
        piece, left' := page[c.pos..c.pos + left], 0;
        c := On(c.i, c.pos + Round4(left));
        assert piece + [] == piece;
      } else if ts > 0 {
        piece, left' := page[c.pos..], left - ts;
        c := PageStart(b.pages, c.i + 1);
      } else {
        piece, left' := [], left;
        c := PageStart(b.pages, c.i + 1);
        ghost var t := Take(b.pages, c, left);
        assert [] + t.data == t.data;
      }
    }

    /** get_data(where,size): the bytes copied. */
    method GetData(size: nat) returns (data: seq<Byte>)
      requires Ok()
      modifies this
      ensures Ok() && Got(data, c) == Read(b.pages, old(c), size)
    {
      data := [];
      if c == End {
        return;
      }
      StepForward();
      ghost var whole := Take(b.pages, c, size);
      var left: nat := size;
      while left != 0 && c != End
        invariant Ok() && Continues(whole, data, Take(b.pages, c, left))
        decreases if c.On? then |b.pages| - c.i else 0, left
      {
        ghost var t := Take(b.pages, c, left);
        var piece;
        piece, left := Turn(left);
        ContinuesStep(whole, data, t, piece, Take(b.pages, c, left));
        data := data + piece;
      }
      ContinuesEnd(whole, data, c);
    }

    /** forward(n). For n > 0 it succeeds exactly when get_data would read n bytes, and leaves the same position. */
    method Forward(n: nat) returns (ok: bool)
      requires Ok()
      modifies this
      ensures Ok() && c == Read(b.pages, old(c), n).c
      ensures ok <==> if n > 0 then |Read(b.pages, old(c), n).data| == n else old(c) != End
    {
      if c == End {
        return false;
      }
      StepForward();
      ghost var whole := Take(b.pages, c, n);
      var left: nat := n;
      while left != 0 && c != End
        invariant Ok() && left <= n
        invariant |whole.data| == n - left + |Take(b.pages, c, left).data| && whole.c == Take(b.pages, c, left).c
        decreases if c.On? then |b.pages| - c.i else 0, left
      {
        var piece;
        piece, left := Turn(left);
      }
      ok := left == 0;
    }

    /** position(): sums the pages before the cursor's. */
    method CurrentPosition() returns (p: nat)
      requires Ok()
      ensures p == Position(b.pages, c)
    {
      p := 0;
      var stop := if c.On? then c.i else |b.pages|;
      for i := 0 to stop
        invariant p == Before(b.pages, i)
      {
        p := p + |b.pages[i]|;
      }
      if c.On? {
        p := p + c.pos;
      }
    }

    /** The loop of operator>>(pbuf): size bytes appended to val. */
    method ReadInto(val: Buffer, size: nat) returns (szrd: nat)
      requires Ok() && val.Valid() && val != b && c.On?
      modifies this, val
      ensures Ok() && val.Valid()
      ensures c == Read(b.pages, old(c), size).c && szrd == |Read(b.pages, old(c), size).data|
      ensures val.bytes == old(val.bytes) + Read(b.pages, old(c), size).data
    {
      StepForward();
      ghost var whole := Take(b.pages, c, size);
      ghost var data := [];
      var left: nat := size;
      while left != 0 && c != End
        invariant Ok() && val.Valid() && left <= size
        invariant Continues(whole, data, Take(b.pages, c, left))
        invariant val.bytes == old(val.bytes) + data && |data| == size - left
        decreases if c.On? then |b.pages| - c.i else 0, left
      {
        ghost var t := Take(b.pages, c, left);
        var piece;
        piece, left := Turn(left);
        ContinuesStep(whole, data, t, piece, Take(b.pages, c, left));
        JoinAssoc(old(val.bytes), data, piece);
        data := data + piece;
        var ok := val.Append(piece);
      }
      ContinuesEnd(whole, data, c);
      szrd := size - left;
    }

    // ---- on streams of XDR values ----

    /** The stream is a multiple of four bytes long and the cursor is at one. */
    ghost predicate Stream()
      reads this, b
    {
      Ok() && Aligned(b.pages) && Fits(b.pages, c) && |b.bytes| + 3 < U64
    }

    ghost function Ahead(): seq<Byte>
      reads this, b
    {
      Rest(b.pages, c)
    }

    lemma AheadFits()
      requires Stream()
      ensures |Ahead()| % 4 == 0 && |Ahead()| <= |b.bytes|
    {
      RestAligned(b.pages, c);
      RestBound(b.bytes, c);
    }

    /** get_data of n bytes of a stream. */
    method GetAhead(n: nat) returns (data: seq<Byte>)
      requires Stream()
      modifies this
      ensures Stream()
      ensures if n <= |old(Ahead())|
              then && n + Pad(n) <= |old(Ahead())| && data == old(Ahead())[..n]
                   && Ahead() == old(Ahead())[n + Pad(n)..]
              else data == old(Ahead()) && c == End
      ensures c == End ==> Ahead() == []
      ensures 0 < n <= |old(Ahead())| ==> c.On?
    {
      AheadFits();
      if n > 0 {
        TakeEndsOnPage(b.pages, Normal(b.pages, c), n);
      }
      if n <= |Ahead()| {
        ReadAligned(b.pages, c, n);
      } else {
        ReadTooMany(b.pages, c, n);
      }
      data := GetData(n);
    }

    /** operator>> for an integer of w bytes: the number, or the exception. */
    method GetWord(w: nat) returns (ok: bool, u: nat, out: Out)
      requires Stream() && (w == 4 || w == 8)
      modifies this
      ensures Stream() && (ok <==> w <= |old(Ahead())|)
      ensures ok ==> u == Number(old(Ahead())[..w]) && Ahead() == old(Ahead())[w..] && c.On?
      ensures !ok ==> out == NoWord(old(Ahead())) && Ahead() == []
    {
      u, out := 0, Invalid;
      var tmp := GetAhead(w);
      if |tmp| == w {
        return true, Number(tmp), Invalid;
      } else if |tmp| == 0 && c == End {
        return false, 0, Eof;
      } else {
        return false, 0, Invalid;
      }
    }

    /** operator>>(pbuf) behind its length u, into an empty buffer. */
    method GetBufBody(val: Buffer, u: nat) returns (out: Out)
      requires Stream() && c.On? && val.Valid() && val != b && val.bytes == []
      modifies this, val
      ensures Stream() && val.Valid() && (u <= |old(Ahead())| ==> u + Pad(u) <= |old(Ahead())|)
      ensures Dec(out, Ahead()) ==
              if u > |old(Ahead())| then Dec(Invalid, [])
              else Dec(Value(Buf(old(Ahead())[..u])), old(Ahead())[u + Pad(u)..])
    {
      AheadFits();
      if u <= |Ahead()| {
        ReadAligned(b.pages, c, u);
      } else {
        ReadTooMany(b.pages, c, u);
      }
      ghost var read := Read(b.pages, c, u).data;
      var szrd := ReadInto(val, u);
      assert val.bytes == read;
      if u != szrd {
        return Invalid;
      }
      var s := val.CopyTo(0);
      out := Value(Buf(s));
    }

    /** get_data(where,size,max) behind its length u. */
    method GetBytesBody(u: nat) returns (out: Out)
      requires Stream()
      modifies this
      ensures Stream() && (u <= |old(Ahead())| ==> u + Pad(u) <= |old(Ahead())|)
      ensures Dec(out, Ahead()) ==
              if u > |old(Ahead())| then Dec(Invalid, [])
              else Dec(Value(Bytes(old(Ahead())[..u])), old(Ahead())[u + Pad(u)..])
    {
      var data := GetAhead(u);
      if |data| != u {
        return Invalid;
      }
      out := Value(Bytes(data));
    }

    /** A read behind its first word u, which started at the position c0; a string that is too long is put back. */
    method GetBody(k: Kind, u: nat, c0: Cursor) returns (out: Out)
      requires Stream() && c.On? && Fits(b.pages, c0)
      modifies this
      ensures Stream() && DecodeBody.requires(k, u, Rest(b.pages, c0), old(Ahead()))
      ensures Dec(out, Ahead()) == DecodeBody(k, u, Rest(b.pages, c0), old(Ahead()))
    {
      AheadFits();
      match k {
        case KBuf =>
          var val := new Buffer();
          out := GetBufBody(val, u);
        case KBytes(max) =>
          if u > max {
            c := c0;
            return TooLong(u);
          }
          out := GetBytesBody(u);
        case _ =>
          out := Value(DecodeInt(k, u));
      }
    }

    /**
     Any read of a stream does what Decode says, except that reading a pbuf past the end gives an empty one
     without an error.
     */
    method Get(k: Kind) returns (out: Out)
      requires Stream()
      modifies this
      ensures Stream() && Decode.requires(k, old(Ahead()))
      ensures if k.KBuf? && old(c) == End then out == Value(Buf([])) && c == End
              else Dec(out, Ahead()) == Decode(k, old(Ahead()))
    {
      AheadFits();
      var c0 := c;
      if k.KBuf? && c == End {
        return Value(Buf([]));
      }
      var ok, u, err := GetWord(WordSize(k));
      if !ok {
        return err;
      }
      out := GetBody(k, u, c0);
    }
  }

  // ---- round trip ----

  ghost function EncodeAll(vs: seq<Val>): seq<Byte> {
    if vs == [] then [] else Encode(vs[0]) + EncodeAll(vs[1..])
  }

  lemma {:induction false} EncodeAllAppend(vs: seq<Val>, v: Val)
    ensures EncodeAll(vs + [v]) == EncodeAll(vs) + Encode(v)
  {
    if vs == [] {
      assert (vs + [v])[1..] == [];
    } else {
      assert (vs + [v])[1..] == vs[1..] + [v];
      EncodeAllAppend(vs[1..], v);
    }
  }

  lemma {:induction false} EncodeAllSize(vs: seq<Val>)
    ensures |EncodeAll(vs)| % 4 == 0
  {
    if vs != [] {
      EncodedSize(vs[0]);
      EncodeAllSize(vs[1..]);
      SumOfFours(|Encode(vs[0])|, |EncodeAll(vs[1..])|);
    }
  }

  lemma SumOfFours(a: nat, b: nat)
    requires a % 4 == 0 && b % 4 == 0
    ensures (a + b) % 4 == 0
  {}

  // ---- the stream on the wire ----

  /** The bytes a value takes: those of its block are rounded up to a multiple of four. */
  function WireSize(v: Val): nat {
    match v
    case I32(_) => 4
    case U32(_) => 4
    case I64(_) => 8
    case U64V(_) => 8
    case Bytes(s) => 8 + (|s| + 3) / 4 * 4
    case Buf(s) => 8 + (|s| + 3) / 4 * 4
  }

  /** Where value i of a stream starts. */
  ghost function Offset(vs: seq<Val>, i: nat): nat
    requires i <= |vs|
  {
    if i == 0 then 0 else Offset(vs, i - 1) + WireSize(vs[i - 1])
  }

  ghost predicate SentAt(s: seq<Byte>, vs: seq<Val>, i: nat)
    requires i < |vs|
  {
    Offset(vs, i + 1) <= |s| && OnWire(s[Offset(vs, i)..Offset(vs, i + 1)], vs[i])
  }

  /** s is the values vs as sent, one behind the other. */
  ghost predicate StreamOf(s: seq<Byte>, vs: seq<Val>) {
    |s| == Offset(vs, |vs|) && forall i :: 0 <= i < |vs| ==> SentAt(s, vs, i)
  }

  lemma RoundUp(n: nat)
    ensures n + Pad(n) == (n + 3) / 4 * 4
  {}

  lemma SizeOnWire(v: Val)
    ensures |Encode(v)| == WireSize(v)
  {
    match v
    case Bytes(s) =>
      PaddedSize(s);
      RoundUp(|s|);
    case Buf(s) =>
      PaddedSize(s);
      RoundUp(|s|);
    case _ =>
  }

  lemma {:induction false} OffsetAppend(vs: seq<Val>, v: Val, i: nat)
    requires i <= |vs|
    ensures Offset(vs + [v], i) == Offset(vs, i)
  {
    if i > 0 {
      OffsetAppend(vs, v, i - 1);
    }
  }

  lemma StreamAppend(s: seq<Byte>, vs: seq<Val>, v: Val)
    requires StreamOf(s, vs) && Ranged(v)
    ensures StreamOf(s + Encode(v), vs + [v])
  {
    var t, ws := s + Encode(v), vs + [v];
    SizeOnWire(v);
    OffsetAppend(vs, v, |vs|);
    forall i | 0 <= i < |ws|
      ensures SentAt(t, ws, i)
    {
      if i < |vs| {
        OffsetAppend(vs, v, i);
        OffsetAppend(vs, v, i + 1);
        assert SentAt(s, vs, i);
        assert t[Offset(ws, i)..Offset(ws, i + 1)] == s[Offset(vs, i)..Offset(vs, i + 1)];
      } else {
        WireFormat(v);
        assert t[Offset(ws, i)..Offset(ws, i + 1)] == Encode(v);
      }
    }
  }

  predicate AllRanged(vs: seq<Val>) {
    forall i :: 0 <= i < |vs| ==> Ranged(vs[i])
  }

  /** The encodings of vs, joined, are the stream of vs. */
  lemma {:induction false} EncodeAllIsStream(vs: seq<Val>)
    requires AllRanged(vs)
    ensures StreamOf(EncodeAll(vs), vs)
  {
    if vs != [] {
      var n := |vs| - 1;
      EncodeAllIsStream(vs[..n]);
      EncodeAllAppend(vs[..n], vs[n]);
      StreamAppend(EncodeAll(vs[..n]), vs[..n], vs[n]);
      assert vs == vs[..n] + [vs[n]];
    }
  }

  method WriteAll(vs: seq<Val>) returns (b: Buffer)
    ensures fresh(b) && b.Valid() && b.bytes == EncodeAll(vs)
    ensures AllRanged(vs) ==> StreamOf(b.bytes, vs)
  {
    b := new Buffer();
    for i := 0 to |vs|
      invariant b.Valid() && fresh(b) && b.bytes == EncodeAll(vs[..i])
    {
      EncodeAllAppend(vs[..i], vs[i]);
      assert vs[..i + 1] == vs[..i] + [vs[i]];
      Put(b, vs[i]);
    }
    assert vs[..|vs|] == vs;
    if AllRanged(vs) {
      EncodeAllIsStream(vs);
    }
  }

  /** The encodings of vs, and nothing else, are ahead of r. */
  ghost predicate Holds(r: Reader, vs: seq<Val>)
    reads r, r.b
  {
    r.Stream() && r.Ahead() == EncodeAll(vs)
  }

  ghost predicate ReadBack(read: seq<Out>, vs: seq<Val>) {
    |read| == |vs| && forall i :: 0 <= i < |vs| ==> read[i] == Value(vs[i])
  }

  /** One value is read back; behind it the encoding of the others is ahead. */
  method ReadOne(r: Reader, k: Kind, ghost vs: seq<Val>) returns (out: Out)
    requires vs != [] && Holds(r, vs) && Fitting(vs[0], k)
    modifies r
    ensures Holds(r, vs[1..]) && out == Value(vs[0])
  {
    r.AheadFits();
    EncodeAllSize(vs[1..]);
    DecodeEncode(vs[0], k, EncodeAll(vs[1..]));
    out := r.Get(k);
  }

  method ReadAll(r: Reader, ks: seq<Kind>, ghost vs: seq<Val>) returns (read: seq<Out>)
    requires Holds(r, vs) && |ks| == |vs|
    requires forall i :: 0 <= i < |vs| ==> Fitting(vs[i], ks[i])
    modifies r
    ensures r.Stream() && r.Ahead() == [] && ReadBack(read, vs)
    decreases |ks|
  {
    read := [];
    if |ks| > 0 {
      var out := ReadOne(r, ks[0], vs);
      var others := ReadAll(r, ks[1..], vs[1..]);
      read := [out] + others;
    }
  }

  /**
   Integers, byte strings and nested buffers written to an empty pbuf come back from a fresh reader, in order
   and unchanged, wherever page boundaries fall; the next read reports the end of the data.
   */
  method RoundTrip(vs: seq<Val>, ks: seq<Kind>) returns (read: seq<Out>, last: Out)
    requires |ks| == |vs| && |EncodeAll(vs)| + 3 < U64
    requires forall i :: 0 <= i < |vs| ==> Fitting(vs[i], ks[i])
    ensures ReadBack(read, vs) && last == Eof
  {
    var b := WriteAll(vs);
    EncodeAllSize(vs);
    FreshReader(b.bytes);
    var r := new Reader(b);
    read := ReadAll(r, ks, vs);
    last := r.Get(KU32);
  }

  /** A pbuf read from a stream of no bytes: an empty one, and no error. */
  method EmptyBufFromNothing() returns (out: Out)
    ensures out == Value(Buf([]))
  {
    var b := new Buffer();
    FreshReader(b.bytes);
    var r := new Reader(b);
    out := r.Get(KBuf);
  }
}
