/**
 The reader position of an xdrbuf in a page list, and the three loops that move it:
 get_data, forward and the one of operator>>(pbuf). A read of n bytes also skips
 the padding up to a multiple of four, inside the page where the read ends.
 */
module XdrCursor {
  import opened Pbuf

  /** it_ and pos_: past the last page, or at offset pos of page i. */
  datatype Cursor = End | On(i: nat, pos: nat)

  datatype Got = Got(data: seq<Byte>, c: Cursor)

  const U64: nat := 0x1_0000_0000_0000_0000

  /** The bytes that bring n up to a multiple of four. */
  function Pad(n: nat): nat {
    if n % 4 == 0 then 0 else 4 - n % 4
  }

  /** round_to_4 on 64-bit integers: the last three values wrap around to 0. */
  function Round4(n: nat): nat {
    if n + 3 < U64 then n + Pad(n) else 0
  }

  /** round_to_4 as computed: (sz + 3) & ~3 in 64 bits. */
  lemma Round4IsMask(n: nat)
    requires n < U64
    ensures Round4(n) == (n + 3) % U64 / 4 * 4
  {}

  function PageStart(pages: seq<seq<Byte>>, i: nat): Cursor {
    if i < |pages| then On(i, 0) else End
  }

  predicate InRange(pages: seq<seq<Byte>>, c: Cursor) {
    c.On? ==> c.i < |pages|
  }

  /** "need to step forward": a position at or behind the end of its page is the start of the next. */
  function Normal(pages: seq<seq<Byte>>, c: Cursor): Cursor
    requires InRange(pages, c)
  {
    if c.On? && c.pos >= |pages[c.i]| then PageStart(pages, c.i + 1) else c
  }

  predicate Normalized(pages: seq<seq<Byte>>, c: Cursor) {
    c.On? ==> c.i < |pages| && c.pos <= |pages[c.i]|
  }

  /** The bytes between the cursor and the end of its page. */
  function Room(pages: seq<seq<Byte>>, c: Cursor): nat
    requires c.On? && c.i < |pages|
  {
    if c.pos < |pages[c.i]| then |pages[c.i]| - c.pos else 0
  }

  /** Reading n bytes from c on. */
  function Take(pages: seq<seq<Byte>>, c: Cursor, n: nat): Got
    requires InRange(pages, c)
    decreases if c.On? then |pages| - c.i else 0
  {
    if n == 0 || c.End? then Got([], c)
    else
      var ts := Room(pages, c);
      if ts >= n then
        Got(pages[c.i][c.pos..c.pos + n], On(c.i, c.pos + Round4(n)))
      else if ts == 0 then
        Take(pages, PageStart(pages, c.i + 1), n)
      else
        var rest := Take(pages, PageStart(pages, c.i + 1), n - ts);
        Got(pages[c.i][c.pos..] + rest.data, rest.c)
  }

  lemma TakeStep(pages: seq<seq<Byte>>, c: Cursor, n: nat)
    requires Normalized(pages, c) && c.On? && n > |pages[c.i]| - c.pos > 0
    ensures var rest := Take(pages, PageStart(pages, c.i + 1), n - (|pages[c.i]| - c.pos));
            Take(pages, c, n) == Got(pages[c.i][c.pos..] + rest.data, rest.c)
  {}

  function Read(pages: seq<seq<Byte>>, c: Cursor, n: nat): Got
    requires InRange(pages, c)
  {
    Take(pages, Normal(pages, c), n)
  }

  /** Reading whole gave data so far and t is still to come. */
  ghost predicate Continues(whole: Got, data: seq<Byte>, t: Got) {
    && whole.c == t.c && |whole.data| == |data| + |t.data|
    && whole.data[..|data|] == data && whole.data[|data|..] == t.data
  }

  lemma ContinuesStep(whole: Got, data: seq<Byte>, t: Got, piece: seq<Byte>, t': Got)
    requires Continues(whole, data, t) && t == Got(piece + t'.data, t'.c)
    ensures Continues(whole, data + piece, t')
  {
    assert whole.data == data + (piece + t'.data);
  }

  lemma ContinuesEnd(whole: Got, data: seq<Byte>, c: Cursor)
    requires Continues(whole, data, Got([], c))
    ensures whole == Got(data, c)
  {
    assert whole.data[..|data|] == whole.data;
  }

  // ---- the bytes ahead ----

  ghost function FlatFrom(pages: seq<seq<Byte>>, i: nat): seq<Byte>
    decreases |pages| - i
  {
    if i >= |pages| then []
    else if |pages[i]| == 0 then FlatFrom(pages, i + 1)
    else pages[i] + FlatFrom(pages, i + 1)
  }

  ghost function Rest(pages: seq<seq<Byte>>, c: Cursor): seq<Byte> {
    if c.End? || c.i >= |pages| then []
    else if c.pos < |pages[c.i]| then pages[c.i][c.pos..] + FlatFrom(pages, c.i + 1)
    else FlatFrom(pages, c.i + 1)
  }

  /** The bytes of the first i pages. */
  ghost function Before(pages: seq<seq<Byte>>, i: nat): nat
    requires i <= |pages|
  {
    if i == 0 then 0 else Before(pages, i - 1) + |pages[i - 1]|
  }

  /** position(): the bytes of the pages before, plus the offset. */
  ghost function Position(pages: seq<seq<Byte>>, c: Cursor): nat
    requires InRange(pages, c)
  {
    if c.End? then Before(pages, |pages|) else Before(pages, c.i) + c.pos
  }

  lemma {:induction false} BeforeAndAfter(pages: seq<seq<Byte>>, i: nat)
    requires i <= |pages|
    ensures Before(pages, i) + |FlatFrom(pages, i)| == Before(pages, |pages|)
    decreases |pages| - i
  {
    if i < |pages| {
      BeforeAndAfter(pages, i + 1);
    }
  }

  /** Inside its page, a cursor is as far from the start as the bytes ahead are from the total. */
  lemma PositionOfRest(pages: seq<seq<Byte>>, c: Cursor)
    requires Normalized(pages, c)
    ensures Position(pages, c) + |Rest(pages, c)| == Before(pages, |pages|)
  {
    if c.On? {
      BeforeAndAfter(pages, c.i + 1);
    }
  }

  lemma NormalRest(pages: seq<seq<Byte>>, c: Cursor)
    requires InRange(pages, c)
    ensures Rest(pages, Normal(pages, c)) == Rest(pages, c) && Normalized(pages, Normal(pages, c))
  {
    if c.On? && c.pos >= |pages[c.i]| && c.i + 1 < |pages| {
      assert pages[c.i + 1][0..] == pages[c.i + 1];
    }
  }

  // ---- streams in which every page is a multiple of four bytes long ----

  predicate Aligned(pages: seq<seq<Byte>>) {
    forall i :: 0 <= i < |pages| ==> |pages[i]| % 4 == 0
  }

  predicate Fits(pages: seq<seq<Byte>>, c: Cursor) {
    c.On? ==> c.i < |pages| && c.pos <= |pages[c.i]| && c.pos % 4 == 0
  }

  lemma {:induction false} FlatAligned(pages: seq<seq<Byte>>, i: nat)
    requires Aligned(pages)
    ensures |FlatFrom(pages, i)| % 4 == 0
    decreases |pages| - i
  {
    if i < |pages| {
      FlatAligned(pages, i + 1);
    }
  }

  lemma RestAligned(pages: seq<seq<Byte>>, c: Cursor)
    requires Aligned(pages) && Fits(pages, c)
    ensures |Rest(pages, c)| % 4 == 0
  {
    if c.On? {
      FlatAligned(pages, c.i + 1);
    }
  }

  lemma PageStartRest(pages: seq<seq<Byte>>, i: nat)
    ensures Rest(pages, PageStart(pages, i)) == FlatFrom(pages, i)
  {
    if i < |pages| {
      assert pages[i][0..] == pages[i];
    }
  }

  lemma Round4Shift(ts: nat, m: nat)
    requires ts % 4 == 0 && ts + m + 3 < U64
    ensures Round4(ts + m) == ts + Round4(m)
  {}

  /** The bytes ahead, when they start inside a page. */
  lemma RestOnPage(pages: seq<seq<Byte>>, c: Cursor)
    requires c.On? && c.i < |pages| && c.pos < |pages[c.i]|
    ensures Rest(pages, c) == pages[c.i][c.pos..] + FlatFrom(pages, c.i + 1)
  {}

  /** r is the outcome of reading n of the bytes rest ahead: the first n and past their padding, or what there is. */
  ghost predicate Reads(pages: seq<seq<Byte>>, rest: seq<Byte>, n: nat, r: Got) {
    if n <= |rest| then
      Round4(n) <= |rest| && r.data == rest[..n] && Rest(pages, r.c) == rest[Round4(n)..] && Fits(pages, r.c)
    else
      r.data == rest && r.c == End
  }

  lemma RoundInPage(pages: seq<seq<Byte>>, c: Cursor, n: nat)
    requires Aligned(pages) && Fits(pages, c) && c.On? && 0 < n <= |pages[c.i]| - c.pos && n + 3 < U64
    ensures n <= Round4(n) <= |pages[c.i]| - c.pos && Fits(pages, On(c.i, c.pos + Round4(n)))
  {}

  lemma DropPrefix(page: seq<Byte>, after: seq<Byte>, pos: nat, n: nat, k: nat)
    requires 0 < n <= k <= |page| - pos
    ensures var rest := page[pos..] + after;
            && k <= |rest| && rest[..n] == page[pos..pos + n]
            && rest[k..] == if pos + k < |page| then page[pos + k..] + after else after
  {}

  lemma DropInPage(pages: seq<seq<Byte>>, i: nat, pos: nat, n: nat, k: nat)
    requires i < |pages| && 0 < n <= k <= |pages[i]| - pos
    ensures var rest := Rest(pages, On(i, pos));
            k <= |rest| && rest[..n] == pages[i][pos..pos + n] && Rest(pages, On(i, pos + k)) == rest[k..]
  {
    RestOnPage(pages, On(i, pos));
    DropPrefix(pages[i], FlatFrom(pages, i + 1), pos, n, k);
    assert Rest(pages, On(i, pos + k)) ==
           if pos + k < |pages[i]| then pages[i][pos + k..] + FlatFrom(pages, i + 1) else FlatFrom(pages, i + 1);
  }

  lemma TakeHere(pages: seq<seq<Byte>>, c: Cursor, n: nat)
    requires Aligned(pages) && Fits(pages, c) && c.On? && 0 < n <= |pages[c.i]| - c.pos && n + 3 < U64
    ensures Reads(pages, Rest(pages, c), n, Take(pages, c, n))
  {
    RoundInPage(pages, c, n);
    DropInPage(pages, c.i, c.pos, n, Round4(n));
  }

  lemma TakeOn(pages: seq<seq<Byte>>, rest: seq<Byte>, t: Got, head: seq<Byte>, after: seq<Byte>, m: nat, r: Got)
    requires |head| % 4 == 0 && |head| + m + 3 < U64 && Reads(pages, after, m, r)
    requires rest == head + after && t == Got(head + r.data, r.c)
    ensures Reads(pages, rest, |head| + m, t)
  {
    Round4Shift(|head|, m);
    if m <= |after| {
      assert (head + after)[|head| + Round4(m)..] == after[Round4(m)..];
      assert (head + after)[..|head| + m] == head + after[..m];
    }
  }

  lemma TakeNothing(pages: seq<seq<Byte>>, c: Cursor, n: nat)
    requires Fits(pages, c) && (n == 0 || c.End?)
    ensures Reads(pages, Rest(pages, c), n, Take(pages, c, n))
  {
    assert Rest(pages, c)[0..] == Rest(pages, c);
  }

  lemma TakeFromBoth(pages: seq<seq<Byte>>, c: Cursor, n: nat)
    requires Aligned(pages) && Fits(pages, c) && c.On? && 0 < |pages[c.i]| - c.pos < n && n + 3 < U64
    requires var next, m := PageStart(pages, c.i + 1), n - (|pages[c.i]| - c.pos);
             Reads(pages, Rest(pages, next), m, Take(pages, next, m))
    ensures Reads(pages, Rest(pages, c), n, Take(pages, c, n))
  {
    var head, next := pages[c.i][c.pos..], PageStart(pages, c.i + 1);
    var after, r := Rest(pages, next), Take(pages, next, n - |head|);
    assert Rest(pages, c) == head + after by {
      PageStartRest(pages, c.i + 1);
      RestOnPage(pages, c);
    }
    assert Take(pages, c, n) == Got(head + r.data, r.c) by {
      TakeStep(pages, c, n);
    }
    var rest, t := Rest(pages, c), Take(pages, c, n);
    TakeOn(pages, rest, t, head, after, n - |head|, r);
  }

  lemma TakeAcross(pages: seq<seq<Byte>>, c: Cursor, n: nat)
    requires Aligned(pages) && Fits(pages, c) && c.On? && n > |pages[c.i]| - c.pos && n + 3 < U64
    requires var next, m := PageStart(pages, c.i + 1), n - (|pages[c.i]| - c.pos);
             Reads(pages, Rest(pages, next), m, Take(pages, next, m))
    ensures Reads(pages, Rest(pages, c), n, Take(pages, c, n))
  {
    if c.pos < |pages[c.i]| {
      TakeFromBoth(pages, c, n);
    } else {
      PageStartRest(pages, c.i + 1);
    }
  }

  /** On an aligned stream a read returns the next n bytes and skips their padding, or returns what there is. */
  lemma {:induction false} TakeAligned(pages: seq<seq<Byte>>, c: Cursor, n: nat)
    requires Aligned(pages) && Fits(pages, c) && n + 3 < U64
    ensures Reads(pages, Rest(pages, c), n, Take(pages, c, n))
    decreases if c.On? then |pages| - c.i else 0
  {
    if n == 0 || c.End? {
      TakeNothing(pages, c, n);
    } else if |pages[c.i]| - c.pos >= n {
      TakeHere(pages, c, n);
    } else {
      TakeAligned(pages, PageStart(pages, c.i + 1), n - (|pages[c.i]| - c.pos));
      TakeAcross(pages, c, n);
    }
  }

  lemma ReadAligned(pages: seq<seq<Byte>>, c: Cursor, n: nat)
    requires Aligned(pages) && Fits(pages, c) && n + 3 < U64
    ensures Reads(pages, Rest(pages, c), n, Read(pages, c, n))
  {
    NormalRest(pages, c);
    TakeAligned(pages, Normal(pages, c), n);
  }

  /** What is ahead is the rest of this page and what follows it. */
  lemma RestHeadTail(pages: seq<seq<Byte>>, c: Cursor)
    requires Normalized(pages, c) && c.On?
    ensures var head, next := pages[c.i][c.pos..], PageStart(pages, c.i + 1);
            Rest(pages, c) == head + Rest(pages, next) && (|head| == 0 ==> Rest(pages, c) == Rest(pages, next))
  {
    PageStartRest(pages, c.i + 1);
    if c.pos < |pages[c.i]| {
      RestOnPage(pages, c);
    }
  }

  lemma TakeAll(pages: seq<seq<Byte>>, c: Cursor, n: nat)
    requires Normalized(pages, c) && c.On? && n > |pages[c.i]| - c.pos
    requires var next := PageStart(pages, c.i + 1);
             Take(pages, next, n - (|pages[c.i]| - c.pos)) == Got(Rest(pages, next), End)
    ensures Take(pages, c, n) == Got(Rest(pages, c), End)
  {
    RestHeadTail(pages, c);
    if c.pos < |pages[c.i]| {
      TakeStep(pages, c, n);
    }
  }

  /** On any page list, a read of more bytes than there are returns all of them and ends. */
  lemma {:induction false} TakeTooMany(pages: seq<seq<Byte>>, c: Cursor, n: nat)
    requires Normalized(pages, c) && n > |Rest(pages, c)|
    ensures Take(pages, c, n) == Got(Rest(pages, c), End)
    decreases if c.On? then |pages| - c.i else 0
  {
    if c.On? {
      var ts, next := |pages[c.i]| - c.pos, PageStart(pages, c.i + 1);
      RestHeadTail(pages, c);
      TakeTooMany(pages, next, n - ts);
      TakeAll(pages, c, n);
    }
  }

  lemma ReadTooMany(pages: seq<seq<Byte>>, c: Cursor, n: nat)
    requires InRange(pages, c) && n > |Rest(pages, c)|
    ensures Read(pages, c, n) == Got(Rest(pages, c), End)
  {
    NormalRest(pages, c);
    TakeTooMany(pages, Normal(pages, c), n);
  }

  lemma PrefixOfJoin(head: seq<Byte>, after: seq<Byte>, n: nat)
    ensures n <= |head| ==> (head + after)[..n] == head[..n]
    ensures |head| < n <= |head| + |after| ==> (head + after)[..n] == head + after[..n - |head|]
  {}

  lemma PrefixHere(pages: seq<seq<Byte>>, c: Cursor, n: nat)
    requires Normalized(pages, c) && c.On? && 0 < n <= |pages[c.i]| - c.pos
    ensures n <= |Rest(pages, c)| && Take(pages, c, n).data == Rest(pages, c)[..n]
  {
    RestOnPage(pages, c);
    PrefixOfJoin(pages[c.i][c.pos..], FlatFrom(pages, c.i + 1), n);
    assert pages[c.i][c.pos..c.pos + n] == pages[c.i][c.pos..][..n];
  }

  lemma PrefixOn(pages: seq<seq<Byte>>, c: Cursor, n: nat)
    requires Normalized(pages, c) && c.On? && 0 < |pages[c.i]| - c.pos < n <= |Rest(pages, c)|
    requires var next, m := PageStart(pages, c.i + 1), n - (|pages[c.i]| - c.pos);
             m <= |Rest(pages, next)| && Take(pages, next, m).data == Rest(pages, next)[..m]
    ensures Take(pages, c, n).data == Rest(pages, c)[..n]
  {
    var head, next := pages[c.i][c.pos..], PageStart(pages, c.i + 1);
    assert Rest(pages, c) == head + Rest(pages, next) by {
      RestHeadTail(pages, c);
    }
    assert Take(pages, c, n).data == head + Take(pages, next, n - |head|).data by {
      TakeStep(pages, c, n);
    }
    PrefixOfJoin(head, Rest(pages, next), n);
  }

  lemma PrefixSkip(pages: seq<seq<Byte>>, c: Cursor, n: nat)
    requires Normalized(pages, c) && c.On? && 0 == |pages[c.i]| - c.pos < n
    ensures Rest(pages, c) == Rest(pages, PageStart(pages, c.i + 1))
    ensures Take(pages, c, n) == Take(pages, PageStart(pages, c.i + 1), n)
  {
    PageStartRest(pages, c.i + 1);
  }

  /** On any page list, a read of bytes that are there returns exactly the next n, whatever it skips behind them. */
  lemma {:induction false} TakePrefix(pages: seq<seq<Byte>>, c: Cursor, n: nat)
    requires Normalized(pages, c) && n <= |Rest(pages, c)|
    ensures Take(pages, c, n).data == Rest(pages, c)[..n]
    decreases if c.On? then |pages| - c.i else 0
  {
    if n > 0 {
      var ts := |pages[c.i]| - c.pos;
      if n <= ts {
        PrefixHere(pages, c, n);
      } else if ts == 0 {
        PrefixSkip(pages, c, n);
        TakePrefix(pages, PageStart(pages, c.i + 1), n);
      } else {
        RestHeadTail(pages, c);
        TakePrefix(pages, PageStart(pages, c.i + 1), n - ts);
        PrefixOn(pages, c, n);
      }
    }
  }

  lemma ReadPrefix(pages: seq<seq<Byte>>, c: Cursor, n: nat)
    requires InRange(pages, c) && n <= |Rest(pages, c)|
    ensures Read(pages, c, n).data == Rest(pages, c)[..n]
  {
    NormalRest(pages, c);
    TakePrefix(pages, Normal(pages, c), n);
  }

  /** A read that succeeds ends on a page. */
  lemma {:induction false} TakeEndsOnPage(pages: seq<seq<Byte>>, c: Cursor, n: nat)
    requires InRange(pages, c) && n > 0
    ensures |Take(pages, c, n).data| <= n && (|Take(pages, c, n).data| == n ==> Take(pages, c, n).c.On?)
    decreases if c.On? then |pages| - c.i else 0
  {
    if c.On? && Room(pages, c) < n {
      TakeEndsOnPage(pages, PageStart(pages, c.i + 1), n - Room(pages, c));
    }
  }

  /** On an aligned stream a read that succeeds moves position() by n rounded up to a multiple of four. */
  lemma ReadMovesPosition(pages: seq<seq<Byte>>, c: Cursor, n: nat)
    requires Aligned(pages) && Fits(pages, c) && n + 3 < U64 && |Read(pages, c, n).data| == n
    ensures InRange(pages, Read(pages, c, n).c)
    ensures Position(pages, Read(pages, c, n).c) == Position(pages, c) + Round4(n)
  {
    ReadAligned(pages, c, n);
    PositionOfRest(pages, c);
    PositionOfRest(pages, Read(pages, c, n).c);
  }

  // ---- the canonical pages of a stream ----

  lemma {:induction false} FlatOfPaged(s: seq<Byte>, i: nat)
    requires i <= PageCount(|s|)
    ensures FlatFrom(Paged(s), i) == s[Min(PAGE * i, |s|)..]
    decreases PageCount(|s|) - i
  {
    if i < PageCount(|s|) {
      FlatOfPaged(s, i + 1);
      assert Paged(s)[i] == PageAt(s, i);
      assert s[Min(PAGE * i, |s|)..] == PageAt(s, i) + s[Min(PAGE * (i + 1), |s|)..];
    }
  }

  /** No more is ahead than the stream holds. */
  lemma RestBound(s: seq<Byte>, c: Cursor)
    requires Normalized(Paged(s), c)
    ensures |Rest(Paged(s), c)| <= |s|
  {
    FlatOfPaged(s, 0);
    BeforeAndAfter(Paged(s), 0);
    PositionOfRest(Paged(s), c);
  }

  /** A fresh reader of a stream that is a multiple of four bytes long has the whole stream ahead, aligned. */
  lemma FreshReader(s: seq<Byte>)
    requires |s| % 4 == 0
    ensures var c := PageStart(Paged(s), 0); Aligned(Paged(s)) && Fits(Paged(s), c) && Rest(Paged(s), c) == s
  {
    PageStartRest(Paged(s), 0);
    FlatOfPaged(s, 0);
    forall i | 0 <= i < |Paged(s)|
      ensures |Paged(s)[i]| % 4 == 0
    {
      assert Paged(s)[i] == PageAt(s, i);
    }
  }
}
