/**
 pbuf: a byte buffer kept as a list of pages of at most 2048 bytes. Whatever the
 sizes of the appended pieces, the pages are the canonical ones: all full but the
 last, which is not empty.
 */
module Pbuf {
  type Byte = b: int | 0 <= b < 256

  const PAGE: nat := 2048

  function Min(a: nat, b: nat): nat {
    if a < b then a else b
  }

  function PageCount(n: nat): nat {
    (n + PAGE - 1) / PAGE
  }

  /** Page i of the bytes s. */
  function PageAt(s: seq<Byte>, i: nat): (p: seq<Byte>)
    requires i < PageCount(|s|)
    ensures 0 < |p| <= PAGE && (i + 1 < PageCount(|s|) ==> |p| == PAGE)
  {
    s[PAGE * i..Min(PAGE * i + PAGE, |s|)]
  }

  /** The canonical pages of s. */
  ghost function Paged(s: seq<Byte>): seq<seq<Byte>> {
    seq(PageCount(|s|), i requires 0 <= i < PageCount(|s|) => PageAt(s, i))
  }

  /** Bytes appended to a last page with room for them. */
  lemma FillLast(s: seq<Byte>, d: seq<Byte>)
    requires |s| > 0 && |PageAt(s, PageCount(|s|) - 1)| + |d| <= PAGE
    ensures var n := PageCount(|s|) - 1; Paged(s + d) == Paged(s)[n := PageAt(s, n) + d]
  {
    var n := PageCount(|s|) - 1;
    assert PageCount(|s + d|) == n + 1;
    forall i | 0 <= i < n
      ensures PageAt(s + d, i) == PageAt(s, i)
    {}
    assert PageAt(s + d, n) == PageAt(s, n) + d;
  }

  /** Bytes on a page of their own behind full pages. */
  lemma NewPage(s: seq<Byte>, d: seq<Byte>)
    requires |s| % PAGE == 0 && 0 < |d| <= PAGE
    ensures Paged(s + d) == Paged(s) + [d]
  {
    var n := PageCount(|s|);
    assert |s| == PAGE * n && PageCount(|s + d|) == n + 1;
    forall i | 0 <= i < n
      ensures PageAt(s + d, i) == PageAt(s, i)
    {}
    assert PageAt(s + d, n) == d;
  }

  lemma LastPageFull(s: seq<Byte>)
    requires |s| > 0
    ensures |PageAt(s, PageCount(|s|) - 1)| == PAGE <==> |s| % PAGE == 0
  {}

  /** The first i pages and the next one. */
  lemma OnePageMore(s: seq<Byte>, i: nat)
    requires i < PageCount(|s|)
    ensures s[..Min(PAGE * i, |s|)] + PageAt(s, i) == s[..Min(PAGE * (i + 1), |s|)]
  {}

  /** ... and the front of the next one. */
  lemma PartOfPage(s: seq<Byte>, i: nat, n: nat)
    requires i < PageCount(|s|) && n <= |PageAt(s, i)|
    ensures PAGE * i + n <= |s| && s[..PAGE * i] + PageAt(s, i)[..n] == s[..PAGE * i + n]
  {
    assert PageAt(s, i)[..n] == s[PAGE * i..PAGE * i + n];
  }

  /** The pages determine the bytes. */
  lemma PagedInjective(s: seq<Byte>, t: seq<Byte>)
    requires Paged(s) == Paged(t)
    ensures s == t
  {
    assert |Paged(s)| == PageCount(|s|) && |Paged(t)| == PageCount(|t|);
    var n := PageCount(|s|);
    if n > 0 {
      assert Paged(s)[n - 1] == Paged(t)[n - 1];
    }
    assert |s| == |t|;
    forall k | 0 <= k < |s|
      ensures s[k] == t[k]
    {
      assert Paged(s)[k / PAGE] == Paged(t)[k / PAGE];
      assert s[k] == PageAt(s, k / PAGE)[k % PAGE];
    }
  }

  class Buffer {
    var pages: seq<seq<Byte>>
    var size: nat
    ghost var bytes: seq<Byte>   // what has been appended

    ghost predicate Valid()
      reads this
    {
      pages == Paged(bytes) && size == |bytes|
    }

    constructor ()
      ensures Valid() && bytes == []
    {
      pages, size, bytes := [], 0, [];
    }

    /** allocate: puts an empty page behind the last one unless that has room; the room on the last page. */
    method Allocate() returns (room: nat)
      requires Valid()
      modifies this`pages
      ensures 0 < room <= PAGE && |pages| > 0
      ensures if |bytes| % PAGE == 0 then room == PAGE && pages == Paged(bytes) + [[]]
              else pages == Paged(bytes) && room == PAGE - |pages[|pages| - 1]|
    {
      if |pages| == 0 {
        pages := pages + [[]];
        return PAGE;
      }
      var n := |pages| - 1;
      LastPageFull(bytes);
      if PAGE - |pages[n]| > 0 {
        return PAGE - |pages[n]|;
      }
      pages := pages + [[]];
      return PAGE;
    }

    /** One turn of append: as many of the bytes d as fit on the last page. */
    method Fill(d: seq<Byte>) returns (fsp: nat)
      requires Valid() && |d| > 0
      modifies this
      ensures 0 < fsp <= |d| && Valid() && bytes == old(bytes) + d[..fsp]
    {
      fsp := Allocate();
      if fsp > |d| {
        fsp := |d|;
      }
      var n := |pages| - 1;
      if |bytes| % PAGE == 0 {
        NewPage(bytes, d[..fsp]);
        assert pages[n] + d[..fsp] == d[..fsp];
        assert pages[n := d[..fsp]] == Paged(bytes) + [d[..fsp]];
      } else {
        FillLast(bytes, d[..fsp]);
      }
      pages, size, bytes := pages[n := pages[n] + d[..fsp]], size + fsp, bytes + d[..fsp];
    }

    /** append: fills the last page and as many new pages as are needed. */
    method Append(dta: seq<Byte>) returns (ok: bool)
      requires Valid()
      modifies this
      ensures Valid() && bytes == old(bytes) + dta && ok
    {
      var k := 0;
      while k < |dta|
        invariant 0 <= k <= |dta|
        invariant Valid() && bytes == old(bytes) + dta[..k]
      {
        var n := Fill(dta[k..]);
        assert dta[..k] + dta[k..][..n] == dta[..k + n];
        k := k + n;
      }
      assert dta[..k] == dta;
      ok := true;
    }

    /** copy_to: the first max bytes, all of them when max is 0 or too large. */
    method CopyTo(max: nat) returns (out: seq<Byte>)
      requires Valid()
      ensures out == if max == 0 then bytes else bytes[..Min(max, |bytes|)]
    {
      var left := if max == 0 then size else max;
      ghost var want := Min(left, |bytes|);
      out := [];
      var i := 0;
      while i < |pages|
        invariant 0 <= i <= |pages| && Min(PAGE * i, |bytes|) <= want
        invariant out == bytes[..Min(PAGE * i, |bytes|)]
        invariant left == (if max == 0 then |bytes| else max) - |out|
      {
        var p := pages[i];
        assert p == PageAt(bytes, i);
        if left >= |p| {
          OnePageMore(bytes, i);
          out := out + p;
          left := left - |p|;
        } else if left == 0 {
          return;
        } else {
          PartOfPage(bytes, i, left);
          out := out + p[..left];
          return;
        }
        i := i + 1;
      }
    }

    /** operator==: sizes, then page by page. */
    method Equals(other: Buffer) returns (r: bool)
      requires Valid() && other.Valid()
      ensures r <==> bytes == other.bytes
    {
      if size != other.size {
        return false;
      }
      for i := 0 to |other.pages|
        invariant i <= |pages| && pages[..i] == other.pages[..i]
      {
        if i >= |pages| || |pages[i]| != |other.pages[i]| || pages[i] != other.pages[i] {
          return false;
        }
      }
      if |other.pages| != |pages| {
        return false;
      }
      assert pages == pages[..|pages|] == other.pages[..|pages|] == other.pages;
      PagedInjective(bytes, other.bytes);
      r := true;
    }

    /** operator=: the pages of the other buffer are appended to an emptied one. */
    method Assign(other: Buffer)
      requires other.Valid() && other != this
      modifies this
      ensures Valid() && bytes == other.bytes && pages == other.pages
    {
      pages, size, bytes := [], 0, [];
      for i := 0 to |other.pages|
        invariant Valid() && bytes == other.bytes[..Min(PAGE * i, |other.bytes|)]
      {
        assert other.pages[i] == PageAt(other.bytes, i);
        OnePageMore(other.bytes, i);
        var ok := Append(other.pages[i]);
      }
    }
  }

  /** However bytes are split over appends, the pages are the same: one append of everything gives them too. */
  method AppendAll(pieces: seq<seq<Byte>>) returns (b: Buffer)
    ensures b.Valid() && b.bytes == Joined(pieces) && b.pages == Paged(Joined(pieces))
  {
    b := new Buffer();
    for i := 0 to |pieces|
      invariant b.Valid() && fresh(b) && b.bytes == Joined(pieces[..i])
    {
      assert pieces[..i + 1][..i] == pieces[..i];
      var ok := b.Append(pieces[i]);
    }
    assert pieces[..|pieces|] == pieces;
  }

  ghost function Joined(pieces: seq<seq<Byte>>): seq<Byte> {
    if pieces == [] then [] else Joined(pieces[..|pieces| - 1]) + pieces[|pieces| - 1]
  }
}
