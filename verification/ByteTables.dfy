/**
 The three 256-entry byte tables behind the bitmap searches, laid out as in the
 program: eight rows of thirty-two entries. Each table is proved, entry by entry,
 to be the bit-level question it answers.
 */
module ByteTables {
  import opened BitWord

  function BitsRow0(): (s: seq<nat>)
    ensures |s| == 32
  {
    [0, 1, 1, 2, 1, 2, 2, 3, 1, 2, 2, 3, 2, 3, 3, 4,
     1, 2, 2, 3, 2, 3, 3, 4, 2, 3, 3, 4, 3, 4, 4, 5]
  }

  method BitsIn0(x: bv64) returns (n: nat)
    requires x as nat < 32
    ensures n == BitsOfByte(x)
  {
    n := BitsRow0()[x as nat];
  }

  function BitsRow1(): (s: seq<nat>)
    ensures |s| == 32
  {
    [1, 2, 2, 3, 2, 3, 3, 4, 2, 3, 3, 4, 3, 4, 4, 5,
     2, 3, 3, 4, 3, 4, 4, 5, 3, 4, 4, 5, 4, 5, 5, 6]
  }

  method BitsIn1(x: bv64) returns (n: nat)
    requires 32 <= x as nat < 64
    ensures n == BitsOfByte(x)
  {
    n := BitsRow1()[x as nat - 32];
  }

  function BitsRow2(): (s: seq<nat>)
    ensures |s| == 32
  {
    [1, 2, 2, 3, 2, 3, 3, 4, 2, 3, 3, 4, 3, 4, 4, 5,
     2, 3, 3, 4, 3, 4, 4, 5, 3, 4, 4, 5, 4, 5, 5, 6]
  }

  method BitsIn2(x: bv64) returns (n: nat)
    requires 64 <= x as nat < 96
    ensures n == BitsOfByte(x)
  {
    n := BitsRow2()[x as nat - 64];
  }

  function BitsRow3(): (s: seq<nat>)
    ensures |s| == 32
  {
    [2, 3, 3, 4, 3, 4, 4, 5, 3, 4, 4, 5, 4, 5, 5, 6,
     3, 4, 4, 5, 4, 5, 5, 6, 4, 5, 5, 6, 5, 6, 6, 7]
  }

  method BitsIn3(x: bv64) returns (n: nat)
    requires 96 <= x as nat < 128
    ensures n == BitsOfByte(x)
  {
    n := BitsRow3()[x as nat - 96];
  }

  function BitsRow4(): (s: seq<nat>)
    ensures |s| == 32
  {
    [1, 2, 2, 3, 2, 3, 3, 4, 2, 3, 3, 4, 3, 4, 4, 5,
     2, 3, 3, 4, 3, 4, 4, 5, 3, 4, 4, 5, 4, 5, 5, 6]
  }

  method BitsIn4(x: bv64) returns (n: nat)
    requires 128 <= x as nat < 160
    ensures n == BitsOfByte(x)
  {
    n := BitsRow4()[x as nat - 128];
  }

  function BitsRow5(): (s: seq<nat>)
    ensures |s| == 32
  {
    [2, 3, 3, 4, 3, 4, 4, 5, 3, 4, 4, 5, 4, 5, 5, 6,
     3, 4, 4, 5, 4, 5, 5, 6, 4, 5, 5, 6, 5, 6, 6, 7]
  }

  method BitsIn5(x: bv64) returns (n: nat)
    requires 160 <= x as nat < 192
    ensures n == BitsOfByte(x)
  {
    n := BitsRow5()[x as nat - 160];
  }

  function BitsRow6(): (s: seq<nat>)
    ensures |s| == 32
  {
    [2, 3, 3, 4, 3, 4, 4, 5, 3, 4, 4, 5, 4, 5, 5, 6,
     3, 4, 4, 5, 4, 5, 5, 6, 4, 5, 5, 6, 5, 6, 6, 7]
  }

  method BitsIn6(x: bv64) returns (n: nat)
    requires 192 <= x as nat < 224
    ensures n == BitsOfByte(x)
  {
    n := BitsRow6()[x as nat - 192];
  }

  function BitsRow7(): (s: seq<nat>)
    ensures |s| == 32
  {
    [3, 4, 4, 5, 4, 5, 5, 6, 4, 5, 5, 6, 5, 6, 6, 7,
     4, 5, 5, 6, 5, 6, 6, 7, 5, 6, 6, 7, 6, 7, 7, 8]
  }

  method BitsIn7(x: bv64) returns (n: nat)
    requires 224 <= x as nat < 256
    ensures n == BitsOfByte(x)
  {
    n := BitsRow7()[x as nat - 224];
  }

  /** The number of set bits of a byte, by table. */
  method ByteBits(x: bv64) returns (n: nat)
    requires x as nat < 256
    ensures n == BitsOfByte(x)
  {
    var i := x as nat;
    if i < 32 {
      n := BitsIn0(x);
    } else if i < 64 {
      n := BitsIn1(x);
    } else if i < 96 {
      n := BitsIn2(x);
    } else if i < 128 {
      n := BitsIn3(x);
    } else if i < 160 {
      n := BitsIn4(x);
    } else if i < 192 {
      n := BitsIn5(x);
    } else if i < 224 {
      n := BitsIn6(x);
    } else {
      n := BitsIn7(x);
    }
  }

  function LastFreeRow0(): (s: seq<nat>)
    ensures |s| == 32
  {
    [0, 1, 2, 2, 3, 3, 3, 3, 4, 4, 4, 4, 4, 4, 4, 4,
     5, 5, 5, 5, 5, 5, 5, 5, 5, 5, 5, 5, 5, 5, 5, 5]
  }

  method LastFreeIn0(x: bv64) returns (n: nat)
    requires x as nat < 32
    ensures n == LastFreeOfByte(x)
  {
    n := LastFreeRow0()[x as nat];
  }

  function LastFreeRow1(): (s: seq<nat>)
    ensures |s| == 32
  {
    [6, 6, 6, 6, 6, 6, 6, 6, 6, 6, 6, 6, 6, 6, 6, 6,
     6, 6, 6, 6, 6, 6, 6, 6, 6, 6, 6, 6, 6, 6, 6, 6]
  }

  method LastFreeIn1(x: bv64) returns (n: nat)
    requires 32 <= x as nat < 64
    ensures n == LastFreeOfByte(x)
  {
    n := LastFreeRow1()[x as nat - 32];
  }

  function LastFreeRow2(): (s: seq<nat>)
    ensures |s| == 32
  {
    [7, 7, 7, 7, 7, 7, 7, 7, 7, 7, 7, 7, 7, 7, 7, 7,
     7, 7, 7, 7, 7, 7, 7, 7, 7, 7, 7, 7, 7, 7, 7, 7]
  }

  method LastFreeIn2(x: bv64) returns (n: nat)
    requires 64 <= x as nat < 96
    ensures n == LastFreeOfByte(x)
  {
    n := LastFreeRow2()[x as nat - 64];
  }

  function LastFreeRow3(): (s: seq<nat>)
    ensures |s| == 32
  {
    [7, 7, 7, 7, 7, 7, 7, 7, 7, 7, 7, 7, 7, 7, 7, 7,
     7, 7, 7, 7, 7, 7, 7, 7, 7, 7, 7, 7, 7, 7, 7, 7]
  }

  method LastFreeIn3(x: bv64) returns (n: nat)
    requires 96 <= x as nat < 128
    ensures n == LastFreeOfByte(x)
  {
    n := LastFreeRow3()[x as nat - 96];
  }

  function LastFreeRow4(): (s: seq<nat>)
    ensures |s| == 32
  {
    [8, 8, 8, 8, 8, 8, 8, 8, 8, 8, 8, 8, 8, 8, 8, 8,
     8, 8, 8, 8, 8, 8, 8, 8, 8, 8, 8, 8, 8, 8, 8, 8]
  }

  method LastFreeIn4(x: bv64) returns (n: nat)
    requires 128 <= x as nat < 160
    ensures n == LastFreeOfByte(x)
  {
    n := LastFreeRow4()[x as nat - 128];
  }

  function LastFreeRow5(): (s: seq<nat>)
    ensures |s| == 32
  {
    [8, 8, 8, 8, 8, 8, 8, 8, 8, 8, 8, 8, 8, 8, 8, 8,
     8, 8, 8, 8, 8, 8, 8, 8, 8, 8, 8, 8, 8, 8, 8, 8]
  }

  method LastFreeIn5(x: bv64) returns (n: nat)
    requires 160 <= x as nat < 192
    ensures n == LastFreeOfByte(x)
  {
    n := LastFreeRow5()[x as nat - 160];
  }

  function LastFreeRow6(): (s: seq<nat>)
    ensures |s| == 32
  {
    [8, 8, 8, 8, 8, 8, 8, 8, 8, 8, 8, 8, 8, 8, 8, 8,
     8, 8, 8, 8, 8, 8, 8, 8, 8, 8, 8, 8, 8, 8, 8, 8]
  }

  method LastFreeIn6(x: bv64) returns (n: nat)
    requires 192 <= x as nat < 224
    ensures n == LastFreeOfByte(x)
  {
    n := LastFreeRow6()[x as nat - 192];
  }

  function LastFreeRow7(): (s: seq<nat>)
    ensures |s| == 32
  {
    [8, 8, 8, 8, 8, 8, 8, 8, 8, 8, 8, 8, 8, 8, 8, 8,
     8, 8, 8, 8, 8, 8, 8, 8, 8, 8, 8, 8, 8, 8, 8, 8]
  }

  method LastFreeIn7(x: bv64) returns (n: nat)
    requires 224 <= x as nat < 256
    ensures n == LastFreeOfByte(x)
  {
    n := LastFreeRow7()[x as nat - 224];
  }

  /** One past the highest set bit of a byte (0 for the zero byte), by table. */
  method ByteLastFree(x: bv64) returns (n: nat)
    requires x as nat < 256
    ensures n == LastFreeOfByte(x)
  {
    var i := x as nat;
    if i < 32 {
      n := LastFreeIn0(x);
    } else if i < 64 {
      n := LastFreeIn1(x);
    } else if i < 96 {
      n := LastFreeIn2(x);
    } else if i < 128 {
      n := LastFreeIn3(x);
    } else if i < 160 {
      n := LastFreeIn4(x);
    } else if i < 192 {
      n := LastFreeIn5(x);
    } else if i < 224 {
      n := LastFreeIn6(x);
    } else {
      n := LastFreeIn7(x);
    }
  }

  function FirstFreeRow0(): (s: seq<nat>)
    ensures |s| == 32
  {
    [0, 1, 0, 2, 0, 1, 0, 3, 0, 1, 0, 2, 0, 1, 0, 4,
     0, 1, 0, 2, 0, 1, 0, 3, 0, 1, 0, 2, 0, 1, 0, 5]
  }

  method FirstFreeIn0(x: bv64) returns (n: nat)
    requires x as nat < 32
    ensures n == FirstFreeOfByte(x)
  {
    n := FirstFreeRow0()[x as nat];
  }

  function FirstFreeRow1(): (s: seq<nat>)
    ensures |s| == 32
  {
    [0, 1, 0, 2, 0, 1, 0, 3, 0, 1, 0, 2, 0, 1, 0, 4,
     0, 1, 0, 2, 0, 1, 0, 3, 0, 1, 0, 2, 0, 1, 0, 6]
  }

  method FirstFreeIn1(x: bv64) returns (n: nat)
    requires 32 <= x as nat < 64
    ensures n == FirstFreeOfByte(x)
  {
    n := FirstFreeRow1()[x as nat - 32];
  }

  function FirstFreeRow2(): (s: seq<nat>)
    ensures |s| == 32
  {
    [0, 1, 0, 2, 0, 1, 0, 3, 0, 1, 0, 2, 0, 1, 0, 4,
     0, 1, 0, 2, 0, 1, 0, 3, 0, 1, 0, 2, 0, 1, 0, 5]
  }

  method FirstFreeIn2(x: bv64) returns (n: nat)
    requires 64 <= x as nat < 96
    ensures n == FirstFreeOfByte(x)
  {
    n := FirstFreeRow2()[x as nat - 64];
  }

  function FirstFreeRow3(): (s: seq<nat>)
    ensures |s| == 32
  {
    [0, 1, 0, 2, 0, 1, 0, 3, 0, 1, 0, 2, 0, 1, 0, 4,
     0, 1, 0, 2, 0, 1, 0, 3, 0, 1, 0, 2, 0, 1, 0, 7]
  }

  method FirstFreeIn3(x: bv64) returns (n: nat)
    requires 96 <= x as nat < 128
    ensures n == FirstFreeOfByte(x)
  {
    n := FirstFreeRow3()[x as nat - 96];
  }

  function FirstFreeRow4(): (s: seq<nat>)
    ensures |s| == 32
  {
    [0, 1, 0, 2, 0, 1, 0, 3, 0, 1, 0, 2, 0, 1, 0, 4,
     0, 1, 0, 2, 0, 1, 0, 3, 0, 1, 0, 2, 0, 1, 0, 5]
  }

  method FirstFreeIn4(x: bv64) returns (n: nat)
    requires 128 <= x as nat < 160
    ensures n == FirstFreeOfByte(x)
  {
    n := FirstFreeRow4()[x as nat - 128];
  }

  function FirstFreeRow5(): (s: seq<nat>)
    ensures |s| == 32
  {
    [0, 1, 0, 2, 0, 1, 0, 3, 0, 1, 0, 2, 0, 1, 0, 4,
     0, 1, 0, 2, 0, 1, 0, 3, 0, 1, 0, 2, 0, 1, 0, 6]
  }

  method FirstFreeIn5(x: bv64) returns (n: nat)
    requires 160 <= x as nat < 192
    ensures n == FirstFreeOfByte(x)
  {
    n := FirstFreeRow5()[x as nat - 160];
  }

  function FirstFreeRow6(): (s: seq<nat>)
    ensures |s| == 32
  {
    [0, 1, 0, 2, 0, 1, 0, 3, 0, 1, 0, 2, 0, 1, 0, 4,
     0, 1, 0, 2, 0, 1, 0, 3, 0, 1, 0, 2, 0, 1, 0, 5]
  }

  method FirstFreeIn6(x: bv64) returns (n: nat)
    requires 192 <= x as nat < 224
    ensures n == FirstFreeOfByte(x)
  {
    n := FirstFreeRow6()[x as nat - 192];
  }

  function FirstFreeRow7(): (s: seq<nat>)
    ensures |s| == 32
  {
    [0, 1, 0, 2, 0, 1, 0, 3, 0, 1, 0, 2, 0, 1, 0, 4,
     0, 1, 0, 2, 0, 1, 0, 3, 0, 1, 0, 2, 0, 1, 0, 255]
  }

  method FirstFreeIn7(x: bv64) returns (n: nat)
    requires 224 <= x as nat < 256
    ensures n == FirstFreeOfByte(x)
  {
    n := FirstFreeRow7()[x as nat - 224];
  }

  /** The lowest clear bit of a byte (255 for the full byte), by table. */
  method ByteFirstFree(x: bv64) returns (n: nat)
    requires x as nat < 256
    ensures n == FirstFreeOfByte(x)
  {
    var i := x as nat;
    if i < 32 {
      n := FirstFreeIn0(x);
    } else if i < 64 {
      n := FirstFreeIn1(x);
    } else if i < 96 {
      n := FirstFreeIn2(x);
    } else if i < 128 {
      n := FirstFreeIn3(x);
    } else if i < 160 {
      n := FirstFreeIn4(x);
    } else if i < 192 {
      n := FirstFreeIn5(x);
    } else if i < 224 {
      n := FirstFreeIn6(x);
    } else {
      n := FirstFreeIn7(x);
    }
  }
}
