/** The CRC of kernel/boot/linux/misc.c: the table made by makecrc, updcrc over any division of
    the data into pieces, and the bit-serial CRC-32 of section 8 of RFC 1952. */
module Crc {
  import opened Bits

  /** The polynomial of the CRC, without its x^32 term, lowest power in the top bit. */
  const POLY: bv32 := 0xedb88320

  // ----- 32-bit registers -----

  function Xor(a: bv32, b: bv32): bv32 { a ^ b }

  predicate Odd(a: bv32) { a & 1 == 1 }

  function Half(a: bv32): bv32 { a >> 1 }

  function LowByte(a: bv32): bv8 { (a & 0xff) as bv8 }

  function Upper(a: bv32): bv32 { a >> 8 }

  lemma {:induction false} XorLaws(a: bv32, b: bv32, c: bv32)
    ensures Xor(Xor(a, b), c) == Xor(a, Xor(b, c)) && Xor(a, b) == Xor(b, a)
    ensures Xor(a, 0) == a && Xor(a, a) == 0
  {
  }

  lemma {:induction false} HalfXor(a: bv32, b: bv32)
    ensures Half(Xor(a, b)) == Xor(Half(a), Half(b))
  {
  }

  lemma {:induction false} OddXor(a: bv32, b: bv32)
    ensures Odd(Xor(a, b)) <==> Odd(a) != Odd(b)
  {
  }

  // ----- the bit-serial definition -----

  /** Shifting one bit out of the register. */
  function Step(c: bv32): bv32
  {
    if Odd(c) then Xor(Half(c), POLY) else Half(c)
  }

  function Steps(c: bv32, n: nat): bv32
    decreases n
  {
    if n == 0 then c else Steps(Step(c), n - 1)
  }

  function Word(b: byte): bv32
  {
    (b as bv8) as bv32
  }

  /** The register after the bytes s, each taken in as eight single bits. */
  function Feed(c: bv32, s: seq<byte>): bv32
    decreases s
  {
    if s == [] then c else Steps(Xor(Feed(c, s[..|s| - 1]), Word(s[|s| - 1])), 8)
  }

  function Crc32(s: seq<byte>): bv32
  {
    Xor(Feed(0xffffffff, s), 0xffffffff)
  }

  /** The division of the data into pieces does not matter. */
  lemma {:induction false} FeedAppend(c: bv32, x: seq<byte>, y: seq<byte>)
    ensures Feed(c, x + y) == Feed(Feed(c, x), y)
    decreases y
  {
    hide Steps, Xor, Word;
    if y == [] {
      assert x + y == x;
    } else {
      assert (x + y)[..|x + y| - 1] == x + y[..|y| - 1];
      FeedAppend(c, x, y[..|y| - 1]);
    }
  }

  // ----- the shift step is linear -----

  lemma {:induction false} XorPoly(a: bv32, b: bv32)
    ensures Xor(Xor(a, POLY), b) == Xor(Xor(a, b), POLY) == Xor(a, Xor(b, POLY))
    ensures Xor(Xor(a, POLY), Xor(b, POLY)) == Xor(a, b)
  {
    hide Xor;
    var ab := Xor(a, b);
    XorLaws(a, POLY, b);
    XorLaws(POLY, b, 0);
    XorLaws(a, b, POLY);
    XorLaws(ab, POLY, POLY);
    XorLaws(POLY, POLY, 0);
    XorLaws(a, POLY, Xor(b, POLY));
    XorLaws(POLY, Xor(b, POLY), 0);
    XorLaws(b, POLY, POLY);
    XorLaws(b, 0, 0);
    XorLaws(ab, 0, 0);
  }

  lemma {:induction false} StepLinear(a: bv32, b: bv32)
    ensures Step(Xor(a, b)) == Xor(Step(a), Step(b))
  {
    hide Xor, Odd, Half;
    HalfXor(a, b);
    OddXor(a, b);
    XorPoly(Half(a), Half(b));
  }

  lemma {:induction false} StepsLinear(a: bv32, b: bv32, n: nat)
    ensures Steps(Xor(a, b), n) == Xor(Steps(a, n), Steps(b, n))
    decreases n
  {
    hide Step, Xor;
    if n > 0 {
      StepLinear(a, b);
      StepsLinear(Step(a), Step(b), n - 1);
    }
  }

  /** The low m bits of a register are clear. */
  predicate Clear(a: bv32, m: nat)
  {
    if m == 0 then true else if m == 1 then a & 1 == 0 else if m == 2 then a & 3 == 0
    else if m == 3 then a & 7 == 0 else if m == 4 then a & 15 == 0 else if m == 5 then a & 31 == 0
    else if m == 6 then a & 63 == 0 else if m == 7 then a & 127 == 0 else a & 255 == 0
  }

  lemma {:induction false} ClearHalf(a: bv32, m: nat)
    requires 1 <= m <= 8 && Clear(a, m)
    ensures !Odd(a) && Clear(Half(a), m - 1)
  {
  }

  function Halved(a: bv32, n: nat): bv32
    decreases n
  {
    if n == 0 then a else Halved(Half(a), n - 1)
  }

  /** Shifts of a register whose low bits are clear just move it down. */
  lemma {:induction false} StepsHigh(a: bv32, n: nat)
    requires n <= 8 && Clear(a, n)
    ensures Steps(a, n) == Halved(a, n)
    decreases n
  {
    hide Half, Odd, Xor, Clear;
    if n > 0 {
      ClearHalf(a, n);
      StepsHigh(Half(a), n - 1);
    }
  }

  lemma {:induction false} EightHalves(a: bv32)
    ensures Half(Half(Half(Half(Half(Half(Half(Half(a)))))))) == Upper(a)
  {
  }

  lemma {:induction false} ByteHalved(a: bv32)
    ensures Halved(a, 8) == Upper(a)
  {
    hide Half, Upper;
    EightHalves(a);
    var b := Half(Half(a));
    var c := Half(Half(b));
    var d := Half(Half(c));
    assert Halved(d, 2) == Half(Half(d));
    assert Halved(c, 4) == Halved(d, 2);
    assert Halved(b, 6) == Halved(c, 4);
  }

  // ----- the table -----

  /** Terms of the polynomial, except x^32. */
  const TERMS: seq<nat> := [0, 1, 2, 4, 5, 7, 8, 10, 11, 12, 16, 22, 23, 26]

  function Pattern(n: nat): bv32
    requires n <= |TERMS|
  {
    if n == 0 then 0 else Pattern(n - 1) | ((1 as bv32) << (31 - TERMS[n - 1]))
  }

  lemma {:induction false} PatternIsPoly()
    ensures Pattern(|TERMS|) == POLY
  {
    assert Pattern(4) == 0xe8000000;
    assert Pattern(7) == 0xed800000;
    assert Pattern(10) == 0xedb80000;
    assert Pattern(12) == 0xedb88200;
    assert Pattern(14) == 0xedb88320;
  }

  /** The table holds the register after each byte alone. */
  ghost predicate TableOK(tab: seq<bv32>)
  {
    |tab| == 256 && forall i :: 0 <= i < 256 ==> tab[i] == ByteSteps(i)
  }

  function ByteSteps(i: byte): bv32 { Steps(Word(i), 8) }

  /** Taking the lowest bit of k into the register c. */
  function TakeBit(c: bv32, k: bv32): bv32
  {
    if Odd(k) then Xor(Step(c), POLY) else Step(c)
  }

  lemma {:induction false} TakeBitStep(c: bv32, k: bv32)
    ensures Step(Xor(c, k)) == Xor(TakeBit(c, k), Half(k))
  {
    hide Odd, Half, Xor;
    StepLinear(c, k);
    XorPoly(Step(c), Half(k));
  }

  /** The marker bit above the m bits of k still to be taken in. */
  function Marker(m: nat): bv32
  {
    if m == 0 then 1 else if m == 1 then 2 else if m == 2 then 4 else if m == 3 then 8
    else if m == 4 then 16 else if m == 5 then 32 else if m == 6 then 64 else if m == 7 then 128
    else 256
  }

  function Marked(rem: bv32, m: nat): bv32 { rem | Marker(m) }

  predicate Below(rem: bv32, m: nat) { rem < Marker(m) }

  /** Taking the next bit off k: the marker moves down with the rest. */
  lemma {:induction false} MarkerDown(rem: bv32, m: nat)
    requires 1 <= m <= 8 && Below(rem, m)
    ensures Half(Marked(rem, m)) == Marked(Half(rem), m - 1) && Below(Half(rem), m - 1)
    ensures Odd(Marked(rem, m)) <==> Odd(rem)
  {
  }

  lemma {:induction false} LastMarker(rem: bv32, m: nat)
    requires m <= 8 && Below(rem, m)
    ensures Marked(rem, m) == 1 <==> m == 0
    ensures m == 0 ==> rem == 0
  {
  }

  lemma {:induction false} FirstMarker(i: byte)
    ensures Below(Word(i), 8) && Marked(Word(i), 8) == Word(i) | 256
  {
  }

  /** One entry of the table: the bits of i, lowest first, until only the marker is left. */
  method MakeEntry(i: byte, e: bv32) returns (c: bv32)
    requires e == POLY
    ensures c == ByteSteps(i)
  {
    hide Step, Marked, Below, Xor, Odd, Half, Word;
    c := 0;
    FirstMarker(i);
    var k := Word(i) | 256;
    ghost var rem, m: nat := Word(i), 8;
    XorLaws(0, rem, 0);
    XorLaws(rem, 0, 0);
    LastMarker(rem, m);
    while k != 1
      invariant m <= 8 && k == Marked(rem, m) && Below(rem, m)
      invariant k == 1 <==> m == 0
      invariant ByteSteps(i) == Steps(Xor(c, rem), m)
      decreases m
    {
      TakeBitStep(c, rem);
      MarkerDown(rem, m);
      c := Step(c);
      if Odd(k) {
        c := Xor(c, e);
      }
      k := Half(k);
      rem, m := Half(rem), m - 1;
      LastMarker(rem, m);
    }
    LastMarker(rem, m);
    XorLaws(c, 0, 0);
  }

  /** makecrc */
  method MakeCrc() returns (tab: seq<bv32>)
    ensures TableOK(tab)
  {
    hide ByteSteps, POLY;
    var e := MakePattern();
    ZeroByte();
    tab := [0];
    for i := 1 to 256
      invariant |tab| == i && forall j :: 0 <= j < i ==> tab[j] == ByteSteps(j)
    {
      var c := MakeEntry(i, e);
      tab := tab + [c];
    }
  }

  method MakePattern() returns (e: bv32)
    ensures e == POLY
  {
    hide Pattern;
    e := 0;
    assert Pattern(0) == 0 by { PatternStep(0); }
    for i := 0 to |TERMS|
      invariant e == Pattern(i)
    {
      PatternStep(i);
      e := e | ((1 as bv32) << (31 - TERMS[i]));
    }
    PatternIsPoly();
  }

  lemma {:induction false} PatternStep(i: nat)
    requires i <= |TERMS|
    ensures Pattern(0) == 0
    ensures i < |TERMS| ==> Pattern(i + 1) == Pattern(i) | ((1 as bv32) << (31 - TERMS[i]))
  {
  }

  lemma {:induction false} ZeroByte()
    ensures ByteSteps(0) == 0
  {
    ZeroSteps(8);
  }

  lemma {:induction false} ZeroSteps(n: nat)
    ensures Steps(0, n) == 0 && Word(0) == 0
  {
    if n > 0 { ZeroSteps(n - 1); }
  }

  // ----- the running CRC -----

  /** Looking up the low byte and moving the rest down. */
  function Lookup(tab: seq<bv32>, c: bv32, b: byte): bv32
    requires |tab| == 256
  {
    Xor(tab[LowByte(Xor(c, Word(b))) as int], Upper(c))
  }

  lemma {:induction false} HighPart(c: bv32, w: bv32)
    requires w < 256
    ensures Clear(Xor(Xor(c, w), LowByte(Xor(c, w)) as bv32), 8)
  {
  }

  lemma {:induction false} HighUpper(c: bv32, w: bv32)
    requires w < 256
    ensures Upper(Xor(Xor(c, w), LowByte(Xor(c, w)) as bv32)) == Upper(c)
  {
  }

  lemma {:induction false} Rejoin(x: bv32, lo: bv32)
    ensures Xor(lo, Xor(x, lo)) == x
  {
    hide Xor;
    XorLaws(x, lo, 0);
    XorLaws(lo, lo, x);
    XorLaws(lo, x, lo);
    XorLaws(0, x, 0);
    XorLaws(x, 0, 0);
    XorLaws(lo, lo, 0);
  }

  lemma {:induction false} WordLow(b: byte)
    ensures Word(b) < 256
  {
  }

  lemma {:induction false} WordOfByte(y: bv8)
    ensures 0 <= y as int < 256 && Word(y as int) == y as bv32
  {
  }

  /** One table look-up does the work of eight single-bit shifts. */
  lemma {:induction false} TableStep(tab: seq<bv32>, c: bv32, b: byte)
    requires TableOK(tab)
    ensures Lookup(tab, c, b) == Steps(Xor(c, Word(b)), 8)
  {
    hide Steps, Xor, Upper, LowByte, Word, Clear, Halved;
    var w := Word(b);
    var x := Xor(c, w);
    var y := LowByte(x);
    var lo := y as bv32;
    WordLow(b);
    HighPart(c, w);
    HighUpper(c, w);
    Rejoin(x, lo);
    StepsLinear(lo, Xor(x, lo), 8);
    StepsHigh(Xor(x, lo), 8);
    ByteHalved(Xor(x, lo));
    WordOfByte(y);
    assert tab[y as int] == ByteSteps(y as int);
  }

  /** updcrc on data: the register after the n bytes of s. */
  method UpdCrc(tab: seq<bv32>, crc: bv32, s: seq<byte>) returns (c: bv32)
    requires TableOK(tab)
    ensures c == Feed(crc, s)
  {
    hide Steps, Xor, Lookup, Word;
    c := crc;
    var n := 0;
    while n < |s|
      invariant n <= |s| && c == Feed(crc, s[..n])
    {
      TableStep(tab, c, s[n]);
      assert s[..n + 1][..n] == s[..n];
      c := Lookup(tab, c, s[n]);
      n := n + 1;
    }
    assert s[..|s|] == s;
  }

  /** Any sequence of flushes gives the CRC-32 of all the data together. */
  lemma {:induction false} FlushesGiveCrc32(pieces: seq<seq<byte>>, c: bv32)
    requires c == FeedAll(0xffffffff, pieces)
    ensures Xor(c, 0xffffffff) == Crc32(Concat(pieces))
  {
    FeedAllConcat(0xffffffff, pieces);
  }

  function FeedAll(c: bv32, pieces: seq<seq<byte>>): bv32
    decreases pieces
  {
    if pieces == [] then c else Feed(FeedAll(c, pieces[..|pieces| - 1]), pieces[|pieces| - 1])
  }

  function Concat(pieces: seq<seq<byte>>): seq<byte>
  {
    if pieces == [] then [] else Concat(pieces[..|pieces| - 1]) + pieces[|pieces| - 1]
  }

  lemma {:induction false} FeedAllConcat(c: bv32, pieces: seq<seq<byte>>)
    ensures FeedAll(c, pieces) == Feed(c, Concat(pieces))
    decreases pieces
  {
    if pieces != [] {
      FeedAllConcat(c, pieces[..|pieces| - 1]);
      FeedAppend(c, Concat(pieces[..|pieces| - 1]), pieces[|pieces| - 1]);
    }
  }
}
