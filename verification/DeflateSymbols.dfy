/** The symbols of section 3.2.5 of RFC 1951 by formula, the fixed code words of section 3.2.6, and the
    order of section 3.2.7. */
module DeflateSymbols {
  import opened Bits
  import opened Canonical
  import opened CodeSet
  import opened HuftPrep
  import opened HuftSites
  import opened Deflate

  // ----- lengths and distances -----

  /** The greatest m with 2^m <= x. */
  function Log(x: nat): (m: nat)
    requires x >= 1
    ensures Pow2(m) <= x < Pow2(m + 1)
  {
    if x == 1 then 0 else Log(x / 2) + 1
  }

  /** The extra bits of a length, less 3: four symbols to each number of them from 1 on. */
  function LenBits(x: nat): nat
  {
    if x < 8 then 0 else Log(x) - 2
  }

  /** The extra bits of a distance, less 1: two symbols to each. */
  function DistBits(x: nat): nat
  {
    if x < 4 then 0 else Log(x) - 1
  }

  /** A symbol, the number of its extra bits, and what they are. */
  datatype Choice = Choice(sym: nat, bits: nat, extra: nat)

  function LenChoice(len: nat): (c: Choice)
    requires 3 <= len <= 258
  {
    if len == 258 then Choice(285, 0, 0) else
    var x := len - 3;
    var e := LenBits(x);
    Choice(257 + 4 * e + x / Pow2(e), e, x % Pow2(e))
  }

  function DistChoice(dist: nat): (c: Choice)
    requires 1 <= dist <= 32768
  {
    var x := dist - 1;
    var e := DistBits(x);
    Choice(2 * e + x / Pow2(e), e, x % Pow2(e))
  }

  lemma {:induction false} Powers()
    ensures Pow2(0) == 1 && Pow2(1) == 2 && Pow2(2) == 4 && Pow2(3) == 8 && Pow2(4) == 16
    ensures Pow2(5) == 32 && Pow2(6) == 64 && Pow2(7) == 128 && Pow2(8) == 256 && Pow2(9) == 512
    ensures Pow2(10) == 1024 && Pow2(11) == 2048 && Pow2(12) == 4096 && Pow2(13) == 8192 && Pow2(14) == 16384
    ensures Pow2(15) == 32768
  {
    assert Pow2(3) == 8;
    assert Pow2(6) == 64;
    assert Pow2(9) == 512;
    assert Pow2(12) == 4096;
  }

  /** The table of lengths. */
  lemma {:induction false} LenTable(e: nat, q: nat)
    requires e <= 5 && q < 8 && (e > 0 ==> q >= 4)
    ensures 4 * e + q < 28 && LenExtra(4 * e + q) == e && LenBase(4 * e + q) == 3 + q * Pow2(e)
  {
    Powers();
    if e == 0 {
    } else if e == 1 {
    } else if e == 2 {
    } else if e == 3 {
    } else if e == 4 {
    } else {
    }
  }

  /** The table of distances. */
  lemma {:induction false} DistTableIs(e: nat, q: nat)
    requires e <= 13 && q < 4 && (e > 0 ==> q >= 2)
    ensures 2 * e + q < 30 && DistExtra(2 * e + q) == e && DistBase(2 * e + q) == 1 + q * Pow2(e)
  {
    if e <= 6 { DistLow(e, q); } else { DistHigh(e, q); }
  }

  lemma {:induction false} DistLow(e: nat, q: nat)
    requires e <= 6 && q < 4 && (e > 0 ==> q >= 2)
    ensures DistExtra(2 * e + q) == e && DistBase(2 * e + q) == 1 + q * Pow2(e)
  {
    hide Pow2;
    Powers();
    if q == 2 {
    } else if q == 3 {
    }
  }

  lemma {:induction false} DistHigh(e: nat, q: nat)
    requires 7 <= e <= 13 && 2 <= q < 4
    ensures DistExtra(2 * e + q) == e && DistBase(2 * e + q) == 1 + q * Pow2(e)
  {
    hide Pow2;
    Powers();
    if q == 2 {
    } else {
    }
  }

  /** Every length has its symbol and extra bits. */
  lemma {:induction false} LenChosen(len: nat)
    requires 3 <= len <= 258
    ensures var c := LenChoice(len);
      && 257 <= c.sym <= 285 && LenExtra(c.sym - 257) == c.bits <= 5 && c.extra < Pow2(c.bits)
      && LenBase(c.sym - 257) + c.extra == len && !Unlisted(c.sym, len)
  {
    hide Pow2, LenBits, LenBase, LenExtra;
    if len < 258 {
      var x := len - 3;
      var e := LenBits(x);
      LenRange(x);
      Quotient(x, Pow2(e), if e > 0 then 4 else 0, 8);
      LenTable(e, x / Pow2(e));
    } else {
      LongestLen();
    }
  }

  lemma {:induction false} LongestLen()
    ensures LenExtra(28) == 0 && LenBase(28) == 258 && Pow2(0) == 1
  {
  }

  lemma {:induction false} LenRange(x: nat)
    requires x < 255
    ensures var e := LenBits(x); e <= 5 && (e > 0 ==> 4 * Pow2(e) <= x) && x < 8 * Pow2(e)
  {
    Powers();
    if x >= 8 {
      var m := Log(x);
      if m > 7 { Pow2Mono(8, m); }
      if m < 3 { Pow2Mono(m + 1, 3); }
      assert Pow2(m) == 4 * Pow2(m - 2) && Pow2(m + 1) == 8 * Pow2(m - 2);
    }
  }

  lemma {:induction false} MulLe(a: nat, b: nat, d: nat)
    requires a <= b
    ensures a * d <= b * d
  {
    assert (b - a) * d >= 0;
  }

  lemma {:induction false} Quotient(x: nat, d: nat, a: nat, b: nat)
    requires d > 0 && a * d <= x < b * d
    ensures a <= x / d < b && x / d * d + x % d == x && x % d < d
  {
    var q := x / d;
    assert q * d + x % d == x && (q + 1) * d == q * d + d;
    if q >= b {
      MulLe(b, q, d);
      assert false;
    }
    if q < a {
      MulLe(q + 1, a, d);
      assert false;
    }
  }

  /** Every distance has its symbol and extra bits. */
  lemma {:induction false} DistChosen(dist: nat)
    requires 1 <= dist <= 32768
    ensures var c := DistChoice(dist);
      && c.sym < 30 && DistExtra(c.sym) == c.bits <= 13 && c.extra < Pow2(c.bits) && DistBase(c.sym) + c.extra == dist
  {
    hide Pow2, DistBits, DistBase, DistExtra;
    var x := dist - 1;
    var e := DistBits(x);
    DistRange(x);
    Quotient(x, Pow2(e), if e > 0 then 2 else 0, 4);
    DistTableIs(e, x / Pow2(e));
  }

  lemma {:induction false} DistRange(x: nat)
    requires x < 32768
    ensures var e := DistBits(x); e <= 13 && (e > 0 ==> 2 * Pow2(e) <= x) && x < 4 * Pow2(e)
  {
    hide Log;
    Powers();
    if x >= 4 {
      var m := Log(x);
      if m > 14 { Pow2Mono(15, m); }
      if m < 2 { Pow2Mono(m + 1, 2); }
      assert Pow2(m) == 2 * Pow2(m - 1) && Pow2(m + 1) == 4 * Pow2(m - 1);
    }
  }

  // ----- and every symbol and extra bits are those of a length or distance -----

  lemma {:induction false} LogIs(x: nat, m: nat)
    requires x >= 1 && Pow2(m) <= x < Pow2(m + 1)
    ensures Log(x) == m
  {
    hide Log;
    var l := Log(x);
    if l < m { Pow2Mono(l + 1, m); }
    if m < l { Pow2Mono(m + 1, l); }
  }

  /** A number in the range of its magnitude, taken apart. */
  lemma {:induction false} Magnitude(q: nat, d: nat, e: nat, a: nat, b: nat)
    requires a <= q < b && e < d
    ensures a * d <= q * d + e < b * d && (q * d + e) / d == q && (q * d + e) % d == e
  {
    MulLe(a, q, d);
    MulLe(q + 1, b, d);
    assert (q + 1) * d == q * d + d;
    DivUnique(q * d + e, d, q, e);
  }

  lemma {:induction false} LenInverse(k: nat, e: nat)
    requires k < 29 && e < Pow2(LenExtra(k)) && !Unlisted(257 + k, LenBase(k) + e)
    ensures 3 <= LenBase(k) + e <= 258 && LenChoice(LenBase(k) + e) == Choice(257 + k, LenExtra(k), e)
  {
    hide LenBase, LenExtra, Pow2, Log;
    if k == 28 {
      LongestLen();
    } else if k < 8 {
      LenInverseLow(k, e);
    } else {
      LenTable(k / 4 - 1, k % 4 + 4);
      Powers();
      LenInverseHigh(k / 4 - 1, k % 4 + 4, e);
    }
  }

  lemma {:induction false} LenInverseLow(k: nat, e: nat)
    requires k < 8 && e < Pow2(LenExtra(k))
    ensures 3 <= LenBase(k) + e <= 258 && LenChoice(LenBase(k) + e) == Choice(257 + k, LenExtra(k), e)
  {
    hide LenBase, LenExtra;
    LenTable(0, k);
    assert Pow2(0) == 1;
  }

  lemma {:induction false} LenInverseHigh(b: nat, q: nat, e: nat)
    requires 1 <= b <= 5 && 4 <= q < 8 && e < Pow2(b) && !(b == 5 && q == 7 && e == 31)
    ensures 4 * b + q < 28 && LenExtra(4 * b + q) == b
    ensures var len := LenBase(4 * b + q) + e; 3 <= len <= 257 && LenChoice(len) == Choice(257 + 4 * b + q, b, e)
  {
    hide LenBase, LenExtra, Pow2, Log;
    LenTable(b, q);
    var d := Pow2(b);
    Magnitude(q, d, e, 4, 8);
    Doubles(b);
    LogIs(q * d + e, b + 2);
    Powers();
  }

  lemma {:induction false} Doubles(b: nat)
    ensures Pow2(b + 1) == 2 * Pow2(b) && Pow2(b + 2) == 4 * Pow2(b) && Pow2(b + 3) == 8 * Pow2(b)
  {
  }

  lemma {:induction false} DistInverse(k: nat, e: nat)
    requires k < 30 && e < Pow2(DistExtra(k))
    ensures DistBase(k) + e <= 32768 && DistChoice(DistBase(k) + e) == Choice(k, DistExtra(k), e)
  {
    hide DistBase, DistExtra, Pow2, Log;
    if k < 4 {
      DistTableIs(0, k);
      Powers();
    } else {
      DistTableIs(k / 2 - 1, k % 2 + 2);
      DistInverseHigh(k / 2 - 1, k % 2 + 2, e);
    }
  }

  lemma {:induction false} DistInverseHigh(b: nat, q: nat, e: nat)
    requires 1 <= b <= 13 && 2 <= q < 4 && e < Pow2(b)
    ensures 2 * b + q < 30 && DistExtra(2 * b + q) == b
    ensures var dist := DistBase(2 * b + q) + e; dist <= 32768 && DistChoice(dist) == Choice(2 * b + q, b, e)
  {
    hide DistBase, DistExtra, Pow2, Log;
    DistTableIs(b, q);
    var d := Pow2(b);
    Magnitude(q, d, e, 2, 4);
    Doubles(b);
    LogIs(q * d + e, b + 1);
    Powers();
  }

  // ----- the order of the lengths of the code length code -----

  /** The repeat codes, zero, and then from 8 outwards. */
  lemma {:induction false} BorderIs(k: nat)
    requires k < 19
    ensures BORDER[k] == if k < 3 then 16 + k else if k == 3 then 0
                         else if k % 2 == 0 then 8 + (k - 4) / 2 else 7 - (k - 5) / 2
  {
  }

  // ----- the fixed codes -----

  /** The number of each fixed literal and length code word, and its bits. */
  function FixedCode(i: nat): nat
    requires i < 288
  {
    if i < 144 then 0x30 + i else if i < 256 then 0x190 + (i - 144) else if i < 280 then i - 256 else 0xc0 + (i - 280)
  }

  function FixedBits(i: nat): nat
    requires i < 288
  {
    if i < 144 then 8 else if i < 256 then 9 else if i < 280 then 7 else 8
  }

  lemma {:induction false} FixedLitAt(i: nat)
    requires i < 288
    ensures |FixedLit()| == 288 && FixedLit()[i] == FixedBits(i)
  {
  }

  /** How many symbols before i have as long a code. */
  lemma {:induction false} FixedBefore(i: nat)
    requires i < 288
    ensures |FixedLit()| == 288 && FixedLit()[i] == FixedBits(i)
    ensures Count(FixedLit()[..i], FixedBits(i)) ==
            if i < 144 then i else if i < 256 then i - 144 else if i < 280 then i - 256 else 144 + (i - 280)
  {
    hide Count;
    FixedLitAt(i);
    var b, k := FixedLit(), FixedBits(i);
    if i < 144 {
      assert b[..i] == Repeat(8, i);
      CountRepeat(8, i, k);
    } else if i < 256 {
      assert b[..i] == Repeat(8, 144) + Repeat(9, i - 144);
      CountAppend(Repeat(8, 144), Repeat(9, i - 144), k);
      CountRepeat(8, 144, k);
      CountRepeat(9, i - 144, k);
    } else {
      var x := Repeat(8, 144) + Repeat(9, 112);
      CountAppend(Repeat(8, 144), Repeat(9, 112), k);
      CountRepeat(8, 144, k);
      CountRepeat(9, 112, k);
      if i < 280 {
        assert b[..i] == x + Repeat(7, i - 256);
        CountAppend(x, Repeat(7, i - 256), k);
        CountRepeat(7, i - 256, k);
      } else {
        assert b[..i] == x + Repeat(7, 24) + Repeat(8, i - 280);
        CountAppend(x + Repeat(7, 24), Repeat(8, i - 280), k);
        CountAppend(x, Repeat(7, 24), k);
        CountRepeat(7, 24, k);
        CountRepeat(8, i - 280, k);
      }
    }
  }

  lemma {:induction false} FixedFirsts()
    ensures var c := Counts(FixedLit()); First(c, 7) == 0 && First(c, 8) == 48 && First(c, 9) == 400
  {
    hide Count, First, FixedLit;
    var c := Counts(FixedLit());
    forall k | 0 <= k <= BMAX
      ensures c[k] == if k == 7 then 24 else if k == 8 then 152 else if k == 9 then 112 else 0
    {
      FixedLitCounts(k);
    }
    FirstZero(c, 7);
    FirstFrom(c, 8);
    FirstFrom(c, 9);
  }

  /** The fixed literal and length code words are those of the table of section 3.2.6. */
  lemma {:induction false} FixedWord(i: nat)
    requires i < 288
    ensures |FixedLit()| == 288 && FixedLit()[i] == FixedBits(i)
    ensures WordOf(FixedLit(), i) == Code(FixedCode(i), FixedBits(i))
  {
    hide Count, First, FixedLit, Code;
    FixedBefore(i);
    FixedFirsts();
  }

  /** And the fixed distance code words are the numbers of five bits. */
  lemma {:induction false} FixedDistWord(i: nat)
    requires i < 30
    ensures |FixedDist()| == 30 && FixedDist()[i] == 5 && WordOf(FixedDist(), i) == Code(i, 5)
  {
    hide Count, Code;
    assert FixedDist()[..i] == Repeat(5, i);
    CountRepeat(5, i, 5);
    var c := Counts(FixedDist());
    forall k: nat | k < 5 ensures c[k] == 0 {
      CountRepeat(5, MAX_DIST, k);
    }
    FirstZero(c, 5);
  }
}
