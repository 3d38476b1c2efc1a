/** The CRC-32 as a shift register that takes in the bits of the message one at a time. */
module CrcBits {
  import Bits
  import opened Crc
  import Deflate

  /** One bit of the message: the register is shifted down, and the polynomial is added when the bit
      shifted out differs from that of the message. */
  function Take(c: bv32, bit: bool): bv32
  {
    if (c & 1 == 1) != bit then (c >> 1) ^ 0xedb88320 else c >> 1
  }

  function TakeAll(c: bv32, bits: seq<bool>): bv32
  {
    if bits == [] then c else Take(TakeAll(c, bits[..|bits| - 1]), bits[|bits| - 1])
  }

  lemma {:induction false} TakeAllAppend(c: bv32, x: seq<bool>, y: seq<bool>)
    ensures TakeAll(c, x + y) == TakeAll(TakeAll(c, x), y)
  {
    hide Take;
    if y == [] {
      assert x + y == x;
    } else {
      assert (x + y)[..|x + y| - 1] == x + y[..|y| - 1];
      TakeAllAppend(c, x, y[..|y| - 1]);
    }
  }

  /** Adding all the bits at once and shifting is taking in the lowest one and adding the others. */
  lemma {:induction false} StepTakes(c: bv32, w: bv32)
    ensures Step(Xor(c, w)) == Xor(Take(c, Odd(w)), Half(w))
  {
    hide Xor, Odd, Half;
    HalfXor(c, w);
    OddXor(c, w);
    XorPoly(Half(c), Half(w));
    TakeIs(c, Odd(w));
  }

  lemma {:induction false} TakeIs(c: bv32, bit: bool)
    ensures Take(c, bit) == if Odd(c) != bit then Xor(Half(c), POLY) else Half(c)
  {
  }

  lemma {:induction false} ByteHalves(y: bv8)
    ensures ((y & 1 == 1) <==> (y as int) % 2 == 1) && (y >> 1) as int == (y as int) / 2
  {
  }

  lemma {:induction false} Wide(y: bv8)
    ensures (Odd(y as bv32) <==> y & 1 == 1) && Half(y as bv32) == (y >> 1) as bv32
  {
  }

  lemma {:induction false} SameByte(y: bv8)
    ensures 0 <= y as int < 256 && Word(y as int) == y as bv32
  {
    WordOfByte(y);
  }

  lemma {:induction false} NextByte(y: bv8)
    requires y != 255
    ensures (y + 1) as int == (y as int) + 1
  {
  }

  lemma {:induction false} ByteOf(b: Bits.byte) returns (y: bv8)
    ensures y as int == b
  {
    if b == 0 {
      y := 0;
    } else {
      y := ByteOf(b - 1);
      NextByte(y);
      y := y + 1;
    }
  }

  lemma {:induction false} WordBits(b: Bits.byte)
    ensures (Odd(Word(b)) <==> b % 2 == 1) && b / 2 < 256 && Half(Word(b)) == Word(b / 2)
  {
    hide Odd, Half, Word;
    var y := ByteOf(b);
    SameByte(y);
    ByteHalves(y);
    Wide(y);
    SameByte(y >> 1);
  }

  /** Eight shifts take in the bits of a byte, lowest first. */
  lemma {:induction false} ByteTakes(c: bv32, b: Bits.byte, n: nat)
    requires n <= 8 && b < Bits.Pow2(n)
    ensures Steps(Xor(c, Word(b)), n) == TakeAll(c, Bits.Low(b, n))
    decreases n
  {
    hide Take, Word, Xor, Odd, Half, Step;
    if n == 0 {
      ZeroSteps(0);
      XorLaws(c, 0, 0);
    } else {
      WordBits(b);
      var bit := b % 2 == 1;
      StepTakes(c, Word(b));
      ByteTakes(Take(c, bit), b / 2, n - 1);
      TakeAllAppend(c, [bit], Bits.Low(b / 2, n - 1));
      TakeOne(c, bit);
    }
  }

  lemma {:induction false} TakeOne(c: bv32, bit: bool)
    ensures TakeAll(c, [bit]) == Take(c, bit)
  {
    hide Take;
    assert [bit][..0] == [];
    assert TakeAll(c, []) == c;
  }

  /** The register after any bytes is the one that has taken in their bits, in the order in which a
      deflate stream has them. */
  lemma {:induction false} FeedTakesBits(c: bv32, s: seq<Bits.byte>)
    ensures Feed(c, s) == TakeAll(c, Deflate.BitsOf(s))
  {
    hide Take, Word, Xor, Steps;
    if s != [] {
      var n := |s| - 1;
      FeedTakesBits(c, s[..n]);
      assert Bits.Pow2(8) == 256;
      ByteTakes(Feed(c, s[..n]), s[n], 8);
      TakeAllAppend(c, Deflate.BitsOf(s[..n]), Bits.Low(s[n], 8));
    }
  }

  /** CRC-32 of section 8 of RFC 1952. */
  lemma {:induction false} Crc32IsBitwise(s: seq<Bits.byte>)
    ensures Crc32(s) == TakeAll(0xffffffff, Deflate.BitsOf(s)) ^ 0xffffffff
  {
    hide TakeAll, Feed;
    FeedTakesBits(0xffffffff, s);
  }

  function Eight(c: bv32): bv32 { Step(Step(Step(Step(Step(Step(Step(Step(c)))))))) }

  lemma {:induction false} EightSteps(c: bv32)
    ensures Steps(c, 8) == Eight(c)
  {
    hide Step;
    var d := Step(Step(Step(Step(c))));
    assert Steps(d, 4) == Step(Step(Step(Step(d))));
    assert Steps(c, 8) == Steps(d, 4);
  }

  lemma {:induction false} DigitWords()
    ensures Word(0x31) == 0x31 && Word(0x32) == 0x32 && Word(0x33) == 0x33
    ensures Word(0x34) == 0x34 && Word(0x35) == 0x35 && Word(0x36) == 0x36
    ensures Word(0x37) == 0x37 && Word(0x38) == 0x38 && Word(0x39) == 0x39
  {
  }

  /** The register after the digits, one by one. */
  lemma {:induction false} DigitRegisters()
    ensures Eight(Xor(0xffffffff, 0x31)) == 0x7c231048
    ensures Eight(Xor(0x7c231048, 0x32)) == 0xb0acbb32
    ensures Eight(Xor(0xb0acbb32, 0x33)) == 0x77b79c2d
    ensures Eight(Xor(0x77b79c2d, 0x34)) == 0x641c1f5c
    ensures Eight(Xor(0x641c1f5c, 0x35)) == 0x340ac5e3
    ensures Eight(Xor(0x340ac5e3, 0x36)) == 0xf68d2c9e
    ensures Eight(Xor(0xf68d2c9e, 0x37)) == 0xaffc9660
    ensures Eight(Xor(0xaffc9660, 0x38)) == 0x651f2550
    ensures Eight(Xor(0x651f2550, 0x39)) == 0x340bc6d9
  {
  }

  lemma {:induction false} Fed(s: seq<Bits.byte>, n: nat, c: bv32, w: bv32)
    requires n < |s| && Word(s[n]) == w
    ensures Feed(0xffffffff, s[..n]) == c ==> Feed(0xffffffff, s[..n + 1]) == Eight(Xor(c, w))
  {
    hide Steps, Xor, Word, Eight;
    assert s[..n + 1][..n] == s[..n];
    EightSteps(Xor(c, w));
  }

  /** The check value of this CRC: that of the digits 1 to 9. */
  lemma {:induction false} CheckValue()
    ensures Crc32([0x31, 0x32, 0x33, 0x34, 0x35, 0x36, 0x37, 0x38, 0x39]) == 0xcbf43926
  {
    hide Feed, Steps, Word, Eight;
    var s: seq<Bits.byte> := [0x31, 0x32, 0x33, 0x34, 0x35, 0x36, 0x37, 0x38, 0x39];
    DigitWords();
    DigitRegisters();
    FeedNone(0xffffffff);
    Fed(s, 0, 0xffffffff, 0x31);
    Fed(s, 1, 0x7c231048, 0x32);
    Fed(s, 2, 0xb0acbb32, 0x33);
    Fed(s, 3, 0x77b79c2d, 0x34);
    Fed(s, 4, 0x641c1f5c, 0x35);
    Fed(s, 5, 0x340ac5e3, 0x36);
    Fed(s, 6, 0xf68d2c9e, 0x37);
    Fed(s, 7, 0xaffc9660, 0x38);
    Fed(s, 8, 0x651f2550, 0x39);
    assert s[..0] == [] && s[..9] == s;
  }

  lemma {:induction false} FeedNone(c: bv32)
    ensures Feed(c, []) == c
  {
  }
}
