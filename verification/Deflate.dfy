/** A reference decoder for the deflate format, written from RFC 1951 on the input as a string of
    bits.  It is strict, or lax where kernel/boot/linux/inflate.c is: in code sets that are not
    complete, a repeat code with nothing to repeat, distances beyond the start of the output, and a
    length that has a symbol of its own. */
module Deflate {
  import opened Bits
  import opened Canonical
  import opened CodeSet

  datatype Outcome = Done(out: seq<byte>, pos: nat) | Corrupt

  // ----- the tables of section 3.2.5; 99 marks the length codes that never occur -----

  const CPLENS: seq<nat> := [
    3, 4, 5, 6, 7, 8, 9, 10, 11, 13, 15, 17, 19, 23, 27, 31,
    35, 43, 51, 59, 67, 83, 99, 115, 131, 163, 195, 227, 258, 0, 0]

  const CPLEXT: seq<nat> := [
    0, 0, 0, 0, 0, 0, 0, 0, 1, 1, 1, 1, 2, 2, 2, 2,
    3, 3, 3, 3, 4, 4, 4, 4, 5, 5, 5, 5, 0, 99, 99]

  const CPDIST: seq<nat> := [
    1, 2, 3, 4, 5, 7, 9, 13, 17, 25, 33, 49, 65, 97, 129, 193,
    257, 385, 513, 769, 1025, 1537, 2049, 3073, 4097, 6145,
    8193, 12289, 16385, 24577]

  const CPDEXT: seq<nat> := [
    0, 0, 0, 0, 1, 1, 2, 2, 3, 3, 4, 4, 5, 5, 6, 6,
    7, 7, 8, 8, 9, 9, 10, 10, 11, 11, 12, 12, 13, 13]

  /** The order in which the lengths of the code length code are sent (section 3.2.7). */
  const BORDER: seq<nat> := [16, 17, 18, 0, 8, 7, 9, 6, 10, 5, 11, 4, 12, 3, 13, 2, 14, 1, 15]

  const MAX_LIT: nat := 288
  const MAX_DIST: nat := 30

  // ----- bits and symbols -----

  /** The bits of the input bytes, each byte from its least significant bit (section 3.1.1). */
  function BitsOf(input: seq<byte>): (s: seq<bool>)
    ensures |s| == 8 * |input|
  {
    if input == [] then [] else BitsOf(input[..|input| - 1]) + Low(input[|input| - 1], 8)
  }

  lemma {:induction false} ByteBits(input: seq<byte>, i: nat)
    requires i < |input|
    ensures BitsOf(input)[8 * i..8 * i + 8] == Low(input[i], 8)
  {
    if i < |input| - 1 {
      ByteBits(input[..|input| - 1], i);
    }
  }

  /** The next n bits as a number (section 3.1.1). */
  function Peek(s: seq<bool>, pos: nat, n: nat): (v: nat)
    requires pos + n <= |s|
    ensures v < Pow2(n)
  {
    Val(s[pos..pos + n])
  }

  /** The bits at pos begin with the code word of symbol i. */
  ghost predicate Spells(b: seq<nat>, i: nat, s: seq<bool>, pos: nat)
  {
    && i < |b| && 1 <= b[i] <= BMAX && pos + b[i] <= |s|
    && s[pos..pos + b[i]] == WordOf(b, i)
  }

  datatype Sym = NoSym | Sym(i: nat)

  ghost function Symbol(b: seq<nat>, s: seq<bool>, pos: nat): (r: Sym)
    ensures r.Sym? ==> Spells(b, r.i, s, pos)
    ensures r.NoSym? ==> forall i :: !Spells(b, i, s, pos)
  {
    if exists i :: Spells(b, i, s, pos) then
      var i: nat :| Spells(b, i, s, pos); Sym(i)
    else NoSym
  }

  /** Code lengths for which a decoder is made: complete, or of one bit each, or all zero. */
  predicate Accepted(b: seq<nat>)
  {
    MaxLen(b) == 0 || (!Oversubscribed(b) && (CompleteLengths(b) || MaxLen(b) == 1))
  }

  /** Section 3.2.7 lets no code set be like the last two but the one for distances: with no code if
      there are only literals, and with a single one of one bit. */
  predicate Allowed(lax: bool, b: seq<nat>)
  {
    Accepted(b) && (lax || CompleteLengths(b))
  }

  // ----- output -----

  function History(out: seq<byte>, i: int): byte
  {
    if 0 <= i < |out| then out[i] else 0
  }

  /** Copying len bytes from dist bytes back, one at a time (section 3.2.3). */
  function Copy(out: seq<byte>, dist: nat, len: nat): (r: seq<byte>)
    requires dist >= 1
    ensures |r| == |out| + len && out <= r
  {
    if len == 0 then out
    else
      var r := Copy(out, dist, len - 1);
      r + [History(r, |r| - dist)]
  }

  /** n whole bytes of the input. */
  function Bytes(s: seq<bool>, pos: nat, n: nat): (r: seq<byte>)
    requires pos + 8 * n <= |s|
    ensures |r| == n
  {
    if n == 0 then []
    else
      assert Pow2(8) == 256;
      Bytes(s, pos, n - 1) + [Peek(s, pos + 8 * (n - 1), 8)]
  }

  // ----- the body of a compressed block (section 3.2.3): a lax decoder lets distances reach before
  // the start of the output, and takes the bytes there to be zero; and it takes length 258 by two
  // symbols, of which section 3.2.5 lists one -----

  datatype Match = NoMatch | Match(len: nat, dist: nat, pos: nat)

  function LenExtra(i: nat): (x: nat)
    requires i < |CPLEXT|
    ensures x <= 5 || x == 99
  {
    CPLEXT[i]
  }

  function LenBase(i: nat): (n: nat)
    requires i < |CPLENS|
    ensures LenExtra(i) != 99 ==> n >= 3
  {
    CPLENS[i]
  }

  function DistExtra(i: nat): (x: nat)
    requires i < |CPDEXT|
    ensures x <= 13
  {
    CPDEXT[i]
  }

  function DistBase(i: nat): (d: nat)
    requires i < |CPDIST|
    ensures 1 <= d && d - 1 + Pow2(DistExtra(i)) <= 32768
  {
    assert Pow2(0) == 1 && Pow2(1) == 2 && Pow2(2) == 4 && Pow2(3) == 8 && Pow2(4) == 16;
    assert Pow2(5) == 32 && Pow2(6) == 64 && Pow2(7) == 128 && Pow2(8) == 256 && Pow2(9) == 512;
    assert Pow2(10) == 1024 && Pow2(11) == 2048 && Pow2(12) == 4096 && Pow2(13) == 8192;
    CPDIST[i]
  }

  datatype Dist = NoDist | Dist(dist: nat, pos: nat)

  ghost function ReadDist(dl: seq<nat>, s: seq<bool>, pos: nat): (d: Dist)
    requires |dl| <= MAX_DIST
    ensures d.Dist? ==> pos <= d.pos <= |s| && 1 <= d.dist <= 32768
  {
    match Symbol(dl, s, pos)
    case NoSym => NoDist
    case Sym(i) =>
      var pos1, x := pos + dl[i], DistExtra(i);
      if pos1 + x > |s| then NoDist else Dist(DistBase(i) + Peek(s, pos1, x), pos1 + x)
  }

  /** A length and distance pair, after length symbol i. */
  ghost function ReadMatch(dl: seq<nat>, i: nat, s: seq<bool>, pos: nat): (m: Match)
    requires 257 <= i < MAX_LIT && |dl| <= MAX_DIST
    ensures m.Match? ==> pos <= m.pos <= |s| && m.len >= 3 && 1 <= m.dist <= 32768
  {
    var x := LenExtra(i - 257);
    if x == 99 || pos + x > |s| then NoMatch else
    var len := LenBase(i - 257) + Peek(s, pos, x);
    match ReadDist(dl, s, pos + x)
    case NoDist => NoMatch
    case Dist(dist, pos2) => Match(len, dist, pos2)
  }

  /** Symbol 284 is for lengths up to 257. */
  predicate Unlisted(i: nat, len: nat)
  {
    i == 284 && len == 258
  }

  ghost function Body(lax: bool, ll: seq<nat>, dl: seq<nat>, s: seq<bool>, pos: nat, out: seq<byte>): (r: Outcome)
    requires |ll| <= MAX_LIT && |dl| <= MAX_DIST
    ensures r.Done? ==> pos < r.pos <= |s|
    decreases |s| - pos
  {
    match Symbol(ll, s, pos)
    case NoSym => Corrupt
    case Sym(i) =>
      var pos1 := pos + ll[i];
      if i < 256 then Body(lax, ll, dl, s, pos1, out + [i])
      else if i == 256 then Done(out, pos1)
      else
        match ReadMatch(dl, i, s, pos1)
        case NoMatch => Corrupt
        case Match(len, dist, pos2) =>
          if !lax && (dist > |out| || Unlisted(i, len)) then Corrupt
          else Body(lax, ll, dl, s, pos2, Copy(out, dist, len))
  }

  // ----- the three kinds of block -----

  ghost function Stored(s: seq<bool>, pos: nat, out: seq<byte>): (r: Outcome)
    ensures r.Done? ==> pos < r.pos <= |s|
  {
    var p := (pos + 7) / 8 * 8;
    if p + 32 > |s| then Corrupt else
    var n := Peek(s, p, 16);
    if n + Peek(s, p + 16, 16) != 0xffff || p + 32 + 8 * n > |s| then Corrupt
    else Done(out + Bytes(s, p + 32, n), p + 32 + 8 * n)
  }

  function Repeat(v: nat, n: nat): seq<nat>
  {
    seq(n, _ => v)
  }

  function FixedLit(): seq<nat>
  {
    Repeat(8, 144) + Repeat(9, 112) + Repeat(7, 24) + Repeat(8, 8)
  }

  function FixedDist(): seq<nat>
  {
    Repeat(5, MAX_DIST)
  }

  /** The first n lengths of the code length code, in symbol order. */
  function CodeLens(s: seq<bool>, pos: nat, n: nat): (cl: seq<nat>)
    requires n <= 19 && pos + 3 * n <= |s|
    ensures |cl| == 19
  {
    if n == 0 then seq(19, _ => 0)
    else CodeLens(s, pos, n - 1)[BORDER[n - 1] := Peek(s, pos + 3 * (n - 1), 3)]
  }

  /** These lengths have three bits. */
  lemma {:induction false} CodeLensSmall(s: seq<bool>, pos: nat, n: nat)
    requires n <= 19 && pos + 3 * n <= |s|
    ensures forall i :: 0 <= i < 19 ==> CodeLens(s, pos, n)[i] <= 7
  {
    if n > 0 {
      assert Pow2(3) == 8;
      CodeLensSmall(s, pos, n - 1);
    }
  }

  datatype Lens = NoLens | Lens(b: seq<nat>, pos: nat)

  /** Run-length coded code lengths (section 3.2.7); code 16 repeats the one before, and if there is
      none a lax decoder repeats zero. */
  ghost function Lengths(lax: bool, cl: seq<nat>, n: nat, s: seq<bool>, pos: nat, acc: seq<nat>): (r: Lens)
    requires |cl| == 19
    ensures r.Lens? && |acc| <= n ==> |r.b| == n
    ensures r.Lens? && pos <= |s| ==> pos <= r.pos <= |s|
    ensures r.Lens? && (forall i :: 0 <= i < |acc| ==> acc[i] <= 15) ==> forall i :: 0 <= i < |r.b| ==> r.b[i] <= 15
    decreases if |acc| <= n then n - |acc| else 0
  {
    if |acc| >= n then Lens(acc, pos) else
    match Symbol(cl, s, pos)
    case NoSym => NoLens
    case Sym(i) =>
      var pos1 := pos + cl[i];
      if i < 16 then Lengths(lax, cl, n, s, pos1, acc + [i]) else
      var x := if i == 16 then 2 else if i == 17 then 3 else 7;
      if pos1 + x > |s| || (i == 16 && acc == [] && !lax) then NoLens else
      var r := (if i == 18 then 11 else 3) + Peek(s, pos1, x);
      var v := if i == 16 && acc != [] then acc[|acc| - 1] else 0;
      if |acc| + r > n then NoLens
      else Lengths(lax, cl, n, s, pos1 + x, acc + Repeat(v, r))
  }

  /** The body of a dynamic block, with nl literal and length codes among the lengths b. */
  ghost function DynamicBody(lax: bool, nl: nat, b: seq<nat>, s: seq<bool>, pos: nat, out: seq<byte>): (r: Outcome)
    requires nl <= MAX_LIT && nl <= |b| <= nl + MAX_DIST
    ensures r.Done? ==> pos < r.pos <= |s|
  {
    if !Allowed(lax, b[..nl]) || !Accepted(b[nl..]) then Corrupt
    else Body(lax, b[..nl], b[nl..], s, pos, out)
  }

  /** A dynamic block after its three counts. */
  ghost function DynamicLens(lax: bool, nl: nat, nd: nat, nb: nat, s: seq<bool>, pos: nat, out: seq<byte>): (r: Outcome)
    requires nl <= MAX_LIT && nd <= MAX_DIST && nb <= 19
    ensures r.Done? ==> pos < r.pos <= |s|
  {
    if pos + 3 * nb > |s| then Corrupt else
    var cl := CodeLens(s, pos, nb);
    if !Allowed(lax, cl) then Corrupt else
    match Lengths(lax, cl, nl + nd, s, pos + 3 * nb, [])
    case NoLens => Corrupt
    case Lens(b, pos2) => DynamicBody(lax, nl, b, s, pos2, out)
  }

  ghost function Dynamic(lax: bool, s: seq<bool>, pos: nat, out: seq<byte>): (r: Outcome)
    ensures r.Done? ==> pos < r.pos <= |s|
  {
    if pos + 14 > |s| then Corrupt else
    var nl, nd, nb := 257 + Peek(s, pos, 5), 1 + Peek(s, pos + 5, 5), 4 + Peek(s, pos + 10, 4);
    assert Pow2(4) == 16;
    if nl > 286 || nd > 30 then Corrupt
    else DynamicLens(lax, nl, nd, nb, s, pos + 14, out)
  }

  ghost function Block(lax: bool, s: seq<bool>, pos: nat, out: seq<byte>): (r: Outcome)
    ensures r.Done? ==> pos < r.pos <= |s|
  {
    if pos + 2 > |s| then Corrupt else
    var t := Peek(s, pos, 2);
    if t == 2 then Dynamic(lax, s, pos + 2, out)
    else if t == 0 then Stored(s, pos + 2, out)
    else if t == 1 then Body(lax, FixedLit(), FixedDist(), s, pos + 2, out)
    else Corrupt
  }

  /** A whole deflate stream: blocks up to the one marked last. */
  ghost function Inflated(lax: bool, s: seq<bool>, pos: nat, out: seq<byte>): (r: Outcome)
    ensures r.Done? ==> pos < r.pos <= |s|
    decreases |s| - pos
  {
    if pos + 1 > |s| then Corrupt else
    match Block(lax, s, pos + 1, out)
    case Corrupt => Corrupt
    case Done(out2, pos2) =>
      if Peek(s, pos, 1) == 1 then Done(out2, pos2) else Inflated(lax, s, pos2, out2)
  }
}
