/** Streams on which the decoder of RFC 1951 and the one that kernel/boot/linux/inflate.c implements
    differ, one for each way. */
module DeflateStreams {
  import opened Bits
  import opened Canonical
  import opened CodeSet
  import opened HuftDecode
  import opened HuftFill
  import opened HuftTable
  import opened HuftSymbols
  import opened HuftSites
  import opened Deflate
  import opened DeflateBack
  import opened DeflateLengths
  import opened DeflateStrict

  // ----- a distance that reaches too far -----

  /** A last block with the fixed codes: length 3, distance 1, end of block; and anything after it. */
  function FarStream(t: seq<bool>): seq<bool>
  {
    [true, true, false] + WordOf(FixedLit(), 257) + WordOf(FixedDist(), 0) + WordOf(FixedLit(), 256) + t
  }

  lemma {:induction false} FixedLens()
    ensures |FixedLit()| == 288 && FixedLit()[256] == FixedLit()[257] == 7
    ensures |FixedDist()| == 30 && FixedDist()[0] == 5
  {
  }

  lemma {:induction false} FarSymbols(t: seq<bool>)
    ensures var s := FarStream(t);
      && |s| == 22 + |t| && s[0] && s[1] && !s[2] && Symbol(FixedLit(), s, 3) == Sym(257)
      && Symbol(FixedDist(), s, 10) == Sym(0) && Symbol(FixedLit(), s, 15) == Sym(256)
  {
    hide FixedLit, FixedDist, WordOf, Symbol, MaxLen, Oversubscribed, CompleteLengths;
    FixedLens();
    FixedLitComplete();
    FixedDistFits();
    var s, a, b, c := FarStream(t), WordOf(FixedLit(), 257), WordOf(FixedDist(), 0), WordOf(FixedLit(), 256);
    assert s[3..10] == a && s[10..15] == b && s[15..22] == c;
    SymbolIs(FixedLit(), s, 3, 257);
    SymbolIs(FixedDist(), s, 10, 0);
    SymbolIs(FixedLit(), s, 15, 256);
  }

  /** The lax decoder makes three zeros of it, as the code does; RFC 1951 does not allow it. */
  lemma {:induction false} DistanceDiffers(t: seq<bool>)
    ensures Inflated(true, FarStream(t), 0, []) == Done([0, 0, 0], 22)
    ensures Inflated(false, FarStream(t), 0, []) == Corrupt && Departs(FarStream(t), 0, [])
  {
    hide FixedLit, FixedDist, Symbol, Spells, FarStream, Dynamic, Stored;
    FixedLens();
    FarSymbols(t);
    var s := FarStream(t);
    FarMatch(s);
    assert Peek(s, 0, 1) == 1 by { assert s[0..1] == [true]; }
    assert Peek(s, 1, 2) == 1 by { assert s[1..3] == [true, false]; assert [true, false][1..] == [false]; }
    assert Body(true, FixedLit(), FixedDist(), s, 15, [0, 0, 0]) == Done([0, 0, 0], 22);
    assert Body(true, FixedLit(), FixedDist(), s, 3, []) == Body(true, FixedLit(), FixedDist(), s, 15, [0, 0, 0]);
    assert BodyDeparts(FixedLit(), FixedDist(), s, 3, []);
    assert CodesAt(true, s, 1) == Header(FixedLit(), FixedDist(), 3);
    Strict(s, 0, []);
  }

  lemma {:induction false} FarMatch(s: seq<bool>)
    requires |s| >= 22 && Symbol(FixedDist(), s, 10) == Sym(0)
    ensures ReadMatch(FixedDist(), 257, s, 10) == Match(3, 1, 15) && Copy([], 1, 3) == [0, 0, 0]
  {
    hide Symbol;
    FixedLens();
    assert s[10..10] == [] && s[15..15] == [];
    assert Copy([], 1, 1) == [0];
    assert Copy([], 1, 2) == [0, 0];
  }

  // ----- length 258 by symbol 284 -----

  /** A last block with the fixed codes: a zero, symbol 284 with all its extra bits set and distance 1, end
      of block; and anything after it. */
  function LongStream(t: seq<bool>): seq<bool>
  {
    FixedSizes();
    [true] + (Low(1, 2) + (WordOf(FixedLit(), 0) + (WordOf(FixedLit(), 284) + (Low(31, 5) +
    (WordOf(FixedDist(), 0) + (WordOf(FixedLit(), 256) + t))))))
  }

  lemma {:induction false} FixedSizes()
    ensures |FixedLit()| == 288 && FixedLit()[0] == 8 && FixedLit()[284] == 8 && FixedLit()[256] == 7
    ensures |FixedDist()| == 30 && FixedDist()[0] == 5
  {
  }

  lemma {:induction false} LongParts(t: seq<bool>)
    ensures var s := LongStream(t);
      && |s| >= 36 && Peek(s, 0, 1) == 1 && Peek(s, 1, 2) == 1 && Symbol(FixedLit(), s, 3) == Sym(0)
      && Symbol(FixedLit(), s, 11) == Sym(284) && Peek(s, 19, 5) == 31 && Symbol(FixedDist(), s, 24) == Sym(0)
      && Symbol(FixedLit(), s, 29) == Sym(256)
  {
    hide FixedLit, FixedDist, WordOf, Symbol, MaxLen, Oversubscribed, CompleteLengths, Low, Peek;
    FixedSizes();
    FixedLitComplete();
    FixedDistFits();
    var s := LongStream(t);
    var a, b, c, d := WordOf(FixedLit(), 0), WordOf(FixedLit(), 284), WordOf(FixedDist(), 0), WordOf(FixedLit(), 256);
    var e, f := Low(1, 2), Low(31, 5);
    assert Starts(s, 0, s) by { assert s[0..0 + |s|] == s; }
    StartsApart(s, 0, [true], e + (a + (b + (f + (c + (d + t))))));
    StartsApart(s, 1, e, a + (b + (f + (c + (d + t)))));
    StartsApart(s, 3, a, b + (f + (c + (d + t))));
    StartsApart(s, 11, b, f + (c + (d + t)));
    StartsApart(s, 19, f, c + (d + t));
    StartsApart(s, 24, c, d + t);
    StartsApart(s, 29, d, t);
    assert Pow2(2) == 4 && Pow2(5) == 32;
    PeekBit(s, 0, true);
    PeekStarts(s, 1, 1, 2);
    PeekStarts(s, 19, 31, 5);
    SymbolStarts(FixedLit(), s, 3, 0);
    SymbolStarts(FixedLit(), s, 11, 284);
    SymbolStarts(FixedDist(), s, 24, 0);
    SymbolStarts(FixedLit(), s, 29, 256);
  }

  /** The lax decoder makes a match of length 258 of it; the table of RFC 1951 has another symbol for that. */
  lemma {:induction false} LengthDiffers(t: seq<bool>)
    ensures Inflated(true, LongStream(t), 0, []) == Done(Copy([0], 1, 258), 36)
    ensures Inflated(false, LongStream(t), 0, []) == Corrupt
  {
    hide FixedLit, FixedDist, Symbol, LongStream, Dynamic, Stored, Peek, Copy, Low;
    FixedSizes();
    LongParts(t);
    var s, ll, dl := LongStream(t), FixedLit(), FixedDist();
    LongMatch(s);
    assert Body(true, ll, dl, s, 29, Copy([0], 1, 258)) == Done(Copy([0], 1, 258), 36);
    assert Body(true, ll, dl, s, 11, [0]) == Body(true, ll, dl, s, 29, Copy([0], 1, 258));
    assert [] + [0] == [0];
    assert Body(true, ll, dl, s, 3, []) == Body(true, ll, dl, s, 11, [0]);
    assert BodyDeparts(ll, dl, s, 11, [0]);
    assert BodyDeparts(ll, dl, s, 3, []);
    assert CodesAt(true, s, 1) == Header(ll, dl, 3);
    Strict(s, 0, []);
  }

  lemma {:induction false} LongMatch(s: seq<bool>)
    requires |s| >= 36 && Symbol(FixedDist(), s, 24) == Sym(0) && Peek(s, 19, 5) == 31
    ensures ReadMatch(FixedDist(), 284, s, 19) == Match(258, 1, 29)
  {
    hide Symbol;
    FixedSizes();
    assert s[29..29] == [];
  }

  // ----- dynamic blocks -----

  /** The code length code 16 and 18 in two bits, 1 in one; as lengths, and as they are sent. */
  const META: seq<nat> := [0, 1] + Repeat(0, 14) + [2, 0, 2]
  const SENT: seq<nat> := [2, 0, 2] + Repeat(0, 14) + [1]

  lemma {:induction false} SentSpreads()
    ensures |META| == 19 && |SENT| == 18 && Spread(SENT, 18) == META
    ensures forall k :: 0 <= k < 18 ==> SENT[k] < 8
  {
    SpreadAt(18);
  }

  function SpreadTo(n: nat, i: nat): nat
  {
    if (i == 16 && n > 0) || (i == 18 && n > 2) then 2 else if i == 1 && n > 17 then 1 else 0
  }

  lemma {:induction false} SpreadAt(n: nat)
    requires n <= |SENT| == 18
    ensures forall i :: 0 <= i < 19 ==> Spread(SENT, n)[i] == SpreadTo(n, i)
  {
    if n > 0 {
      SpreadAt(n - 1);
      assert BORDER[0] == 16 && BORDER[2] == 18 && BORDER[17] == 1;
      assert forall k :: 0 <= k < 19 ==>
        (BORDER[k] == 16 <==> k == 0) && (BORDER[k] == 18 <==> k == 2) && (BORDER[k] == 1 <==> k == 17);
    }
  }

  lemma {:induction false} MetaComplete()
    ensures MaxLen(META) == 2 && CompleteLengths(META) && !Oversubscribed(META)
  {
    hide Count, Repeat;
    var c := Counts(META);
    forall k: nat | k <= BMAX ensures c[k] == if k == 0 then 16 else if k == 1 then 1 else if k == 2 then 2 else 0 {
      CountAppend([0, 1] + Repeat(0, 14), [2, 0, 2], k);
      CountAppend([0, 1], Repeat(0, 14), k);
      CountRepeat(0, 14, k);
      CountPair(0, 1, k);
      CountAppend([2, 0], [2], k);
      CountPair(2, 0, k);
      CountOne(2, k);
      assert [2, 0, 2] == [2, 0] + [2];
    }
    assert First(c, 1) == 0;
    FirstFrom(c, 2);
    assert Pow2(2) == 4;
    Extremes(c, 1, 2);
  }

  lemma {:induction false} CountOne(a: nat, k: nat)
    ensures Count([a], k) == if a == k then 1 else 0
  {
    assert [a][..0] == [];
  }

  lemma {:induction false} CountPair(a: nat, b: nat, k: nat)
    ensures Count([a, b], k) == (if a == k then 1 else 0) + (if b == k then 1 else 0)
  {
    assert [a, b] == [a] + [b];
    CountAppend([a], [b], k);
    CountOne(a, k);
    CountOne(b, k);
  }

  /** The last block, dynamic, with 257 literal and 11 distance codes, their lengths as the items say;
      and at once the end of the block. */
  function DynamicStream(items: seq<Item>, t: seq<bool>): seq<bool>
    requires Usable(META, items) && |Expand([], items)| == 268 && 1 <= Expand([], items)[256] <= BMAX
  {
    [true] + Low(2, 2) + Low(0, 5) + Low(10, 5) + Low(14, 4) + Triples(SENT) + Coded(META, items) +
    WordOf(Expand([], items)[..257], 256) + t
  }

  lemma {:induction false} StreamParts(items: seq<Item>, t: seq<bool>)
    requires Usable(META, items) && |Expand([], items)| == 268 && 1 <= Expand([], items)[256] <= BMAX
    ensures var s, c, w := DynamicStream(items, t), Coded(META, items), WordOf(Expand([], items)[..257], 256);
      && |s| == 71 + |c| + |w| + |t| && s[0..1] == [true] && s[1..3] == Low(2, 2) && s[3..8] == Low(0, 5)
      && s[8..13] == Low(10, 5) && s[13..17] == Low(14, 4) && s[17..71] == Triples(SENT)
      && s[71..71 + |c|] == c && s[71 + |c|..71 + |c| + |w|] == w
  {
    hide Low, Triples, Coded, WordOf, Expand, Usable;
    SentSpreads();
  }

  /** What the block at 1 begins with. */
  lemma {:induction false} StreamPeeks(items: seq<Item>, t: seq<bool>)
    requires Usable(META, items) && |Expand([], items)| == 268 && 1 <= Expand([], items)[256] <= BMAX
    ensures var s := DynamicStream(items, t);
      && |s| >= 71 && Peek(s, 0, 1) == 1 && Peek(s, 1, 2) == 2 && Peek(s, 3, 5) == 0 && Peek(s, 8, 5) == 10
      && Peek(s, 13, 4) == 14 && CodeLens(s, 17, 18) == META
  {
    hide Low, Triples, Coded, WordOf, Expand, Usable, DynamicStream, Peek, CodeLens;
    var s := DynamicStream(items, t);
    StreamParts(items, t);
    SentSpreads();
    assert Pow2(2) == 4 && Pow2(4) == 16 && Pow2(5) == 32;
    assert Peek(s, 0, 1) == 1 by { PeekOne(s); }
    PeekLow(s, 1, 2, 2);
    PeekLow(s, 3, 5, 0);
    PeekLow(s, 8, 5, 10);
    PeekLow(s, 13, 4, 14);
    CodeLensBack(s, 17, SENT, 18);
  }

  lemma {:induction false} PeekOne(s: seq<bool>)
    requires |s| >= 1 && s[0..1] == [true]
    ensures Peek(s, 0, 1) == 1
  {
  }

  /** The lax decoder decodes it to nothing, if its literal and distance codes are acceptable. */
  lemma {:induction false} DynamicDecodes(items: seq<Item>, t: seq<bool>)
    requires Usable(META, items) && |Expand([], items)| == 268 && 1 <= Expand([], items)[256] <= BMAX
    requires var ll := Expand([], items)[..257]; Accepted(ll) && !Oversubscribed(ll) && MaxLen(ll) > 0
    requires Accepted(Expand([], items)[257..])
    ensures var s, b := DynamicStream(items, t), Expand([], items);
      && Inflated(true, s, 0, []) == Done([], |s| - |t|)
      && MetaAt(s, 1) == Meta(META, 71) && |s| >= 71 + |Coded(META, items)|
      && s[71..71 + |Coded(META, items)|] == Coded(META, items)
      && CodesAt(true, s, 1) == Header(b[..257], b[257..], 71 + |Coded(META, items)|)
  {
    hide Low, Triples, Coded, WordOf, Expand, DynamicStream, Peek, CodeLens, Lengths, MaxLen, Oversubscribed,
      CompleteLengths, Symbol, ReadMatch, Stored, FixedLit, FixedDist;
    var s, b := DynamicStream(items, t), Expand([], items);
    var ll, pos := b[..257], 71 + |Coded(META, items)|;
    StreamParts(items, t);
    StreamPeeks(items, t);
    MetaComplete();
    SentSpreads();
    LengthsBack(META, 268, s, 71, items, []);
    SymbolIs(ll, s, pos, 256);
    assert Body(true, ll, b[257..], s, pos, []) == Done([], pos + ll[256]);
    assert DynamicHeader(true, s, 3) == Header(ll, b[257..], pos);
    DynamicIs(true, s, 3, []);
  }

  /** 255 zeros, of which a repeat code makes the first three; 1, 1; and 11 zeros. */
  const EARLY: seq<Item> := [Item(16, 0), Item(18, 127), Item(18, 103), Item(1, 0), Item(1, 0), Item(18, 0)]

  /** 256 zeros; 1; and 11 zeros. */
  const SINGLE: seq<Item> := [Item(18, 127), Item(18, 107), Item(1, 0), Item(18, 0)]

  lemma {:induction false} BothUsable()
    ensures Usable(META, EARLY) && Usable(META, SINGLE)
  {
    assert Pow2(7) == 128 && Pow2(2) == 4 && Pow2(0) == 1;
    assert META[1] == 1 && META[16] == 2 && META[18] == 2;
  }

  lemma {:induction false} EarlyMeans()
    ensures Usable(META, EARLY) && Expand([], EARLY) == Repeat(0, 255) + [1, 1] + Repeat(0, 11)
  {
    hide Repeat, Usable;
    BothUsable();
    var e, three := EARLY, [Item(1, 0), Item(1, 0), Item(18, 0)];
    assert e[1..] == [Item(18, 127)] + ([Item(18, 103)] + three);
    assert [] + Meant([], Item(16, 0)) == Repeat(0, 3);
    ZerosMore(3, 127, [Item(18, 103)] + three);
    ZerosMore(141, 103, three);
    ThreeMean(Repeat(0, 255), three);
  }

  lemma {:induction false} ZerosMore(n: nat, x: nat, items: seq<Item>)
    ensures Expand(Repeat(0, n), [Item(18, x)] + items) == Expand(Repeat(0, n + 11 + x), items)
  {
    assert ([Item(18, x)] + items)[1..] == items;
    assert Repeat(0, n) + Repeat(0, 11 + x) == Repeat(0, n + 11 + x);
  }

  lemma {:induction false} ThreeMean(acc: seq<nat>, e: seq<Item>)
    requires e == [Item(1, 0), Item(1, 0), Item(18, 0)]
    ensures Expand(acc, e) == acc + [1, 1] + Repeat(0, 11) && Expand(acc, e[1..]) == acc + [1] + Repeat(0, 11)
  {
    hide Repeat;
    assert e[1..] == [Item(1, 0), Item(18, 0)];
    assert e[1..][1..] == [Item(18, 0)];
    assert e[1..][1..][1..] == [];
    forall a: seq<nat> ensures Expand(a, e[1..][1..]) == a + Repeat(0, 11) {
      assert Meant(a, Item(18, 0)) == Repeat(0, 11);
      assert Expand(a + Repeat(0, 11), []) == a + Repeat(0, 11);
    }
    assert acc + [1] + [1] == acc + [1, 1];
  }

  lemma {:induction false} SingleMeans()
    ensures Usable(META, SINGLE) && Expand([], SINGLE) == Repeat(0, 256) + [1] + Repeat(0, 11)
  {
    hide Repeat, Usable;
    BothUsable();
    var two := [Item(1, 0), Item(18, 0)];
    assert SINGLE == [Item(18, 127)] + ([Item(18, 107)] + two);
    assert Repeat(0, 0) == [] by { RepeatSize(0, 0); }
    ZerosMore(0, 127, [Item(18, 107)] + two);
    ZerosMore(138, 107, two);
    ThreeMean(Repeat(0, 256), [Item(1, 0)] + two);
    assert ([Item(1, 0)] + two)[1..] == two;
  }

  /** n zeros and m ones as code lengths. */
  lemma {:induction false} OnesAccepted(n: nat, m: nat)
    requires 1 <= m <= 2
    ensures var b := Repeat(0, n) + Repeat(1, m);
      Accepted(b) && !Oversubscribed(b) && MaxLen(b) == 1 && (CompleteLengths(b) <==> m == 2)
  {
    hide Count, Repeat;
    var b := Repeat(0, n) + Repeat(1, m);
    var c := Counts(b);
    forall k: nat | k <= BMAX ensures c[k] == if k == 0 then n else if k == 1 then m else 0 {
      CountAppend(Repeat(0, n), Repeat(1, m), k);
      CountRepeat(0, n, k);
      CountRepeat(1, m, k);
    }
    assert First(c, 1) == 0;
    assert Pow2(1) == 2;
    Extremes(c, 1, 1);
  }

  lemma {:induction false} ZerosAccepted(n: nat)
    ensures Accepted(Repeat(0, n))
  {
    hide Count, Repeat;
    var c := Counts(Repeat(0, n));
    forall k: nat | 0 < k <= BMAX ensures c[k] == 0 {
      CountRepeat(0, n, k);
    }
  }

  /** Code lengths that begin with a repeat: the lax decoder takes the stream, RFC 1951 does not allow it. */
  lemma {:induction false} RepeatDiffers(t: seq<bool>)
    ensures Usable(META, EARLY) && |Expand([], EARLY)| == 268 && 1 <= Expand([], EARLY)[256] <= BMAX
    ensures var s := DynamicStream(EARLY, t);
      Inflated(true, s, 0, []) == Done([], |s| - |t|) && Inflated(false, s, 0, []) == Corrupt
  {
    hide Repeat, Expand, DynamicStream, Usable, MaxLen, Oversubscribed, CompleteLengths, Accepted, Symbol, Inflated,
      MetaAt, CodesAt, WordOf, Low;
    EarlyMeans();
    Pieces(255, 2, Expand([], EARLY));
    var s := DynamicStream(EARLY, t);
    DynamicDecodes(EARLY, t);
    CodedParts(META, EARLY, s, 71);
    MetaComplete();
    SentSpreads();
    SymbolIs(META, s, 71, 16);
    Strict(s, 0, []);
  }

  lemma {:induction false} Pieces(n: nat, m: nat, b: seq<nat>)
    requires n + m == 257 && 1 <= m <= 2 && b == Repeat(0, n) + (if m == 1 then [1] else [1, 1]) + Repeat(0, 11)
    ensures |b| == 268 && b[256] == 1 && Accepted(b[..257]) && !Oversubscribed(b[..257]) && MaxLen(b[..257]) > 0
    ensures Accepted(b[257..]) && (CompleteLengths(b[..257]) <==> m == 2)
  {
    hide MaxLen, Oversubscribed, CompleteLengths, Accepted;
    OnesAccepted(n, m);
    ZerosAccepted(11);
    assert b[..257] == Repeat(0, n) + Repeat(1, m);
    assert b[257..] == Repeat(0, 11);
  }

  /** And so with a literal code of a single symbol. */
  lemma {:induction false} SingleDiffers(t: seq<bool>)
    ensures Usable(META, SINGLE) && |Expand([], SINGLE)| == 268 && 1 <= Expand([], SINGLE)[256] <= BMAX
    ensures var s := DynamicStream(SINGLE, t);
      Inflated(true, s, 0, []) == Done([], |s| - |t|) && Inflated(false, s, 0, []) == Corrupt
  {
    hide Repeat, Expand, DynamicStream, Usable, MaxLen, Oversubscribed, CompleteLengths, Accepted, Symbol, Inflated,
      MetaAt, CodesAt;
    SingleMeans();
    Pieces(256, 1, Expand([], SINGLE));
    DynamicDecodes(SINGLE, t);
    Strict(DynamicStream(SINGLE, t), 0, []);
  }
}
