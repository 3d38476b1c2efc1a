/** The strict decoder takes nothing but what the encoder sends: every stream it decodes is that of some
    blocks, and they give the same output. */
module DeflateExact {
  import opened Bits
  import opened Canonical
  import opened CodeSet
  import opened HuftSites
  import opened Deflate
  import opened DeflateBack
  import opened DeflateLengths
  import opened DeflateStrict
  import opened DeflateSymbols

  // ----- bits -----

  lemma {:induction false} LowOfVal(x: seq<bool>)
    ensures Low(Val(x), |x|) == x
  {
    if x != [] {
      LowOfVal(x[1..]);
      assert x == [x[0]] + x[1..];
    }
  }

  /** A number that is read was sent. */
  lemma {:induction false} Peeked(s: seq<bool>, pos: nat, n: nat)
    requires pos + n <= |s|
    ensures Starts(s, pos, Low(Peek(s, pos, n), n))
  {
    hide Low, Val;
    LowOfVal(s[pos..pos + n]);
  }

  lemma {:induction false} Joined(s: seq<bool>, pos: nat, a: seq<bool>, b: seq<bool>)
    requires Starts(s, pos, a) && Starts(s, pos + |a|, b)
    ensures Starts(s, pos, a + b)
  {
    assert s[pos..pos + |a| + |b|] == s[pos..pos + |a|] + s[pos + |a|..pos + |a| + |b|];
  }

  /** And so was a symbol. */
  lemma {:induction false} Spelt(b: seq<nat>, s: seq<bool>, pos: nat)
    requires Symbol(b, s, pos).Sym?
    ensures var i := Symbol(b, s, pos).i; Can(b, i) && Starts(s, pos, WordOf(b, i))
  {
    hide WordOf;
  }

  // ----- stored blocks -----

  lemma {:induction false} BytesSent(s: seq<bool>, pos: nat, n: nat)
    requires pos + 8 * n <= |s|
    ensures Starts(s, pos, BitsOf(Bytes(s, pos, n)))
  {
    hide Low, Peek;
    if n > 0 {
      BytesSent(s, pos, n - 1);
      var d, v := Bytes(s, pos, n - 1), Peek(s, pos + 8 * (n - 1), 8);
      Peeked(s, pos + 8 * (n - 1), 8);
      Joined(s, pos, BitsOf(d), Low(v, 8));
      assert Pow2(8) == 256;
      assert (d + [v])[..n - 1] == d;
    }
  }

  lemma {:induction false} StoredSent(s: seq<bool>, pos: nat, out: seq<byte>) returns (c: Chunk)
    requires pos >= 2 && Stored(s, pos, out).Done? && Starts(s, pos - 2, Low(0, 2))
    ensures c.Fits(pos - 2, out) && Starts(s, pos - 2, c.Sent(pos - 2, out))
    ensures Stored(s, pos, out) == Done(c.Output(pos - 2, out), pos - 2 + |c.Sent(pos - 2, out)|)
  {
    hide Low, Peek, BitsOf, Bytes;
    var p := (pos + 7) / 8 * 8;
    var n := Peek(s, p, 16);
    var pad, d := s[pos..p], Bytes(s, p + 32, n);
    Peeked(s, p, 16);
    Peeked(s, p + 16, 16);
    BytesSent(s, p + 32, n);
    assert Pow2(16) == 65536 by { assert Pow2(8) == 256; }
    Joined(s, p, Low(n, 16), Low(65535 - n, 16));
    Joined(s, p, Low(n, 16) + Low(65535 - n, 16), BitsOf(d));
    Joined(s, pos, pad, StoredBits(d));
    Joined(s, pos - 2, Low(0, 2), pad + StoredBits(d));
    c := Raw(pad, d);
  }

  // ----- literals and matches -----

  /** Token t is at pos, and ends at end. */
  ghost predicate Says(ll: seq<nat>, dl: seq<nat>, s: seq<bool>, pos: nat, t: Token, n: nat, end: nat)
  {
    TokenOK(ll, dl, t, n) && Starts(s, pos, TokenBits(ll, dl, t)) && end == pos + |TokenBits(ll, dl, t)|
  }

  lemma {:induction false} MatchSent(ll: seq<nat>, dl: seq<nat>, s: seq<bool>, pos: nat, i: nat, m: Match, n: nat)
    requires |ll| <= MAX_LIT && |dl| <= MAX_DIST && Symbol(ll, s, pos) == Sym(i) && 256 < i < |ll|
    requires m == ReadMatch(dl, i, s, pos + ll[i]) && m.Match? && m.dist <= n && !Unlisted(i, m.len)
    ensures Says(ll, dl, s, pos, Ref(m.len, m.dist), n, m.pos)
  {
    hide WordOf, Symbol, Peek, Low, LenChoice, DistChoice, LenBase, LenExtra, ReadDist;
    Spelt(ll, s, pos);
    var p, x := pos + ll[i], LenExtra(i - 257);
    LongCodes(i - 257);
    Peeked(s, p, x);
    LenInverse(i - 257, Peek(s, p, x));
    var l := LenChoice(m.len);
    DistSent(dl, s, p + x);
    var d := DistChoice(m.dist);
    Joined(s, p, Extra(l), WordOf(dl, d.sym) + Extra(d));
    Joined(s, pos, WordOf(ll, i), Extra(l) + (WordOf(dl, d.sym) + Extra(d)));
    assert TokenOK(ll, dl, Ref(m.len, m.dist), n);
  }

  lemma {:induction false} LongCodes(k: nat)
    requires k < 31
    ensures k >= 29 <==> LenExtra(k) == 99
  {
  }

  lemma {:induction false} DistSent(dl: seq<nat>, s: seq<bool>, pos: nat)
    requires |dl| <= MAX_DIST && ReadDist(dl, s, pos).Dist?
    ensures var r := ReadDist(dl, s, pos); var d := DistChoice(r.dist);
      Can(dl, d.sym) && Starts(s, pos, WordOf(dl, d.sym) + Extra(d)) && r.pos == pos + dl[d.sym] + d.bits
  {
    hide WordOf, Symbol, Peek, Low, DistChoice, DistBase, DistExtra;
    var i := Symbol(dl, s, pos).i;
    Spelt(dl, s, pos);
    var p, x := pos + dl[i], DistExtra(i);
    Peeked(s, p, x);
    DistInverse(i, Peek(s, p, x));
    Joined(s, pos, WordOf(dl, i), Low(Peek(s, p, x), x));
  }

  /** What holds of the tokens of a body. */
  ghost predicate Carries(ll: seq<nat>, dl: seq<nat>, s: seq<bool>, pos: nat, out: seq<byte>, ts: seq<Token>,
                          r: Outcome)
  {
    && Can(ll, 256) && TokensOK(ll, dl, ts, out) && Starts(s, pos, BodyBits(ll, dl, ts, out))
    && r == Done(ReplayAll(ll, dl, out, ts), pos + |BodyBits(ll, dl, ts, out)|)
  }

  lemma {:induction false} CarriesMore(ll: seq<nat>, dl: seq<nat>, s: seq<bool>, pos: nat, out: seq<byte>, t: Token,
                                       end: nat, ts: seq<Token>, r: Outcome)
    requires Says(ll, dl, s, pos, t, |out|, end) && Carries(ll, dl, s, end, Replay(out, t), ts, r)
    ensures Carries(ll, dl, s, pos, out, [t] + ts, r)
  {
    hide TokenBits, Can, Repeated, WordOf;
    assert ([t] + ts)[1..] == ts;
    Joined(s, pos, TokenBits(ll, dl, t), BodyBits(ll, dl, ts, Replay(out, t)));
  }

  /** A body that is decoded was sent. */
  lemma {:induction false} BodySent(ll: seq<nat>, dl: seq<nat>, s: seq<bool>, pos: nat, out: seq<byte>)
    returns (ts: seq<Token>)
    requires |ll| <= MAX_LIT && |dl| <= MAX_DIST && Body(false, ll, dl, s, pos, out).Done?
    ensures Carries(ll, dl, s, pos, out, ts, Body(false, ll, dl, s, pos, out))
    decreases |s| - pos
  {
    hide WordOf, Symbol, ReadMatch, Carries, Says, Copy, Repeated, Can, Unlisted;
    var i := Symbol(ll, s, pos).i;
    var r := Body(false, ll, dl, s, pos, out);
    Spelt(ll, s, pos);
    if i == 256 {
      ts := [];
      CarriesNone(ll, dl, s, pos, out);
    } else if i < 256 {
      ts := BodySent(ll, dl, s, pos + ll[i], out + [i]);
      LitSent(ll, dl, s, pos, i, |out|);
      CarriesMore(ll, dl, s, pos, out, Lit(i), pos + ll[i], ts, r);
      ts := [Lit(i)] + ts;
    } else {
      var m := ReadMatch(dl, i, s, pos + ll[i]);
      MatchSent(ll, dl, s, pos, i, m, |out|);
      CopyRepeats(out, m.dist, m.len, 0);
      CopyNone(out, m.dist);
      ts := BodySent(ll, dl, s, m.pos, Copy(out, m.dist, m.len));
      CarriesMore(ll, dl, s, pos, out, Ref(m.len, m.dist), m.pos, ts, r);
      ts := [Ref(m.len, m.dist)] + ts;
    }
  }

  lemma {:induction false} CarriesNone(ll: seq<nat>, dl: seq<nat>, s: seq<bool>, pos: nat, out: seq<byte>)
    requires Can(ll, 256) && Starts(s, pos, WordOf(ll, 256))
    ensures Carries(ll, dl, s, pos, out, [], Done(out, pos + ll[256]))
  {
    hide WordOf;
  }

  lemma {:induction false} LitSent(ll: seq<nat>, dl: seq<nat>, s: seq<bool>, pos: nat, i: nat, n: nat)
    requires i < 256 && Can(ll, i) && Starts(s, pos, WordOf(ll, i))
    ensures Says(ll, dl, s, pos, Lit(i), n, pos + ll[i])
  {
    hide WordOf;
    assert TokenOK(ll, dl, Lit(i), n);
  }

  // ----- the codes of a dynamic block -----

  lemma {:induction false} TriplesSent(s: seq<bool>, pos: nat, n: nat) returns (v: seq<nat>)
    requires pos + 3 * n <= |s|
    ensures |v| == n && (forall k :: 0 <= k < n ==> v[k] < 8) && Starts(s, pos, Triples(v))
  {
    hide Low, Peek;
    if n == 0 {
      v := [];
    } else {
      v := TriplesSent(s, pos, n - 1);
      var x := Peek(s, pos + 3 * (n - 1), 3);
      assert Pow2(3) == 8;
      Peeked(s, pos + 3 * (n - 1), 3);
      Joined(s, pos, Triples(v), Low(x, 3));
      assert (v + [x])[..n - 1] == v;
      v := v + [x];
    }
  }

  /** What holds of the items of code lengths. */
  ghost predicate Lists(cl: seq<nat>, s: seq<bool>, pos: nat, acc: seq<nat>, items: seq<Item>, r: Lens)
  {
    && |cl| == 19 && Usable(cl, items) && Starts(s, pos, Coded(cl, items))
    && r == Lens(Expand(acc, items), pos + |Coded(cl, items)|)
  }

  lemma {:induction false} ListsMore(cl: seq<nat>, s: seq<bool>, pos: nat, acc: seq<nat>, item: Item, items: seq<Item>,
                                     r: Lens)
    requires |cl| == 19 && Can(cl, item.sym) && item.extra < Pow2(ExtraBits(item.sym))
    requires var w, x := WordOf(cl, item.sym), ExtraBits(item.sym);
      && Starts(s, pos, w) && Starts(s, pos + |w|, Low(item.extra, x))
      && Lists(cl, s, pos + |w| + x, acc + Meant(acc, item), items, r)
    ensures Lists(cl, s, pos, acc, [item] + items, r)
  {
    hide WordOf, Low, Meant, Pow2;
    var w, x := WordOf(cl, item.sym), ExtraBits(item.sym);
    assert ([item] + items)[1..] == items;
    assert Usable(cl, [item] + items);
    Joined(s, pos, w, Low(item.extra, x));
    Joined(s, pos, w + Low(item.extra, x), Coded(cl, items));
  }

  /** One symbol of the code lengths. */
  lemma {:induction false} ItemSent(cl: seq<nat>, n: nat, s: seq<bool>, pos: nat, acc: seq<nat>) returns (item: Item)
    requires |cl| == 19 && |acc| < n && Lengths(false, cl, n, s, pos, acc).Lens?
    ensures Can(cl, item.sym) && item.extra < Pow2(ExtraBits(item.sym)) && (acc == [] ==> item.sym != 16)
    ensures var w, x := WordOf(cl, item.sym), ExtraBits(item.sym);
      && Starts(s, pos, w) && Starts(s, pos + |w|, Low(item.extra, x)) && |acc| < |acc + Meant(acc, item)| <= n
      && Lengths(false, cl, n, s, pos, acc) == Lengths(false, cl, n, s, pos + |w| + x, acc + Meant(acc, item))
  {
    hide WordOf, Symbol, Peek, Low, Repeat, Pow2;
    var i := Symbol(cl, s, pos).i;
    Spelt(cl, s, pos);
    var p, x := pos + cl[i], ExtraBits(i);
    item := Item(i, Peek(s, p, x));
    Peeked(s, p, x);
    if i >= 16 { MeantSize(acc, item); } else { NoExtra(s, p); }
  }

  lemma {:induction false} NoExtra(s: seq<bool>, p: nat)
    requires p <= |s|
    ensures Peek(s, p, 0) == 0
  {
    assert s[p..p] == [];
  }

  /** Code lengths that are read were sent. */
  lemma {:induction false} LengthsSent(cl: seq<nat>, n: nat, s: seq<bool>, pos: nat, acc: seq<nat>)
    returns (items: seq<Item>)
    requires |cl| == 19 && |acc| <= n && pos <= |s| && Lengths(false, cl, n, s, pos, acc).Lens?
    ensures Lists(cl, s, pos, acc, items, Lengths(false, cl, n, s, pos, acc))
    ensures |acc| < n ==> items != [] && (acc == [] ==> items[0].sym != 16)
    decreases n - |acc|
  {
    hide WordOf, Low, Meant, Pow2, Lists, Lengths;
    if |acc| == n {
      items := [];
      ListsNone(cl, s, pos, acc);
    } else {
      var item := ItemSent(cl, n, s, pos, acc);
      var p := pos + |WordOf(cl, item.sym)| + ExtraBits(item.sym);
      items := LengthsSent(cl, n, s, p, acc + Meant(acc, item));
      ListsMore(cl, s, pos, acc, item, items, Lengths(false, cl, n, s, pos, acc));
      items := [item] + items;
    }
  }

  lemma {:induction false} ListsNone(cl: seq<nat>, s: seq<bool>, pos: nat, acc: seq<nat>)
    requires |cl| == 19 && pos <= |s|
    ensures Lists(cl, s, pos, acc, [], Lengths(false, cl, |acc|, s, pos, acc))
  {
  }

  /** Codes that are read were sent, if the end of the block is among them. */
  lemma {:induction false} HeaderSent(s: seq<bool>, pos: nat) returns (h: Head)
    requires DynamicHeader(false, s, pos).Header? && Can(DynamicHeader(false, s, pos).ll, 256)
    ensures h.Wf() && Starts(s, pos, h.Bits())
    ensures DynamicHeader(false, s, pos) == Header(h.Lits(), h.Dists(), pos + |h.Bits()|)
  {
    hide WordOf, Low, Peek, CodeLens, Lengths, Expand, Coded, Triples, CompleteLengths, Accepted, Spread, Can, MaxLen,
      Oversubscribed;
    assert Pow2(4) == 16;
    var nl, nd, nb := 257 + Peek(s, pos, 5), 1 + Peek(s, pos + 5, 5), 4 + Peek(s, pos + 10, 4);
    var v := TriplesSent(s, pos + 14, nb);
    CodeLensBack(s, pos + 14, v, nb);
    var p, cl := pos + 14 + 3 * nb, Spread(v, nb);
    var items := LengthsSent(cl, nl + nd, s, p, []);
    h := Head(nl, nd, v, items);
    Peeked(s, pos, 5);
    Peeked(s, pos + 5, 5);
    Peeked(s, pos + 10, 4);
    FiveParts(s, pos, Low(nl - 257, 5), Low(nd - 1, 5), Low(nb - 4, 4), Triples(v), Coded(cl, items));
  }

  lemma {:induction false} FiveParts(s: seq<bool>, pos: nat, a: seq<bool>, b: seq<bool>, c: seq<bool>, d: seq<bool>,
                                     e: seq<bool>)
    requires Starts(s, pos, a) && Starts(s, pos + |a|, b) && Starts(s, pos + |a| + |b|, c)
    requires Starts(s, pos + |a| + |b| + |c|, d) && Starts(s, pos + |a| + |b| + |c| + |d|, e)
    ensures Starts(s, pos, a + (b + (c + (d + e)))) && |a + (b + (c + (d + e)))| == |a| + |b| + |c| + |d| + |e|
  {
    hide Starts;
    Joined(s, pos + |a| + |b| + |c|, d, e);
    Joined(s, pos + |a| + |b|, c, d + e);
    Joined(s, pos + |a|, b, c + (d + e));
    Joined(s, pos, a, b + (c + (d + e)));
  }

  // ----- blocks and streams -----

  /** What holds of the chunk of a block. */
  ghost predicate Holds(s: seq<bool>, pos: nat, out: seq<byte>, c: Chunk, r: Outcome)
  {
    c.Fits(pos, out) && Starts(s, pos, c.Sent(pos, out)) && r == Done(c.Output(pos, out), pos + |c.Sent(pos, out)|)
  }

  lemma {:induction false} FixedSent(s: seq<bool>, pos: nat, out: seq<byte>) returns (c: Chunk)
    requires Body(false, FixedLit(), FixedDist(), s, pos + 2, out).Done? && Starts(s, pos, Low(1, 2))
    ensures Holds(s, pos, out, c, Body(false, FixedLit(), FixedDist(), s, pos + 2, out))
  {
    hide Body, BodyBits, Low, FixedLit, FixedDist;
    FixedEnd();
    var ts := BodySent(FixedLit(), FixedDist(), s, pos + 2, out);
    Joined(s, pos, Low(1, 2), BodyBits(FixedLit(), FixedDist(), ts, out));
    c := Fixed(ts);
  }

  lemma {:induction false} CodingSent(s: seq<bool>, pos: nat, out: seq<byte>) returns (c: Chunk)
    requires Dynamic(false, s, pos + 2, out).Done? && Starts(s, pos, Low(2, 2))
    ensures Holds(s, pos, out, c, Dynamic(false, s, pos + 2, out))
  {
    hide Body, BodyBits, Low, Dynamic, DynamicHeader, Head.Bits, Can, TokensOK, ReplayAll, FixedLit, FixedDist, BitsOf,
      Usable, Expand, CompleteLengths, Accepted;
    DynamicIs(false, s, pos + 2, out);
    var d := DynamicHeader(false, s, pos + 2);
    var ts := BodySent(d.ll, d.dl, s, d.pos, out);
    var h := HeaderSent(s, pos + 2);
    Joined(s, pos + 2, h.Bits(), BodyBits(d.ll, d.dl, ts, out));
    Joined(s, pos, Low(2, 2), h.Bits() + BodyBits(d.ll, d.dl, ts, out));
    c := Coding(h, ts);
  }

  /** A block that is decoded was sent. */
  lemma {:induction false} BlockSent(s: seq<bool>, pos: nat, out: seq<byte>) returns (c: Chunk)
    requires Block(false, s, pos, out).Done?
    ensures Holds(s, pos, out, c, Block(false, s, pos, out))
  {
    hide Body, Dynamic, Stored, Low, Peek, FixedLit, FixedDist;
    Peeked(s, pos, 2);
    var t := Peek(s, pos, 2);
    if t == 2 {
      c := CodingSent(s, pos, out);
    } else if t == 0 {
      c := StoredSent(s, pos + 2, out);
    } else {
      c := FixedSent(s, pos, out);
    }
  }

  /** Every stream that the strict decoder decodes is that of some blocks, which give the same output. */
  lemma {:induction false} StreamSent(s: seq<bool>, pos: nat, out: seq<byte>) returns (cs: seq<Chunk>)
    requires Inflated(false, s, pos, out).Done?
    ensures cs != [] && SendAll(cs, pos, out).Sending? && Starts(s, pos, SendAll(cs, pos, out).bits)
    ensures Inflated(false, s, pos, out) == Done(SendAll(cs, pos, out).out, pos + |SendAll(cs, pos, out).bits|)
    decreases |s| - pos
  {
    hide Block, Peek, Low, Chunk.Sent, Chunk.Output, Chunk.Fits;
    var c := BlockSent(s, pos + 1, out);
    var t, next := c.Sent(pos + 1, out), c.Output(pos + 1, out);
    var last := Peek(s, pos, 1) == 1;
    BitSent(s, pos);
    if last {
      cs := [c];
      SendOne(c, pos, out);
      Joined(s, pos, [true], t);
    } else {
      var rest := StreamSent(s, pos + 1 + |t|, next);
      cs := [c] + rest;
      assert cs[1..] == rest;
      var bits := SendAll(rest, pos + 1 + |t|, next).bits;
      Joined(s, pos + 1, t, bits);
      Joined(s, pos, [false], t + bits);
    }
  }

  lemma {:induction false} BitSent(s: seq<bool>, pos: nat)
    requires pos < |s|
    ensures Starts(s, pos, [Peek(s, pos, 1) == 1])
  {
    assert s[pos..pos + 1] == [s[pos]];
    PeekBit(s, pos, s[pos]);
  }

  lemma {:induction false} SendOne(c: Chunk, pos: nat, out: seq<byte>)
    requires c.Fits(pos + 1, out)
    ensures SendAll([c], pos, out) == Sending([true] + c.Sent(pos + 1, out), c.Output(pos + 1, out))
  {
    hide Chunk.Fits, Chunk.Sent, Chunk.Output;
    var t := c.Sent(pos + 1, out);
    assert [c][1..] == [] && t + [] == t;
    assert SendAll([], pos + 1 + |t|, c.Output(pos + 1, out)) == Sending([], c.Output(pos + 1, out));
  }

  /** The strict decoder answers r, at end, if and only if some blocks sent from there give r and end there. */
  lemma {:induction false} DecodedIff(s: seq<bool>, pos: nat, out: seq<byte>, r: seq<byte>, end: nat)
    ensures Inflated(false, s, pos, out) == Done(r, end) <==>
            exists cs: seq<Chunk> :: cs != [] && SendAll(cs, pos, out).Sending? && SendAll(cs, pos, out).out == r &&
              end == pos + |SendAll(cs, pos, out).bits| && Starts(s, pos, SendAll(cs, pos, out).bits)
  {
    hide Inflated, SendAll;
    if Inflated(false, s, pos, out) == Done(r, end) {
      var cs := StreamSent(s, pos, out);
    }
    forall cs: seq<Chunk> | cs != [] && SendAll(cs, pos, out).Sending? && Starts(s, pos, SendAll(cs, pos, out).bits)
      ensures Inflated(false, s, pos, out) ==
              Done(SendAll(cs, pos, out).out, pos + |SendAll(cs, pos, out).bits|)
    {
      StreamBack(false, cs, s, pos, out);
    }
  }
}
