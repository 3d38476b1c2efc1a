/** An encoder of deflate streams after RFC 1951, and that the reference decoder gives back what was
    encoded: stored, fixed and dynamic blocks, in any number and order, at any position. */
module DeflateBack {
  import opened Bits
  import opened Canonical
  import opened CodeSet
  import opened HuftSites
  import opened Deflate
  import opened DeflateLengths
  import opened DeflateStrict
  import opened DeflateSymbols

  // ----- bits at a position -----

  predicate Starts(s: seq<bool>, pos: nat, t: seq<bool>)
  {
    pos + |t| <= |s| && s[pos..pos + |t|] == t
  }

  lemma {:induction false} StartsApart(s: seq<bool>, pos: nat, a: seq<bool>, b: seq<bool>)
    requires Starts(s, pos, a + b)
    ensures Starts(s, pos, a) && Starts(s, pos + |a|, b)
  {
    var t := a + b;
    Within(s, pos, t, 0, |a|);
    Within(s, pos, t, |a|, |t|);
  }

  lemma {:induction false} PeekStarts(s: seq<bool>, pos: nat, v: nat, n: nat)
    requires Starts(s, pos, Low(v, n)) && v < Pow2(n)
    ensures Peek(s, pos, n) == v
  {
    PeekLow(s, pos, n, v);
  }

  lemma {:induction false} SymbolStarts(b: seq<nat>, s: seq<bool>, pos: nat, i: nat)
    requires MaxLen(b) > 0 && !Oversubscribed(b) && i < |b| && 1 <= b[i] <= BMAX && Starts(s, pos, WordOf(b, i))
    ensures Symbol(b, s, pos) == Sym(i)
  {
    hide MaxLen, Oversubscribed, WordOf;
    SymbolIs(b, s, pos, i);
  }

  // ----- stored blocks -----

  /** Bytes are read back. */
  lemma {:induction false} BytesBack(s: seq<bool>, pos: nat, d: seq<byte>, n: nat)
    requires Starts(s, pos, BitsOf(d)) && n <= |d|
    ensures pos + 8 * n <= |s| && Bytes(s, pos, n) == d[..n]
  {
    hide Low, Peek;
    if n > 0 {
      BytesBack(s, pos, d, n - 1);
      ByteBits(d, n - 1);
      Within(s, pos, BitsOf(d), 8 * (n - 1), 8 * n);
      assert Pow2(8) == 256;
      PeekLow(s, pos + 8 * (n - 1), 8, d[n - 1]);
    }
  }

  /** The length of the data, its complement, and the data. */
  function StoredBits(d: seq<byte>): seq<bool>
    requires |d| < 65536
  {
    Low(|d|, 16) + Low(65535 - |d|, 16) + BitsOf(d)
  }

  /** A stored block at any position: padding of any bits up to a byte boundary comes first. */
  lemma {:induction false} StoredBack(s: seq<bool>, pos: nat, pad: seq<bool>, d: seq<byte>, out: seq<byte>)
    requires |d| < 65536 && |pad| < 8 && (pos + |pad|) % 8 == 0 && Starts(s, pos, pad + StoredBits(d))
    ensures Stored(s, pos, out) == Done(out + d, pos + |pad| + 32 + 8 * |d|)
  {
    hide Low, Peek, BitsOf, Bytes;
    var n, p := |d|, pos + |pad|;
    StartsApart(s, pos, pad, StoredBits(d));
    StartsApart(s, p, Low(n, 16) + Low(65535 - n, 16), BitsOf(d));
    StartsApart(s, p, Low(n, 16), Low(65535 - n, 16));
    assert Pow2(16) == 65536 by { assert Pow2(8) == 256; }
    PeekStarts(s, p, n, 16);
    PeekStarts(s, p + 16, 65535 - n, 16);
    BytesBack(s, p + 32, d, n);
    assert d[..n] == d;
  }

  // ----- literals and matches -----

  datatype Token = Lit(b: byte) | Ref(len: nat, dist: nat)

  /** len bytes, each as the one dist before it. */
  function Repeated(out: seq<byte>, dist: nat, len: nat): (r: seq<byte>)
    requires 1 <= dist <= |out|
    ensures |r| == |out| + len
    decreases len
  {
    if len == 0 then out else Repeated(out + [out[|out| - dist]], dist, len - 1)
  }

  lemma {:induction false} CopyRepeats(out: seq<byte>, dist: nat, len: nat, m: nat)
    requires 1 <= dist <= |out|
    ensures Repeated(Copy(out, dist, m), dist, len) == Copy(out, dist, m + len)
    decreases len
  {
    if len > 0 {
      var r := Copy(out, dist, m);
      assert Copy(out, dist, m + 1) == r + [r[|r| - dist]];
      CopyRepeats(out, dist, len - 1, m + 1);
    }
  }

  /** Symbol i has a code word. */
  predicate Can(b: seq<nat>, i: nat)
  {
    i < |b| && 1 <= b[i] <= BMAX
  }

  predicate TokenOK(ll: seq<nat>, dl: seq<nat>, t: Token, n: nat)
  {
    match t
    case Lit(b) => Can(ll, b)
    case Ref(len, dist) =>
      3 <= len <= 258 && 1 <= dist <= 32768 && dist <= n && Can(ll, LenChoice(len).sym) && Can(dl, DistChoice(dist).sym)
  }

  function Replay(out: seq<byte>, t: Token): seq<byte>
    requires t.Ref? ==> 1 <= t.dist <= |out|
  {
    match t
    case Lit(b) => out + [b]
    case Ref(len, dist) => Repeated(out, dist, len)
  }

  function Extra(c: Choice): seq<bool>
  {
    Low(c.extra, c.bits)
  }

  function TokenBits(ll: seq<nat>, dl: seq<nat>, t: Token): seq<bool>
    requires exists n :: TokenOK(ll, dl, t, n)
  {
    match t
    case Lit(b) => WordOf(ll, b)
    case Ref(len, dist) =>
      var l, d := LenChoice(len), DistChoice(dist);
      WordOf(ll, l.sym) + (Extra(l) + (WordOf(dl, d.sym) + Extra(d)))
  }

  predicate TokensOK(ll: seq<nat>, dl: seq<nat>, ts: seq<Token>, out: seq<byte>)
    decreases |ts|
  {
    ts == [] || (TokenOK(ll, dl, ts[0], |out|) && TokensOK(ll, dl, ts[1..], Replay(out, ts[0])))
  }

  function ReplayAll(ll: seq<nat>, dl: seq<nat>, out: seq<byte>, ts: seq<Token>): seq<byte>
    requires TokensOK(ll, dl, ts, out)
    decreases |ts|
  {
    if ts == [] then out else ReplayAll(ll, dl, Replay(out, ts[0]), ts[1..])
  }

  /** The tokens, and the end of the block. */
  function BodyBits(ll: seq<nat>, dl: seq<nat>, ts: seq<Token>, out: seq<byte>): seq<bool>
    requires TokensOK(ll, dl, ts, out) && Can(ll, 256)
    decreases |ts|
  {
    if ts == [] then WordOf(ll, 256)
    else TokenBits(ll, dl, ts[0]) + BodyBits(ll, dl, ts[1..], Replay(out, ts[0]))
  }

  lemma {:induction false} CanMax(b: seq<nat>, i: nat)
    requires Can(b, i)
    ensures MaxLen(b) > 0
  {
    hide Count;
    CountHas(b, i);
    assert Counts(b)[b[i]] > 0;
  }

  lemma {:induction false} CountHas(b: seq<nat>, i: nat)
    requires i < |b|
    ensures Count(b, b[i]) > 0
  {
    if i < |b| - 1 { CountHas(b[..|b| - 1], i); }
  }

  lemma {:induction false} DistBack(dl: seq<nat>, s: seq<bool>, pos: nat, dist: nat)
    requires 1 <= dist <= 32768 && Can(dl, DistChoice(dist).sym) && |dl| <= MAX_DIST && !Oversubscribed(dl)
    requires var d := DistChoice(dist); Starts(s, pos, WordOf(dl, d.sym) + Extra(d))
    ensures var d := DistChoice(dist); ReadDist(dl, s, pos) == Dist(dist, pos + dl[d.sym] + d.bits)
  {
    hide WordOf, Symbol, Peek, Low, DistChoice, DistBase, DistExtra, MaxLen, Oversubscribed;
    var d := DistChoice(dist);
    var v := WordOf(dl, d.sym);
    DistChosen(dist);
    CanMax(dl, d.sym);
    StartsApart(s, pos, v, Extra(d));
    SymbolStarts(dl, s, pos, d.sym);
    PeekStarts(s, pos + |v|, d.extra, d.bits);
  }

  /** A length and a distance are read back. */
  lemma {:induction false} RefBack(ll: seq<nat>, dl: seq<nat>, s: seq<bool>, pos: nat, t: Token, n: nat)
    requires TokenOK(ll, dl, t, n) && t.Ref? && Starts(s, pos, TokenBits(ll, dl, t))
    requires |dl| <= MAX_DIST && !Oversubscribed(ll) && !Oversubscribed(dl)
    ensures var c := LenChoice(t.len);
      && 257 <= c.sym < MAX_LIT && !Unlisted(c.sym, t.len) && Symbol(ll, s, pos) == Sym(c.sym)
      && ReadMatch(dl, c.sym, s, pos + ll[c.sym]) == Match(t.len, t.dist, pos + |TokenBits(ll, dl, t)|)
  {
    hide WordOf, Symbol, Peek, Low, LenChoice, DistChoice, LenBase, LenExtra, ReadDist, ReadMatch, MaxLen,
      Oversubscribed, Unlisted;
    var l, d := LenChoice(t.len), DistChoice(t.dist);
    var w, v := WordOf(ll, l.sym), WordOf(dl, d.sym);
    LenChosen(t.len);
    CanMax(ll, l.sym);
    StartsApart(s, pos, w, Extra(l) + (v + Extra(d)));
    StartsApart(s, pos + |w|, Extra(l), v + Extra(d));
    SymbolStarts(ll, s, pos, l.sym);
    PeekStarts(s, pos + |w|, l.extra, l.bits);
    DistBack(dl, s, pos + |w| + l.bits, t.dist);
    MatchRead(dl, l, s, pos + |w|, t.len, Dist(t.dist, pos + |TokenBits(ll, dl, t)|));
  }

  lemma {:induction false} MatchRead(dl: seq<nat>, l: Choice, s: seq<bool>, pos: nat, len: nat, d: Dist)
    requires 257 <= l.sym < MAX_LIT && |dl| <= MAX_DIST && LenExtra(l.sym - 257) == l.bits != 99
    requires pos + l.bits <= |s| && Peek(s, pos, l.bits) == l.extra && LenBase(l.sym - 257) + l.extra == len
    requires ReadDist(dl, s, pos + l.bits) == d && d.Dist?
    ensures ReadMatch(dl, l.sym, s, pos) == Match(len, d.dist, d.pos)
  {
    hide LenBase, LenExtra, ReadDist, Peek;
  }

  lemma {:induction false} CopyNone(out: seq<byte>, dist: nat)
    requires dist >= 1
    ensures Copy(out, dist, 0) == out
  {
  }

  lemma {:induction false} LitBack(lax: bool, ll: seq<nat>, dl: seq<nat>, s: seq<bool>, pos: nat, t: Token,
                                   out: seq<byte>)
    requires |ll| <= MAX_LIT && |dl| <= MAX_DIST && !Oversubscribed(ll)
    requires TokenOK(ll, dl, t, |out|) && t.Lit? && Starts(s, pos, TokenBits(ll, dl, t))
    ensures Body(lax, ll, dl, s, pos, out) == Body(lax, ll, dl, s, pos + |TokenBits(ll, dl, t)|, out + [t.b])
  {
    hide WordOf, Symbol, Oversubscribed, ReadMatch;
    CanMax(ll, t.b);
    SymbolStarts(ll, s, pos, t.b);
  }

  lemma {:induction false} MatchBack(lax: bool, ll: seq<nat>, dl: seq<nat>, s: seq<bool>, pos: nat, t: Token,
                                     out: seq<byte>)
    requires |ll| <= MAX_LIT && |dl| <= MAX_DIST && !Oversubscribed(ll) && !Oversubscribed(dl)
    requires TokenOK(ll, dl, t, |out|) && t.Ref? && Starts(s, pos, TokenBits(ll, dl, t))
    ensures Body(lax, ll, dl, s, pos, out) ==
            Body(lax, ll, dl, s, pos + |TokenBits(ll, dl, t)|, Repeated(out, t.dist, t.len))
  {
    hide WordOf, Symbol, Oversubscribed, ReadMatch, TokenBits, Copy, Repeated, Can, Body, LenChoice, DistChoice;
    RefBack(ll, dl, s, pos, t, |out|);
    CopyRepeats(out, t.dist, t.len, 0);
    CopyNone(out, t.dist);
    BodyMatch(lax, ll, dl, s, pos, out, LenChoice(t.len).sym, Match(t.len, t.dist, pos + |TokenBits(ll, dl, t)|));
  }

  lemma {:induction false} BodyMatch(lax: bool, ll: seq<nat>, dl: seq<nat>, s: seq<bool>, pos: nat, out: seq<byte>,
                                     i: nat, m: Match)
    requires |ll| <= MAX_LIT && |dl| <= MAX_DIST && Symbol(ll, s, pos) == Sym(i) && i > 256
    requires m.Match? && m.dist >= 1 && ReadMatch(dl, i, s, pos + ll[i]) == m && m.dist <= |out| && !Unlisted(i, m.len)
    ensures Body(lax, ll, dl, s, pos, out) == Body(lax, ll, dl, s, m.pos, Copy(out, m.dist, m.len))
  {
    hide Symbol, ReadMatch, Copy, Unlisted;
  }

  lemma {:induction false} EndBack(lax: bool, ll: seq<nat>, dl: seq<nat>, s: seq<bool>, pos: nat, out: seq<byte>)
    requires |ll| <= MAX_LIT && |dl| <= MAX_DIST && !Oversubscribed(ll) && Can(ll, 256)
    requires Starts(s, pos, WordOf(ll, 256))
    ensures Body(lax, ll, dl, s, pos, out) == Done(out, pos + ll[256])
  {
    hide WordOf, Symbol, Oversubscribed, ReadMatch;
    CanMax(ll, 256);
    SymbolStarts(ll, s, pos, 256);
  }

  /** The body of a block is read back, strictly or laxly. */
  lemma {:induction false} BodyBack(lax: bool, ll: seq<nat>, dl: seq<nat>, s: seq<bool>, pos: nat, ts: seq<Token>,
                                    out: seq<byte>)
    requires |ll| <= MAX_LIT && |dl| <= MAX_DIST && !Oversubscribed(ll) && !Oversubscribed(dl) && Can(ll, 256)
    requires TokensOK(ll, dl, ts, out) && Starts(s, pos, BodyBits(ll, dl, ts, out))
    ensures Body(lax, ll, dl, s, pos, out) ==
            Done(ReplayAll(ll, dl, out, ts), pos + |BodyBits(ll, dl, ts, out)|)
    decreases |ts|
  {
    hide WordOf, Body, Oversubscribed, TokenBits, Can;
    if ts == [] {
      EndBack(lax, ll, dl, s, pos, out);
    } else {
      var t := ts[0];
      var bits, next := TokenBits(ll, dl, t), Replay(out, t);
      StartsApart(s, pos, bits, BodyBits(ll, dl, ts[1..], next));
      BodyBack(lax, ll, dl, s, pos + |bits|, ts[1..], next);
      match t
      case Lit(_) => LitBack(lax, ll, dl, s, pos, t, out);
      case Ref(_, _) => MatchBack(lax, ll, dl, s, pos, t, out);
    }
  }

  // ----- the codes of a dynamic block -----

  /** The numbers of literal and distance codes, the lengths of the code length code as they are sent, and
      the code lengths as items of that code. */
  datatype Head = Head(nl: nat, nd: nat, v: seq<nat>, items: seq<Item>) {
    predicate Wf()
    {
      && 257 <= nl <= 286 && 1 <= nd <= 30 && 4 <= |v| <= 19 && (forall k :: 0 <= k < |v| ==> v[k] < 8)
      && CompleteLengths(Meta()) && Usable(Meta(), items) && items != [] && items[0].sym != 16
      && |Expand([], items)| == nl + nd && CompleteLengths(Lits()) && Accepted(Dists()) && Can(Lits(), 256)
    }

    function Meta(): seq<nat>
      requires |v| <= 19
    {
      Spread(v, |v|)
    }

    function Lits(): seq<nat>
      requires |Expand([], items)| == nl + nd
    {
      Expand([], items)[..nl]
    }

    function Dists(): seq<nat>
      requires |Expand([], items)| == nl + nd
    {
      Expand([], items)[nl..]
    }

    function Bits(): seq<bool>
      requires Wf()
    {
      Low(nl - 257, 5) + (Low(nd - 1, 5) + (Low(|v| - 4, 4) + (Triples(v) + Coded(Meta(), items))))
    }
  }

  lemma {:induction false} CompleteFits(b: seq<nat>)
    requires CompleteLengths(b)
    ensures MaxLen(b) > 0 && !Oversubscribed(b) && Accepted(b)
  {
  }

  /** The parts of the codes. */
  lemma {:induction false} HeadParts(h: Head, s: seq<bool>, pos: nat)
    requires h.Wf() && Starts(s, pos, h.Bits())
    ensures |h.Bits()| == 14 + 3 * |h.v| + |Coded(h.Meta(), h.items)| && pos + 14 + 3 * |h.v| <= |s|
    ensures Peek(s, pos, 5) == h.nl - 257 && Peek(s, pos + 5, 5) == h.nd - 1 && Peek(s, pos + 10, 4) == |h.v| - 4
    ensures CodeLens(s, pos + 14, |h.v|) == h.Meta()
    ensures Starts(s, pos + 14 + 3 * |h.v|, Coded(h.Meta(), h.items))
  {
    hide Low, Peek, Triples, Coded, Expand, Spread, CompleteLengths, Accepted, CodeLens;
    var a, b, c := Low(h.nl - 257, 5), Low(h.nd - 1, 5), Low(|h.v| - 4, 4);
    var d, e := Triples(h.v), Coded(h.Meta(), h.items);
    StartsApart(s, pos, a, b + (c + (d + e)));
    StartsApart(s, pos + 5, b, c + (d + e));
    StartsApart(s, pos + 10, c, d + e);
    StartsApart(s, pos + 14, d, e);
    assert Pow2(5) == 32 && Pow2(4) == 16;
    PeekStarts(s, pos, h.nl - 257, 5);
    PeekStarts(s, pos + 5, h.nd - 1, 5);
    PeekStarts(s, pos + 10, |h.v| - 4, 4);
    CodeLensBack(s, pos + 14, h.v, |h.v|);
  }

  /** The codes are read back, strictly or laxly. */
  lemma {:induction false} HeadBack(lax: bool, h: Head, s: seq<bool>, pos: nat)
    requires h.Wf() && Starts(s, pos, h.Bits())
    ensures DynamicHeader(lax, s, pos) == Header(h.Lits(), h.Dists(), pos + |h.Bits()|)
  {
    hide Low, Peek, Triples, Expand, Spread, CompleteLengths, Accepted, CodeLens, Lengths, Symbol, MaxLen,
      Oversubscribed, WordOf, Coded;
    HeadParts(h, s, pos);
    CompleteFits(h.Meta());
    CompleteFits(h.Lits());
    var p, cl, n := pos + 14 + 3 * |h.v|, h.Meta(), h.nl + h.nd;
    LengthsBack(cl, n, s, p, h.items, []);
    CodedParts(cl, h.items, s, p);
    SymbolStarts(cl, s, p, h.items[0].sym);
    LengthsStrict(cl, n, s, p);
  }

  lemma {:induction false} AcceptedFits(b: seq<nat>)
    requires Accepted(b)
    ensures !Oversubscribed(b)
  {
  }

  // ----- blocks and streams -----

  datatype Chunk =
    | Raw(pad: seq<bool>, data: seq<byte>)
    | Fixed(ts: seq<Token>)
    | Coding(head: Head, ts: seq<Token>)
  {
    /** It can be sent at this position, with so much output before it. */
    predicate Fits(pos: nat, out: seq<byte>)
    {
      match this
      case Raw(pad, data) => |data| < 65536 && |pad| < 8 && (pos + 2 + |pad|) % 8 == 0
      case Fixed(ts) => TokensOK(FixedLit(), FixedDist(), ts, out)
      case Coding(head, ts) => head.Wf() && TokensOK(head.Lits(), head.Dists(), ts, out)
    }

    /** Its type and its contents. */
    function Sent(pos: nat, out: seq<byte>): seq<bool>
      requires Fits(pos, out)
    {
      match this
      case Raw(pad, data) => Low(0, 2) + (pad + StoredBits(data))
      case Fixed(ts) =>
        FixedEnd();
        Low(1, 2) + BodyBits(FixedLit(), FixedDist(), ts, out)
      case Coding(head, ts) => Low(2, 2) + (head.Bits() + BodyBits(head.Lits(), head.Dists(), ts, out))
    }

    /** The output after it. */
    function Output(pos: nat, out: seq<byte>): seq<byte>
      requires Fits(pos, out)
    {
      match this
      case Raw(_, data) => out + data
      case Fixed(ts) => ReplayAll(FixedLit(), FixedDist(), out, ts)
      case Coding(head, ts) => ReplayAll(head.Lits(), head.Dists(), out, ts)
    }
  }

  lemma {:induction false} FixedEnd()
    ensures Can(FixedLit(), 256) && |FixedLit()| == 288 && |FixedDist()| == 30
  {
  }

  lemma {:induction false} RawBack(lax: bool, c: Chunk, s: seq<bool>, pos: nat, out: seq<byte>)
    requires c.Raw? && c.Fits(pos, out) && Starts(s, pos, c.Sent(pos, out))
    ensures Block(lax, s, pos, out) == Done(c.Output(pos, out), pos + |c.Sent(pos, out)|)
  {
    hide Low, Peek, BitsOf, Stored, Body, Dynamic;
    assert Pow2(2) == 4;
    StartsApart(s, pos, Low(0, 2), c.pad + StoredBits(c.data));
    PeekStarts(s, pos, 0, 2);
    StoredBack(s, pos + 2, c.pad, c.data, out);
  }

  lemma {:induction false} FixedBack(lax: bool, c: Chunk, s: seq<bool>, pos: nat, out: seq<byte>)
    requires c.Fixed? && c.Fits(pos, out) && Starts(s, pos, c.Sent(pos, out))
    ensures Block(lax, s, pos, out) == Done(c.Output(pos, out), pos + |c.Sent(pos, out)|)
  {
    hide Low, Peek, Stored, Body, Dynamic, FixedLit, FixedDist, BodyBits, MaxLen, Oversubscribed, CompleteLengths;
    assert Pow2(2) == 4;
    FixedEnd();
    FixedLitComplete();
    FixedDistFits();
    StartsApart(s, pos, Low(1, 2), BodyBits(FixedLit(), FixedDist(), c.ts, out));
    PeekStarts(s, pos, 1, 2);
    BodyBack(lax, FixedLit(), FixedDist(), s, pos + 2, c.ts, out);
  }

  lemma {:induction false} CodingBack(lax: bool, c: Chunk, s: seq<bool>, pos: nat, out: seq<byte>)
    requires c.Coding? && c.Fits(pos, out) && Starts(s, pos, c.Sent(pos, out))
    ensures Block(lax, s, pos, out) == Done(c.Output(pos, out), pos + |c.Sent(pos, out)|)
  {
    hide Low, Peek, Stored, Body, Dynamic, BodyBits, Oversubscribed, CompleteLengths, Accepted, Expand, Head.Bits,
      TokensOK, ReplayAll, FixedLit, FixedDist, BitsOf, Usable, DynamicHeader;
    var h := c.head;
    var body := BodyBits(h.Lits(), h.Dists(), c.ts, out);
    assert Pow2(2) == 4;
    StartsApart(s, pos, Low(2, 2), h.Bits() + body);
    StartsApart(s, pos + 2, h.Bits(), body);
    PeekStarts(s, pos, 2, 2);
    CompleteFits(h.Lits());
    AcceptedFits(h.Dists());
    HeadBack(lax, h, s, pos + 2);
    BodyBack(lax, h.Lits(), h.Dists(), s, pos + 2 + |h.Bits()|, c.ts, out);
    DynamicIs(lax, s, pos + 2, out);
  }

  datatype Sending = NoFit | Sending(bits: seq<bool>, out: seq<byte>)

  /** A stream from this position: before each block a bit that tells whether it is the last. */
  function SendAll(cs: seq<Chunk>, pos: nat, out: seq<byte>): Sending
    decreases |cs|
  {
    if cs == [] then Sending([], out)
    else if !cs[0].Fits(pos + 1, out) then NoFit
    else
      var t := cs[0].Sent(pos + 1, out);
      match SendAll(cs[1..], pos + 1 + |t|, cs[0].Output(pos + 1, out))
      case NoFit => NoFit
      case Sending(bits, out') => Sending([|cs| == 1] + (t + bits), out')
  }

  lemma {:induction false} PeekBit(s: seq<bool>, pos: nat, bit: bool)
    requires Starts(s, pos, [bit])
    ensures Peek(s, pos, 1) == if bit then 1 else 0
  {
    assert s[pos..pos + 1] == [bit];
  }

  lemma {:induction false} ChunkBack(lax: bool, c: Chunk, s: seq<bool>, pos: nat, out: seq<byte>)
    requires c.Fits(pos, out) && Starts(s, pos, c.Sent(pos, out))
    ensures Block(lax, s, pos, out) == Done(c.Output(pos, out), pos + |c.Sent(pos, out)|)
  {
    hide Block, Chunk.Sent, Chunk.Output, Chunk.Fits;
    match c
    case Raw(_, _) => RawBack(lax, c, s, pos, out);
    case Fixed(_) => FixedBack(lax, c, s, pos, out);
    case Coding(_, _) => CodingBack(lax, c, s, pos, out);
  }

  /** Every stream of such blocks, from any position and after any output, is decoded to what was sent,
      by the strict decoder and by the lax one. */
  lemma {:induction false} StreamBack(lax: bool, cs: seq<Chunk>, s: seq<bool>, pos: nat, out: seq<byte>)
    requires cs != [] && SendAll(cs, pos, out).Sending? && Starts(s, pos, SendAll(cs, pos, out).bits)
    ensures Inflated(lax, s, pos, out) ==
            Done(SendAll(cs, pos, out).out, pos + |SendAll(cs, pos, out).bits|)
    decreases |cs|
  {
    hide Block, Peek, Chunk.Sent, Chunk.Output, Chunk.Fits;
    var t, next := cs[0].Sent(pos + 1, out), cs[0].Output(pos + 1, out);
    var rest := SendAll(cs[1..], pos + 1 + |t|, next).bits;
    StartsApart(s, pos, [|cs| == 1], t + rest);
    StartsApart(s, pos + 1, t, rest);
    PeekBit(s, pos, |cs| == 1);
    ChunkBack(lax, cs[0], s, pos + 1, out);
    if |cs| > 1 { StreamBack(lax, cs[1..], s, pos + 1 + |t|, next); }
  }

  // ----- bytes of a stored block -----

  lemma {:induction false} LowApart(v: nat, n: nat, m: nat)
    ensures Low(v, n + m) == Low(Mask(v, n), n) + Low(Shr(v, n), m)
    decreases n
  {
    if n > 0 { LowApart(v / 2, n - 1, m); }
  }

  /** A number of sixteen bits is two bytes, the lower first. */
  lemma {:induction false} TwoBytes(n: nat)
    requires n < 65536
    ensures Low(n, 16) == Low(n % 256, 8) + Low(n / 256, 8)
  {
    hide Low, Mask, Shr;
    assert Pow2(8) == 256;
    LowApart(n, 8, 8);
    ShrDiv(n, 8);
  }

  lemma {:induction false} BitsAppend(x: seq<byte>, y: seq<byte>)
    ensures BitsOf(x + y) == BitsOf(x) + BitsOf(y)
  {
    hide Low;
    if y == [] {
      assert x + y == x;
    } else {
      assert (x + y)[..|x + y| - 1] == x + y[..|y| - 1];
      BitsAppend(x, y[..|y| - 1]);
    }
  }

  lemma {:induction false} BitsOfOne(b: byte)
    ensures BitsOf([b]) == Low(b, 8)
  {
    hide Low;
    assert [b][..0] == [];
    assert BitsOf([]) == [];
  }

  /** One stored block as bytes: the last block, of type 0, the length and its complement, and the data. */
  function StoredBytes(d: seq<byte>): seq<byte>
    requires |d| < 65536
  {
    [1, |d| % 256, |d| / 256, 255 - |d| % 256, 255 - |d| / 256] + d
  }

  lemma {:induction false} StoredBytesBits(d: seq<byte>)
    requires |d| < 65536
    ensures BitsOf(StoredBytes(d)) == [true] + (Low(0, 2) + (Zeros(5) + StoredBits(d)))
  {
    hide Low, BitsOf;
    var n := |d|;
    var m := 65535 - n;
    var a: seq<byte>, b: seq<byte>, c: seq<byte> := [1], [n % 256, n / 256], [m % 256, m / 256];
    assert m % 256 == 255 - n % 256 && m / 256 == 255 - n / 256;
    assert StoredBytes(d) == a + (b + (c + d));
    BitsAppend(a, b + (c + d));
    BitsAppend(b, c + d);
    BitsAppend(c, d);
    TwoBytesBits(n);
    TwoBytesBits(m);
    FirstByte();
  }

  lemma {:induction false} TwoBytesBits(n: nat)
    requires n < 65536
    ensures BitsOf([n % 256, n / 256]) == Low(n, 16)
  {
    hide Low, BitsOf;
    BitsAppend([n % 256], [n / 256]);
    assert [n % 256] + [n / 256] == [n % 256, n / 256];
    BitsOfOne(n % 256);
    BitsOfOne(n / 256);
    TwoBytes(n);
  }

  lemma {:induction false} FirstByte()
    ensures BitsOf([1]) == [true] + (Low(0, 2) + Zeros(5))
  {
    BitsOfOne(1);
    assert Low(1, 8) == [true] + Low(0, 7);
    LowZeros(7);
    LowZeros(2);
  }

  lemma {:induction false} LowZeros(n: nat)
    ensures Low(0, n) == Zeros(n) && Zeros(n) == seq(n, _ => false)
  {
    if n > 0 { LowZeros(n - 1); }
  }

  /** Fewer than 65536 bytes as one stored block are decoded to those bytes. */
  lemma {:induction false} StoredBytesBack(lax: bool, d: seq<byte>)
    requires |d| < 65536
    ensures Inflated(lax, BitsOf(StoredBytes(d)), 0, []) == Done(d, 8 * (5 + |d|))
  {
    hide Low, BitsOf, StoredBits, Inflated;
    var c, s := Raw(Zeros(5), d), BitsOf(StoredBytes(d));
    StoredBytesBits(d);
    assert c.Fits(1, []) && c.Sent(1, []) == Low(0, 2) + (Zeros(5) + StoredBits(d)) && c.Output(1, []) == [] + d == d;
    OneChunk(c);
    assert s[0..0 + |s|] == s;
    StreamBack(lax, [c], s, 0, []);
  }

  lemma {:induction false} OneChunk(c: Chunk)
    requires c.Fits(1, [])
    ensures SendAll([c], 0, []) == Sending([true] + (c.Sent(1, []) + []), c.Output(1, []))
    ensures c.Sent(1, []) + [] == c.Sent(1, [])
  {
    hide Chunk.Fits, Chunk.Sent, Chunk.Output;
    assert [c][1..] == [];
    assert SendAll([], 1 + |c.Sent(1, [])|, c.Output(1, [])) == Sending([], c.Output(1, []));
  }
}
