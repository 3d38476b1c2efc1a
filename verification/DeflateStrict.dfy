/** Where kernel/boot/linux/inflate.c departs from RFC 1951: it does not look for distances that reach
    before the start of the output, repeats zero when there is no length to repeat, and takes code sets
    that are not complete and length 258 by a symbol that is not for it. The two agree on a stream exactly
    when it does none of this. */
module DeflateStrict {
  import opened Bits
  import opened Canonical
  import opened CodeSet
  import opened HuftDecode
  import opened HuftFill
  import opened HuftTable
  import opened HuftSymbols
  import opened HuftSites
  import opened Deflate

  /** Some match of the body has a distance greater than the output so far, or length 258 by the wrong
      symbol. */
  ghost predicate BodyDeparts(ll: seq<nat>, dl: seq<nat>, s: seq<bool>, pos: nat, out: seq<byte>)
    requires |ll| <= MAX_LIT && |dl| <= MAX_DIST
    decreases |s| - pos
  {
    match Symbol(ll, s, pos)
    case NoSym => false
    case Sym(i) =>
      var pos1 := pos + ll[i];
      if i < 256 then BodyDeparts(ll, dl, s, pos1, out + [i])
      else if i == 256 then false
      else
        match ReadMatch(dl, i, s, pos1)
        case NoMatch => false
        case Match(len, dist, pos2) =>
          dist > |out| || Unlisted(i, len) || BodyDeparts(ll, dl, s, pos2, Copy(out, dist, len))
  }

  /** Where the codes of a dynamic block begin, and its code lengths. */
  datatype Header = NoHeader | Header(ll: seq<nat>, dl: seq<nat>, pos: nat)

  ghost function HeaderLens(lax: bool, nl: nat, nd: nat, nb: nat, s: seq<bool>, pos: nat): (h: Header)
    requires nl <= MAX_LIT && nd <= MAX_DIST && nb <= 19
    ensures h.Header? ==> |h.ll| <= MAX_LIT && |h.dl| <= MAX_DIST
  {
    if pos + 3 * nb > |s| || !Allowed(lax, CodeLens(s, pos, nb)) then NoHeader else
    match Lengths(lax, CodeLens(s, pos, nb), nl + nd, s, pos + 3 * nb, [])
    case NoLens => NoHeader
    case Lens(b, pos2) =>
      if Allowed(lax, b[..nl]) && Accepted(b[nl..]) then Header(b[..nl], b[nl..], pos2) else NoHeader
  }

  ghost function DynamicHeader(lax: bool, s: seq<bool>, pos: nat): (h: Header)
    ensures h.Header? ==> |h.ll| <= MAX_LIT && |h.dl| <= MAX_DIST
  {
    if pos + 14 > |s| then NoHeader else
    var nl, nd, nb := 257 + Peek(s, pos, 5), 1 + Peek(s, pos + 5, 5), 4 + Peek(s, pos + 10, 4);
    assert Pow2(4) == 16;
    if nl > 286 || nd > 30 then NoHeader else HeaderLens(lax, nl, nd, nb, s, pos + 14)
  }

  /** The codes of the block at pos, after the bit that marks the last one. */
  ghost function CodesAt(lax: bool, s: seq<bool>, pos: nat): (h: Header)
    ensures h.Header? ==> |h.ll| <= MAX_LIT && |h.dl| <= MAX_DIST
  {
    if pos + 2 > |s| then NoHeader
    else if Peek(s, pos, 2) == 2 then DynamicHeader(lax, s, pos + 2)
    else if Peek(s, pos, 2) == 1 then Header(FixedLit(), FixedDist(), pos + 2)
    else NoHeader
  }

  /** The code lengths of the code length code of the dynamic block at pos, and where those it codes
      begin. */
  datatype Meta = NoMeta | Meta(cl: seq<nat>, pos: nat)

  function MetaAt(s: seq<bool>, pos: nat): (m: Meta)
    ensures m.Meta? ==> |m.cl| == 19
  {
    if pos + 16 > |s| || Peek(s, pos, 2) != 2 then NoMeta else
    var nb := 4 + Peek(s, pos + 12, 4);
    assert Pow2(4) == 16;
    if pos + 16 + 3 * nb > |s| then NoMeta else Meta(CodeLens(s, pos + 16, nb), pos + 16 + 3 * nb)
  }

  /** The block at pos is a dynamic one whose code length code or literal code is not complete, or
      whose code lengths begin with a repeat. */
  ghost predicate BlockLoose(s: seq<bool>, pos: nat)
  {
    match MetaAt(s, pos)
    case NoMeta => false
    case Meta(cl, pos2) =>
      || !CompleteLengths(cl) || Symbol(cl, s, pos2) == Sym(16)
      || match CodesAt(true, s, pos)
         case NoHeader => false
         case Header(ll, dl, _) => !CompleteLengths(ll)
  }

  /** The block at pos has such a match. */
  ghost predicate BlockDeparts(s: seq<bool>, pos: nat, out: seq<byte>)
  {
    match CodesAt(true, s, pos)
    case NoHeader => false
    case Header(ll, dl, pos2) => BodyDeparts(ll, dl, s, pos2, out)
  }

  /** Some block of the stream is of such a kind, or has such a match. */
  ghost predicate Departs(s: seq<bool>, pos: nat, out: seq<byte>)
    decreases |s| - pos
  {
    pos < |s| &&
    (BlockLoose(s, pos + 1) || BlockDeparts(s, pos + 1, out) ||
     match Block(true, s, pos + 1, out)
     case Corrupt => false
     case Done(out2, pos2) => Peek(s, pos, 1) != 1 && Departs(s, pos2, out2))
  }

  lemma {:induction false} BodyStrict(ll: seq<nat>, dl: seq<nat>, s: seq<bool>, pos: nat, out: seq<byte>)
    requires |ll| <= MAX_LIT && |dl| <= MAX_DIST
    ensures Body(false, ll, dl, s, pos, out) ==
            if BodyDeparts(ll, dl, s, pos, out) then Corrupt else Body(true, ll, dl, s, pos, out)
    decreases |s| - pos
  {
    hide Symbol, ReadMatch, Copy;
    match Symbol(ll, s, pos)
    case NoSym =>
    case Sym(i) =>
      var pos1 := pos + ll[i];
      if i < 256 {
        BodyStrict(ll, dl, s, pos1, out + [i]);
      } else if i > 256 {
        match ReadMatch(dl, i, s, pos1)
        case NoMatch =>
        case Match(len, dist, pos2) =>
          if dist <= |out| && !Unlisted(i, len) { BodyStrict(ll, dl, s, pos2, Copy(out, dist, len)); }
      }
  }

  /** Once there is a length to repeat, the two agree on code lengths. */
  lemma {:induction false} LengthsSame(cl: seq<nat>, n: nat, s: seq<bool>, pos: nat, acc: seq<nat>)
    requires |cl| == 19 && acc != []
    ensures Lengths(false, cl, n, s, pos, acc) == Lengths(true, cl, n, s, pos, acc)
    decreases if |acc| <= n then n - |acc| else 0
  {
    hide Symbol, Peek, Repeat;
    if |acc| < n && Symbol(cl, s, pos).Sym? {
      var i := Symbol(cl, s, pos).i;
      var pos1, x := pos + cl[i], if i == 16 then 2 else if i == 17 then 3 else 7;
      if i < 16 {
        LengthsSame(cl, n, s, pos1, acc + [i]);
      } else if pos1 + x <= |s| {
        var r := (if i == 18 then 11 else 3) + Peek(s, pos1, x);
        var v := if i == 16 then acc[|acc| - 1] else 0;
        if |acc| + r <= n {
          assert |Repeat(v, r)| == r by { RepeatSize(v, r); }
          LengthsSame(cl, n, s, pos1 + x, acc + Repeat(v, r));
        }
      }
    }
  }

  lemma {:induction false} RepeatSize(v: nat, n: nat)
    ensures |Repeat(v, n)| == n
  {
  }

  lemma {:induction false} LengthsStrict(cl: seq<nat>, n: nat, s: seq<bool>, pos: nat)
    requires |cl| == 19 && n > 0
    ensures Lengths(false, cl, n, s, pos, []) ==
            if Symbol(cl, s, pos) == Sym(16) then NoLens else Lengths(true, cl, n, s, pos, [])
  {
    hide Symbol, Peek, Repeat;
    if Symbol(cl, s, pos).Sym? {
      var i := Symbol(cl, s, pos).i;
      var pos1, x := pos + cl[i], if i == 17 then 3 else 7;
      if i < 16 {
        LengthsSame(cl, n, s, pos1, [] + [i]);
      } else if i > 16 && pos1 + x <= |s| {
        var r := (if i == 18 then 11 else 3) + Peek(s, pos1, x);
        RepeatSize(0, r);
        LengthsSame(cl, n, s, pos1 + x, [] + Repeat(0, r));
      }
    }
  }

  lemma {:induction false} DynamicIs(lax: bool, s: seq<bool>, pos: nat, out: seq<byte>)
    ensures Dynamic(lax, s, pos, out) == match DynamicHeader(lax, s, pos)
      case NoHeader => Corrupt
      case Header(ll, dl, pos2) => Body(lax, ll, dl, s, pos2, out)
  {
    hide Body, Allowed, Accepted, CodeLens, Lengths, Peek;
  }

  /** The headers that only the lax decoder takes. */
  lemma {:induction false} HeaderStrict(s: seq<bool>, pos: nat)
    ensures CodesAt(false, s, pos) == if BlockLoose(s, pos) then NoHeader else CodesAt(true, s, pos)
  {
    hide Accepted, CompleteLengths, CodeLens, Lengths, Peek, Symbol, FixedLit, FixedDist;
    match MetaAt(s, pos)
    case NoMeta =>
    case Meta(cl, pos2) =>
      var nl, nd := 257 + Peek(s, pos + 2, 5), 1 + Peek(s, pos + 7, 5);
      LengthsStrict(cl, nl + nd, s, pos2);
  }

  lemma {:induction false} BlockStrict(s: seq<bool>, pos: nat, out: seq<byte>)
    ensures Block(false, s, pos, out) ==
            if BlockLoose(s, pos) || BlockDeparts(s, pos, out) then Corrupt else Block(true, s, pos, out)
  {
    hide Body, Dynamic, DynamicHeader, Stored, Peek, BodyDeparts, FixedLit, FixedDist, BlockLoose;
    DynamicIs(true, s, pos + 2, out);
    DynamicIs(false, s, pos + 2, out);
    HeaderStrict(s, pos);
    assert BlockLoose(s, pos) ==> |s| >= pos + 2 && Peek(s, pos, 2) == 2 by { LooseDynamic(s, pos); }
    match CodesAt(true, s, pos)
    case NoHeader =>
    case Header(ll, dl, pos2) => BodyStrict(ll, dl, s, pos2, out);
  }

  lemma {:induction false} LooseDynamic(s: seq<bool>, pos: nat)
    ensures BlockLoose(s, pos) ==> |s| >= pos + 2 && Peek(s, pos, 2) == 2
  {
    hide Peek;
  }

  /** The strict decoder refuses exactly the streams that depart from RFC 1951 in these ways, besides
      those that the lax one refuses. */
  lemma {:induction false} Strict(s: seq<bool>, pos: nat, out: seq<byte>)
    ensures Inflated(false, s, pos, out) == if Departs(s, pos, out) then Corrupt else Inflated(true, s, pos, out)
    decreases |s| - pos
  {
    hide Block, BlockLoose, BlockDeparts, Peek;
    if pos < |s| {
      BlockStrict(s, pos + 1, out);
      match Block(true, s, pos + 1, out)
      case Corrupt =>
      case Done(out2, pos2) => Strict(s, pos2, out2);
    }
  }

  /** So they agree if and only if the stream does not, or is no good anyway. */
  lemma {:induction false} AgreeIff(s: seq<bool>)
    ensures Inflated(false, s, 0, []) == Inflated(true, s, 0, []) <==>
            !Departs(s, 0, []) || Inflated(true, s, 0, []) == Corrupt
  {
    Strict(s, 0, []);
  }
}
