/** Walking the tables huft_build makes finds the symbol RFC 1951 assigns to the bits. */
module HuftSymbols {
  import opened Bits
  import opened Canonical
  import opened HuftTable
  import opened HuftFill
  import opened HuftDecode
  import opened CodeSet
  import opened HuftPrep
  import opened Deflate

  // ----- words and symbols -----

  /** Symbol words are words of the code set, below the dummy codes. */
  lemma {:induction false} SymbolWord(b: seq<nat>, i: nat)
    requires MaxLen(b) > 0 && !Oversubscribed(b) && Matches(CodesOf(b), b)
    requires i < |b| && 1 <= b[i] <= BMAX
    ensures CodesOf(b).IsWord(WordOf(b, i))
    ensures Msb(WordOf(b, i)) - First(CodesOf(b).cnt, b[i]) == Count(b[..i], b[i]) < Count(b, b[i])
  {
    hide Count, Pow2, First, Msb, Code, MaxLen, Oversubscribed, Highest;
    var cs, k, r := CodesOf(b), b[i], Count(b[..i], b[i]);
    NthAt(b, i);
    LengthInUse(b, i);
    FirstAgree(Counts(b), cs.cnt, k);
    assert cs.Fits(k);
    assert cs.cnt[k] >= Count(b, k);
    MsbCode(First(Counts(b), k) + r, k);
  }

  lemma {:induction false} LengthInUse(b: seq<nat>, i: nat)
    requires i < |b| && b[i] <= BMAX
    ensures b[i] <= MaxLen(b)
  {
    hide Count;
    NthAt(b, i);
    assert Counts(b)[b[i]] == Count(b, b[i]);
  }

  /** A word below the dummy codes is the word of a symbol. */
  lemma {:induction false} WordSymbol(b: seq<nat>, x: seq<bool>) returns (i: nat)
    requires MaxLen(b) > 0 && !Oversubscribed(b) && Matches(CodesOf(b), b)
    requires CodesOf(b).IsWord(x) && Msb(x) - First(CodesOf(b).cnt, |x|) < Count(b, |x|)
    ensures i == Nth(b, |x|, Msb(x) - First(CodesOf(b).cnt, |x|))
    ensures i < |b| && b[i] == |x| && WordOf(b, i) == x
  {
    hide Count, Pow2;
    var cs := CodesOf(b);
    i := Nth(b, |x|, Msb(x) - First(cs.cnt, |x|));
    FirstAgree(Counts(b), cs.cnt, |x|);
    CodeMsb(x);
  }

  lemma {:induction false} SymbolUnique(b: seq<nat>, s: seq<bool>, pos: nat, i: nat, j: nat)
    requires MaxLen(b) > 0 && !Oversubscribed(b) && Matches(CodesOf(b), b)
    requires Spells(b, i, s, pos) && Spells(b, j, s, pos)
    ensures i == j
  {
    hide Count, Pow2, First, Msb, CodesOf, MaxLen, Oversubscribed;
    SymbolWord(b, i);
    SymbolWord(b, j);
    var x, y := WordOf(b, i), WordOf(b, j);
    if b[i] <= b[j] {
      assert x == s[pos..pos + b[j]][..b[i]];
      CodesOf(b).PrefixFree(x, y);
    } else {
      assert y == s[pos..pos + b[i]][..b[j]];
      CodesOf(b).PrefixFree(y, x);
    }
    NthAt(b, i);
    NthAt(b, j);
  }

  // ----- walks -----

  /** More input does not change a walk that had enough, and the bits it used were there. */
  lemma {:induction false} WalkExtend(T: seq<seq<Entry>>, t: nat, n: nat, s: seq<bool>, ext: seq<bool>)
    requires LinksForward(T) && !Walk(T, t, n, s).Short?
    ensures Walk(T, t, n, s + ext) == Walk(T, t, n, s)
    ensures Walk(T, t, n, s).Found? ==> Walk(T, t, n, s).used <= |s|
    decreases |T| - t
  {
    hide Val;
    assert (s + ext)[..n] == s[..n];
    var i := Val(s[..n]);
    if t < |T| && i < |T[t]| && IsLink(T[t][i]) && 1 <= T[t][i].b <= n {
      var x := T[t][i];
      assert (s + ext)[x.b..] == s[x.b..] + ext;
      WalkExtend(T, x.v, x.e - LITERAL, s[x.b..], ext);
    }
  }

  /** No table is indexed by more bits than this. */
  const INDEX_BITS: nat := 9

  /** A decoding table for the lengths of src: none if all lengths are zero. */
  ghost predicate TableFor(src: Source, l: nat, T: seq<seq<Entry>>)
    requires src.Wf()
  {
    if MaxLen(src.b) == 0 then l == 0 && T == []
    else
      && !Oversubscribed(src.b) && Matches(CodesOf(src.b), src.b)
      && 1 <= l <= MaxLen(src.b) && Decodes(src, CodesOf(src.b), l, T)
      && Fits(T, 0, l, INDEX_BITS)
  }

  /** The word at the front of the bits, of a code that uses all patterns. */
  lemma {:induction false} FrontWord(src: Source, l: nat, T: seq<seq<Entry>>, q: seq<bool>) returns (x: seq<bool>)
    requires src.Wf() && TableFor(src, l, T) && MaxLen(src.b) > 0
    ensures CodesOf(src.b).IsWord(x) && x <= q + Zeros(SCALE)
    ensures LinksForward(T) && Walk(T, 0, l, q + Zeros(SCALE)) == Meaning(src, CodesOf(src.b), x)
  {
    hide Walk, Meaning, CodesOf, MaxLen, Oversubscribed;
    var q' := q + Zeros(SCALE);
    x := CodesOf(src.b).Cover(q'[..SCALE]);
    assert q'[..SCALE] <= q';
  }

  /** What a symbol found by a walk has to do with the bits. */
  ghost predicate SymbolFound(src: Source, s: seq<bool>, pos: nat, hit: Hit)
    requires src.Wf() && pos <= |s|
  {
    match hit
    case Short => |s| < pos + SCALE
    case Wild => Symbol(src.b, s, pos).NoSym?
    case Found(e, v, used) =>
      && pos + used <= |s|
      && (match Symbol(src.b, s, pos)
          case NoSym => e == INVALID
          case Sym(i) => used == src.b[i] && src.SymbolEntry(i, used) == Entry(e, used, v))
  }

  lemma {:induction false} RealWord(src: Source, x: seq<bool>, s: seq<bool>, pos: nat, hit: Hit)
    requires src.Wf() && MaxLen(src.b) > 0 && !Oversubscribed(src.b) && Matches(CodesOf(src.b), src.b)
    requires CodesOf(src.b).IsWord(x) && Msb(x) - First(CodesOf(src.b).cnt, |x|) < Count(src.b, |x|)
    requires hit == Meaning(src, CodesOf(src.b), x) && pos + |x| <= |s| && s[pos..pos + |x|] == x
    ensures SymbolFound(src, s, pos, hit)
  {
    hide Count, First, Msb, MaxLen, Oversubscribed, Matches;
    var b := src.b;
    var i := WordSymbol(b, x);
    assert Spells(b, i, s, pos);
    assert Symbol(b, s, pos).Sym?;
    SymbolUnique(b, s, pos, i, Symbol(b, s, pos).i);
  }

  lemma {:induction false} DummyWord(src: Source, x: seq<bool>, s: seq<bool>, pos: nat)
    requires src.Wf() && MaxLen(src.b) > 0 && !Oversubscribed(src.b) && Matches(CodesOf(src.b), src.b)
    requires CodesOf(src.b).IsWord(x) && Msb(x) - First(CodesOf(src.b).cnt, |x|) >= Count(src.b, |x|)
    requires pos <= |s| && x <= s[pos..] + Zeros(SCALE)
    ensures Symbol(src.b, s, pos).NoSym?
  {
    hide Count, First, Msb, MaxLen, Oversubscribed, CodesOf, Start, Width;
    var b := src.b;
    if Symbol(b, s, pos).Sym? {
      var i := Symbol(b, s, pos).i;
      SymbolWord(b, i);
      var y, q := WordOf(b, i), s[pos..] + Zeros(SCALE);
      assert y == s[pos..][..b[i]] <= q;
      Comparable(x, y, q);
      if x <= y { CodesOf(b).PrefixFree(x, y); } else { CodesOf(b).PrefixFree(y, x); }
      assert false;
    }
  }

  lemma {:induction false} DummyMeaning(src: Source, cs: Codes, x: seq<bool>)
    requires src.Wf() && Matches(cs, src.b) && cs.IsWord(x)
    requires Msb(x) - First(cs.cnt, |x|) >= Count(src.b, |x|)
    ensures Meaning(src, cs, x) == Wild || Meaning(src, cs, x) == Found(INVALID, 0, |x|)
  {
  }

  lemma {:induction false} AllZeroNoSymbol(src: Source, s: seq<bool>, pos: nat)
    requires src.Wf() && MaxLen(src.b) == 0
    ensures Symbol(src.b, s, pos).NoSym?
  {
    AllZero(src.b);
  }

  /** The lookup loop finds the symbol that the bits spell, or nothing valid if there is none. */
  lemma {:induction false} WalkMeansSymbol(src: Source, l: nat, T: seq<seq<Entry>>, s: seq<bool>, pos: nat)
    requires src.Wf() && TableFor(src, l, T) && pos <= |s|
    ensures LinksForward(T) && SymbolFound(src, s, pos, Walk(T, 0, l, s[pos..]))
  {
    hide MaxLen;
    if MaxLen(src.b) == 0 {
      AllZeroNoSymbol(src, s, pos);
    } else {
      hide SymbolFound, Walk, TableFor;
      var x := FrontWord(src, l, T, s[pos..]);
      if Walk(T, 0, l, s[pos..]).Short? {
        ShortFound(src, l, T, s, pos);
      } else {
        LongFound(src, l, T, s, pos, x);
      }
    }
  }

  lemma {:induction false} ShortFound(src: Source, l: nat, T: seq<seq<Entry>>, s: seq<bool>, pos: nat)
    requires src.Wf() && TableFor(src, l, T) && MaxLen(src.b) > 0 && LinksForward(T)
    requires pos <= |s| && Walk(T, 0, l, s[pos..]).Short?
    ensures SymbolFound(src, s, pos, Walk(T, 0, l, s[pos..]))
  {
    hide MaxLen, TableFor, Walk;
    NotShort(src, l, T, s[pos..]);
  }

  lemma {:induction false} LongFound(src: Source, l: nat, T: seq<seq<Entry>>, s: seq<bool>, pos: nat, x: seq<bool>)
    requires src.Wf() && MaxLen(src.b) > 0 && !Oversubscribed(src.b) && Matches(CodesOf(src.b), src.b)
    requires LinksForward(T) && pos <= |s| && !Walk(T, 0, l, s[pos..]).Short?
    requires CodesOf(src.b).IsWord(x) && x <= s[pos..] + Zeros(SCALE)
    requires Walk(T, 0, l, s[pos..] + Zeros(SCALE)) == Meaning(src, CodesOf(src.b), x)
    ensures SymbolFound(src, s, pos, Walk(T, 0, l, s[pos..]))
  {
    hide Count, First, Msb, Oversubscribed, CodesOf, MaxLen, Meaning, Walk;
    var q := s[pos..];
    WalkExtend(T, 0, l, q, Zeros(SCALE));
    if Msb(x) - First(CodesOf(src.b).cnt, |x|) < Count(src.b, |x|) {
      hide SymbolFound;
      FoundLength(src, CodesOf(src.b), x);
      assert |x| <= |q|;
      assert x == (q + Zeros(SCALE))[..|x|] == q[..|x|] == s[pos..pos + |x|];
      RealWord(src, x, s, pos, Walk(T, 0, l, q));
    } else {
      DummyWord(src, x, s, pos);
      DummyMeaning(src, CodesOf(src.b), x);
    }
  }

  lemma {:induction false} FoundLength(src: Source, cs: Codes, x: seq<bool>)
    requires src.Wf() && Matches(cs, src.b) && cs.IsWord(x)
    requires Msb(x) - First(cs.cnt, |x|) < Count(src.b, |x|)
    ensures Meaning(src, cs, x).Found? && Meaning(src, cs, x).used == |x|
  {
  }

  /** Enough bits are never too few. */
  lemma {:induction false} NotShort(src: Source, l: nat, T: seq<seq<Entry>>, q: seq<bool>)
    requires src.Wf() && TableFor(src, l, T) && MaxLen(src.b) > 0 && LinksForward(T)
    ensures |q| >= SCALE ==> !Walk(T, 0, l, q).Short?
  {
    hide Walk, CodesOf, MaxLen, Oversubscribed;
    if |q| >= SCALE {
      var x := CodesOf(src.b).Cover(q[..SCALE]);
      assert x <= q;
    }
  }
}
