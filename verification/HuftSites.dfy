/** Every table that kernel/boot/linux/inflate.c asks huft_build for decodes its code. */
module HuftSites {
  import opened Bits
  import opened Canonical
  import opened HuftTable
  import opened HuftDecode
  import opened CodeSet
  import opened HuftBuild
  import opened HuftPrep
  import opened Deflate
  import opened HuftSymbols
  import opened HuftLevels

  const LBITS: nat := 9   // lbits
  const DBITS: nat := 6   // dbits

  lemma {:induction false} FitsMono(T: seq<seq<Entry>>, t: nat, n: nat, cap: nat, cap': nat)
    requires Fits(T, t, n, cap) && cap <= cap'
    ensures Fits(T, t, n, cap')
    decreases |T| - t
  {
    hide Pow2;
    forall i | 0 <= i < Pow2(n) && T[t][i].Entry? && IsLink(T[t][i])
      ensures Fits(T, T[t][i].v, T[t][i].e - LITERAL, cap')
    {
      FitsMono(T, T[t][i].v, T[t][i].e - LITERAL, cap, cap');
    }
  }

  /** The general case: no skipped level and not too many bits. */
  lemma {:induction false} SiteTable(src: Source, l: nat, T: seq<seq<Entry>>)
    requires src.Wf() && MaxLen(src.b) > 0 && !Oversubscribed(src.b) && Built(src, l, T)
    requires 1 <= l <= MaxLen(src.b) <= l + INDEX_BITS && l <= INDEX_BITS
    requires MaxLen(src.b) <= 2 * l || (CompleteLengths(src.b) && |src.b| < Pow2(l))
    ensures TableFor(src, l, T)
  {
    hide Decodes, LevelsOK, Fits, Oversubscribed, CompleteLengths, MaxLen, Pow2;
    var cs := CodesOf(src.b);
    CodesG(src.b);
    if cs.g <= 2 * l {
      ShallowOK(cs, l);
    } else {
      FewSymbolsOK(src.b, l);
    }
    FitsMono(T, 0, l, IndexCap(cs.g, l), INDEX_BITS);
  }

  /** A complete code has at least 2^lo symbols, lo its least length. */
  lemma {:induction false} LowestBound(b: seq<nat>)
    requires MaxLen(b) > 0 && !Oversubscribed(b) && CompleteLengths(b)
    ensures Pow2(Lowest(Counts(b), 1)) <= |b|
  {
    var cs, lo := CodesOf(b), Lowest(Counts(b), 1);
    CodesMatch(b);
    hide First, Count, Pow2, Msb, Oversubscribed, CompleteLengths;
    forall y | cs.IsWord(y) && (y <= [] || [] <= y) ensures [] <= y && lo <= |y| {
      assert cs.cnt[|y|] > 0;
    }
    var S := ManySymbols(b, [], lo, Pow2(lo));
    forall i | i in S ensures i < |b| { assert InFirst(b, [], lo, Pow2(lo), i); }
    Subrange(S, |b|);
  }

  lemma {:induction false} LowestSmall(b: seq<nat>)
    requires MaxLen(b) > 0 && Accepted(b) && |b| < 512
    ensures 1 <= Lowest(Counts(b), 1) <= 8 && Lowest(Counts(b), 1) <= MaxLen(b)
  {
    hide First;
    if CompleteLengths(b) {
      LowestBound(b);
      assert Pow2(9) == 512;
      if Lowest(Counts(b), 1) > 8 {
        Pow2Mono(9, Lowest(Counts(b), 1));
      }
    }
  }

  /** Literal and length codes, and code length codes: two levels of tables at most. */
  lemma {:induction false} WideTable(src: Source, m: nat, l: nat, T: seq<seq<Entry>>)
    requires src.Wf() && Accepted(src.b) && |src.b| < 512
    requires (m == LBITS && MaxLen(src.b) <= 15) || (m == 7 && MaxLen(src.b) <= 14)
    requires MaxLen(src.b) == 0 ==> l == 0 && T == []
    requires MaxLen(src.b) > 0 && !Oversubscribed(src.b) ==> l == LookupBits(src.b, m) && Built(src, l, T)
    ensures TableFor(src, l, T)
  {
    hide CompleteLengths, Built, Pow2, TableFor;
    if MaxLen(src.b) > 0 {
      LowestSmall(src.b);
      SiteTable(src, l, T);
    } else {
      EmptyTable(src, l, T);
    }
  }

  lemma {:induction false} EmptyTable(src: Source, l: nat, T: seq<seq<Entry>>)
    requires src.Wf() && MaxLen(src.b) == 0 && l == 0 && T == []
    ensures TableFor(src, l, T)
  {
  }

  /** Distance codes: three levels, but fewer than 64 symbols. */
  lemma {:induction false} DistTable(src: Source, l: nat, T: seq<seq<Entry>>)
    requires src.Wf() && Accepted(src.b) && |src.b| <= MAX_DIST && MaxLen(src.b) <= 15
    requires MaxLen(src.b) == 0 ==> l == 0 && T == []
    requires MaxLen(src.b) > 0 && !Oversubscribed(src.b) ==> l == LookupBits(src.b, DBITS) && Built(src, l, T)
    ensures TableFor(src, l, T)
  {
    hide CompleteLengths, Built, TableFor;
    if MaxLen(src.b) > 0 {
      LowestSmall(src.b);
      assert Pow2(6) == 64;
      if l >= 6 { Pow2Mono(6, l); }
      SiteTable(src, l, T);
    } else {
      EmptyTable(src, l, T);
    }
  }

  // ----- the fixed codes -----

  lemma {:induction false} CountAppend(x: seq<nat>, y: seq<nat>, k: nat)
    ensures Count(x + y, k) == Count(x, k) + Count(y, k)
  {
    if y == [] {
      assert x + y == x;
    } else {
      assert (x + y)[..|x + y| - 1] == x + y[..|y| - 1];
      CountAppend(x, y[..|y| - 1], k);
    }
  }

  lemma {:induction false} CountRepeat(v: nat, n: nat, k: nat)
    ensures Count(Repeat(v, n), k) == if v == k then n else 0
  {
    if n > 0 {
      assert Repeat(v, n)[..n - 1] == Repeat(v, n - 1);
      CountRepeat(v, n - 1, k);
    }
  }

  lemma {:induction false} FixedLitCounts(k: nat)
    ensures Count(FixedLit(), k) == if k == 7 then 24 else if k == 8 then 152 else if k == 9 then 112 else 0
  {
    hide Count, Repeat;
    var a, b, c, d := Repeat(8, 144), Repeat(9, 112), Repeat(7, 24), Repeat(8, 8);
    CountAppend(a + b + c, d, k);
    CountAppend(a + b, c, k);
    CountAppend(a, b, k);
    CountRepeat(8, 144, k);
    CountRepeat(9, 112, k);
    CountRepeat(7, 24, k);
    CountRepeat(8, 8, k);
  }

  lemma {:induction false} FirstFrom(c: seq<nat>, k: nat)
    requires 2 <= k <= |c|
    ensures First(c, k) == 2 * (First(c, k - 1) + c[k - 1])
  {
  }

  lemma {:induction false} Extremes(c: seq<nat>, lo: nat, hi: nat)
    requires |c| == BMAX + 1 && 1 <= lo <= hi <= BMAX && c[lo] > 0 && c[hi] > 0
    requires forall k :: 1 <= k < lo || hi < k <= BMAX ==> c[k] == 0
    ensures Lowest(c, 1) == lo && Highest(c, BMAX) == hi
  {
    hide Lowest, Highest;
    var j, k := Lowest(c, 1), Highest(c, BMAX);
    assert j <= BMAX ==> c[j] > 0;
    assert k > 0 ==> c[k] > 0;
  }

  lemma {:induction false} FixedLitComplete()
    ensures MaxLen(FixedLit()) == 9 && Lowest(Counts(FixedLit()), 1) == 7
    ensures CompleteLengths(FixedLit()) && !Oversubscribed(FixedLit())
  {
    hide Count, First, FixedLit;
    var c := Counts(FixedLit());
    forall k | 0 <= k <= BMAX
      ensures c[k] == if k == 7 then 24 else if k == 8 then 152 else if k == 9 then 112 else 0
    {
      FixedLitCounts(k);
    }
    FirstZero(c, 7);
    FirstFrom(c, 8);
    FirstFrom(c, 9);
    assert Pow2(9) == 512;
    Extremes(c, 7, 9);
  }

  lemma {:induction false} FixedDistFits()
    ensures MaxLen(FixedDist()) == 5 && Lowest(Counts(FixedDist()), 1) == 5
    ensures !Oversubscribed(FixedDist()) && !CompleteLengths(FixedDist())
  {
    hide Count, First, Repeat;
    var c := Counts(FixedDist());
    forall k | 0 <= k <= BMAX ensures c[k] == if k == 5 then 30 else 0 {
      CountRepeat(5, MAX_DIST, k);
    }
    FirstZero(c, 5);
    assert Pow2(5) == 32;
    Extremes(c, 5, 5);
  }
}
