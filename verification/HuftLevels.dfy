/** Which code sets skip no table level. */
module HuftLevels {
  import opened Bits
  import opened Canonical
  import opened HuftTable
  import opened HuftFill
  import opened HuftDecode
  import opened CodeSet
  import opened HuftPrep
  import opened HuftSymbols
  import opened HuftBuild

  /** Two levels of tables are always enough for lengths up to twice the lookup bits. */
  lemma {:induction false} ShallowOK(cs: Codes, l: nat)
    requires cs.Wf() && cs.g <= 2 * l
    ensures LevelsOK(cs, l)
  {
    assert Depth(l, 1) == Depth(l, 0) + l == l;
    assert Depth(l, 2) == 2 * l;
    forall j | j >= 2 ensures Depth(l, j) >= 2 * l {
      if j > 2 { DepthMono(l, 2, j); }
    }
  }

  /** The bits of symbol i's word after the first n, up to m. */
  ghost function Piece(b: seq<nat>, i: nat, n: nat, m: nat): nat
    requires i < |b| && 1 <= b[i] <= BMAX && n <= m <= b[i]
  {
    Msb(WordOf(b, i)[n..m])
  }

  /** Symbol i's word goes through the first j of the strings of p's extensions to m bits. */
  ghost predicate InFirst(b: seq<nat>, p: seq<bool>, m: nat, j: nat, i: nat)
  {
    && i < |b| && 1 <= b[i] <= BMAX && |p| <= m <= b[i]
    && p <= WordOf(b, i) && Piece(b, i, |p|, m) < j
  }

  /** A word for one extension of p. */
  lemma {:induction false} WordThrough(cs: Codes, p: seq<bool>, r: seq<bool>) returns (y: seq<bool>)
    requires cs.Wf() && cs.Complete() && |p| + |r| <= SCALE
    requires forall y :: cs.IsWord(y) && (y <= p || p <= y) ==> p <= y && |p| + |r| <= |y|
    ensures cs.IsWord(y) && p <= y && |p| + |r| <= |y| && y[|p|..|p| + |r|] == r
  {
    hide First, Pow2, Msb, Zeros;
    var s := p + r + Zeros(SCALE - |p| - |r|);
    y := cs.Cover(s);
    assert p <= s;
    Comparable(p, y, s);
    assert y == s[..|y|];
  }

  /** A symbol for one extension of p. */
  lemma {:induction false} SymbolThrough(b: seq<nat>, p: seq<bool>, m: nat, j: nat) returns (i: nat)
    requires MaxLen(b) > 0 && !Oversubscribed(b) && CompleteLengths(b) && Matches(CodesOf(b), b)
    requires |p| <= m <= SCALE && j < Pow2(m - |p|)
    requires forall y :: CodesOf(b).IsWord(y) && (y <= p || p <= y) ==> p <= y && m <= |y|
    ensures InFirst(b, p, m, j + 1, i) && Piece(b, i, |p|, m) == j
  {
    hide First, Pow2, Count, Oversubscribed, CompleteLengths, MaxLen, CodesOf, Msb, Code;
    var y := WordThrough(CodesOf(b), p, Code(j, m - |p|));
    MsbCode(j, m - |p|);
    NoDummy(b, y);
    i := WordSymbol(b, y);
  }

  lemma {:induction false} NoDummy(b: seq<nat>, y: seq<bool>)
    requires MaxLen(b) > 0 && !Oversubscribed(b) && CompleteLengths(b) && Matches(CodesOf(b), b)
    requires CodesOf(b).IsWord(y)
    ensures Msb(y) - First(CodesOf(b).cnt, |y|) < Count(b, |y|)
  {
    hide Pow2, First, Msb;
    assert Counts(b)[MaxLen(b)] == Count(b, MaxLen(b));
  }

  /** As many symbols as there are extensions of p. */
  lemma {:induction false} ManySymbols(b: seq<nat>, p: seq<bool>, m: nat, j: nat) returns (S: set<nat>)
    requires MaxLen(b) > 0 && !Oversubscribed(b) && CompleteLengths(b) && Matches(CodesOf(b), b)
    requires |p| <= m <= SCALE && j <= Pow2(m - |p|)
    requires forall y :: CodesOf(b).IsWord(y) && (y <= p || p <= y) ==> p <= y && m <= |y|
    ensures |S| == j && forall i :: i in S ==> InFirst(b, p, m, j, i)
    decreases j
  {
    hide First, Pow2, Count, Oversubscribed, CompleteLengths, MaxLen, Code, Msb;
    if j == 0 {
      S := {};
    } else {
      S := ManySymbols(b, p, m, j - 1);
      var i := SymbolThrough(b, p, m, j - 1);
      assert i !in S;
      S := S + {i};
    }
  }

  lemma {:induction false} Subrange(S: set<nat>, n: nat)
    requires forall i :: i in S ==> i < n
    ensures |S| <= n
    decreases n
  {
    if n > 0 {
      Subrange(S - {n - 1}, n - 1);
    } else {
      assert S == {};
    }
  }

  /** A complete code of fewer than 2^l symbols never skips a level: the words that pass a table
      in which no shorter word ends would be too many. */
  lemma {:induction false} FewSymbolsOK(b: seq<nat>, l: nat)
    requires MaxLen(b) > 0 && !Oversubscribed(b) && CompleteLengths(b) && Matches(CodesOf(b), b)
    requires |b| < Pow2(l)
    ensures LevelsOK(CodesOf(b), l)
  {
    hide First, Pow2, Count, Oversubscribed, CompleteLengths, MaxLen, CodesOf, Msb;
    var cs := CodesOf(b);
    forall x, h | cs.IsWord(x) && h >= 1 && |x| > Depth(l, h + 1)
      ensures PassesOK(cs, l, x, h)
    {
      var n, m := Depth(l, h), Depth(l, h + 1);
      var p := x[..n];
      if !Stops(cs, l, x, h) {
        forall y | cs.IsWord(y) && (y <= p || p <= y) ensures p <= y && m <= |y| {
          if y <= p {
            assert y <= x;
            cs.PrefixFree(y, x);
          } else {
            assert Under(cs, x[..n], y);
            if |y| == n { cs.PrefixFree(y, x); }
          }
        }
        assert m - n == l;
        var S := ManySymbols(b, p, m, Pow2(l));
        forall i | i in S ensures i < |b| { assert InFirst(b, p, m, Pow2(l), i); }
        Subrange(S, |b|);
      }
    }
  }

  /** The complete lengths 1, 2, 3, 3 looked up one bit at a time skip a level: after the first
      bit 1 the only word that ends at the next table fills it exactly. */
  lemma {:induction false} SkippedLevel()
    ensures MaxLen([1, 2, 3, 3]) == 3 && CompleteLengths([1, 2, 3, 3]) && !Oversubscribed([1, 2, 3, 3])
    ensures Matches(CodesOf([1, 2, 3, 3]), [1, 2, 3, 3]) && !LevelsOK(CodesOf([1, 2, 3, 3]), 1)
  {
    var b: seq<nat> := [1, 2, 3, 3];
    SmallCounts();
    CodesMatch(b);
    var cs := CodesOf(b);
    var x := [true, true, true];
    assert x[..2] == [true, true] && x[..2][..1] == [true] && x[..2][..1][..0] == [];
    assert Msb([]) == 0;
    assert Msb([true]) == 1;
    assert Msb([true, true]) == 3;
    assert Msb(x) == 7;
    assert First(cs.cnt, 1) == 0;
    assert First(cs.cnt, 2) == 2;
    assert First(cs.cnt, 3) == 6;
    assert cs.IsWord(x);
    assert Depth(1, 0) == 0;
    assert Depth(1, 1) == 1;
    assert Depth(1, 2) == 2;
    assert !Stops(cs, 1, x, 1);
    assert !PassesOK(cs, 1, x, 1);
  }

  /** huft_build makes tables for them without complaint, and the tables do not decode. */
  method SkippedTables(src: Source) returns (code: nat, T: seq<seq<Entry>>)
    requires src.Wf() && src.b == [1, 2, 3, 3]
    ensures code == 0 && MaxLen(src.b) > 0 && !Oversubscribed(src.b) && Built(src, 1, T)
    ensures !Decodes(src, CodesOf(src.b), 1, T)
  {
    hide Built, Decodes, LevelsOK, CodesOf, MaxLen, Oversubscribed, CompleteLengths, Matches;
    SkippedLevel();
    OneBit();
    var l;
    code, T, l := BuildTables(src, 1);
    LevelLost(src, l, T);
  }

  lemma {:induction false} LevelLost(src: Source, l: nat, T: seq<seq<Entry>>)
    requires src.Wf() && MaxLen(src.b) > 0 && CompleteLengths(src.b) && !Oversubscribed(src.b) && Built(src, l, T)
    ensures Decodes(src, CodesOf(src.b), l, T) <==> LevelsOK(CodesOf(src.b), l)
  {
  }

  lemma {:induction false} OneBit()
    ensures LookupBits([1, 2, 3, 3], 1) == 1
  {
    SmallCounts();
  }

  lemma {:induction false} SmallCounts()
    ensures var b: seq<nat> := [1, 2, 3, 3];
            var c := Counts(b);
            && c[1] == 1 && c[2] == 1 && c[3] == 2 && forall k :: 4 <= k <= BMAX ==> c[k] == 0
    ensures MaxLen([1, 2, 3, 3]) == 3 && First(Counts([1, 2, 3, 3]), 3) == 6 && Pow2(3) == 8
  {
    var b: seq<nat> := [1, 2, 3, 3];
    forall k: nat ensures Count(b, k) == if k == 1 || k == 2 then 1 else if k == 3 then 2 else 0 {
      assert b[..3] == [1, 2, 3] && b[..3][..2] == [1, 2] && b[..3][..2][..1] == [1];
      assert Count([1], k) == if k == 1 then 1 else 0;
      assert Count([1, 2], k) == if k == 1 || k == 2 then 1 else 0 by { assert [1, 2][..1] == [1]; }
      assert Count([1, 2, 3], k) == if 1 <= k <= 3 then 1 else 0 by { assert [1, 2, 3][..2] == [1, 2]; }
    }
    var c := Counts(b);
    assert First(c, 1) == 0;
    assert First(c, 2) == 2;
    assert First(c, 3) == 6;
  }
}
