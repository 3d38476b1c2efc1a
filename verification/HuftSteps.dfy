/** Single steps of the table-making loop of huft_build (kernel/boot/linux/inflate.c:206-297). */
module HuftSteps {
  import opened Bits
  import opened Canonical
  import opened HuftTable
  import opened HuftFill

  // ----- single steps of the inner loop -----

  lemma {:induction false} TopBitClear(v: nat, n: nat)
    requires v < Pow2(n)
    ensures And(v, Pow2(n)) == 0 && Xor(v, Pow2(n)) == v + Pow2(n)
  {
    if n > 0 {
      TopBitClear(v / 2, n - 1);
    }
  }

  lemma {:induction false} TopBitSet(v: nat, n: nat)
    requires v < Pow2(n)
    ensures And(v + Pow2(n), Pow2(n)) == Pow2(n) && Xor(v + Pow2(n), Pow2(n)) == v
  {
    if n > 0 {
      TopBitSet(v / 2, n - 1);
      assert (v + Pow2(n)) / 2 == v / 2 + Pow2(n - 1);
    }
  }

  /** The last bit of an m-bit code is the top bit of the stored word. */
  lemma {:induction false} TopBit(i: nat, j: nat, m: nat, d: nat)
    requires i == Val(Code(d, m)) && j == if m == 0 then 0 else Pow2(m - 1)
    ensures And(i, j) == if m > 0 && d % 2 == 1 then j else 0
    ensures m > 0 ==> Xor(i, j) == Val(Code(d / 2, m - 1)) + if d % 2 == 1 then 0 else j
    ensures m == 0 ==> Xor(i, j) == 0
    ensures m > 0 ==> j / 2 == if m == 1 then 0 else Pow2(m - 2)
  {
    if m > 0 {
      hide Val, Code, And, Xor;
      ValCode(d, m);
      TopBitClear(Val(Code(d / 2, m - 1)), m - 1);
      TopBitSet(Val(Code(d / 2, m - 1)), m - 1);
    }
  }

  lemma {:induction false} ValCode(c: nat, k: nat)
    requires k > 0
    ensures Val(Code(c, k)) == Val(Code(c / 2, k - 1)) + if c % 2 == 1 then Pow2(k - 1) else 0
  {
    hide Val, Pow2;
    var p := Code(c / 2, k - 1);
    ValAppend(p, [c % 2 == 1]);
    assert Val([true]) == 1 && Val([false]) == 0 by { assert [true][1..] == [] == [false][1..]; ValEmpty(); }
    ShlOne(k - 1);
    ShlZero(k - 1);
  }

  lemma {:induction false} ValEmpty()
    ensures Val([]) == 0 && Val([true]) == 1 && Val([false]) == 0
  {
  }

  /** Adding one to a k-bit code that is stored first bit lowest. */
  method BackwardIncrement(i0: nat, k: nat, ghost c: nat) returns (i: nat)
    requires k >= 1 && i0 == Val(Code(c, k))
    ensures i == Val(Code(c + 1, k))
  {
    hide Val, Code, And, Xor, Pow2;
    i := i0;
    var j := Pow2(k - 1);
    ghost var m: nat, d: nat := k, c;
    TopBit(i, j, m, d);
    while And(i, j) != 0
      invariant m <= k && j == if m == 0 then 0 else Pow2(m - 1)
      invariant i == Val(Code(d, m)) && Val(Code(c + 1, k)) == Val(Code(d + 1, m))
      decreases m
    {
      TopBit(i, j, m, d);
      ValCode(d + 1, m);
      i := Xor(i, j);
      j := j / 2;
      m, d := m - 1, d / 2;
    }
    TopBit(i, j, m, d);
    if m > 0 {
      ValCode(d + 1, m);
    } else {
      ValCodeEmpty(d + 1);
    }
    i := Xor(i, j);
  }

  lemma {:induction false} ValCodeEmpty(d: nat)
    ensures Val(Code(d, 0)) == 0
  {
  }

  lemma {:induction false} NextIndex(idx: nat, m: nat, start: nat, d: nat)
    requires start < Pow2(d)
    requires Shl(m, d) + start <= idx < Shl(m + 1, d) + start
    ensures Mask(idx, d) == start <==> idx == Shl(m, d) + start
  {
    hide Shl, Mask, Shr, Pow2;
    Split(idx, d);
    SplitUnique(m, start, d);
    if Mask(idx, d) == start {
      var h := Shr(idx, d);
      ShlMono(m, h, d);
      ShlMono(m + 1, h, d);
    }
  }

  /** Writing r at every f-th index, f = 1 << d. */
  method FillEntries(tab: seq<Entry>, start: nat, d: nat, r: Entry) returns (full: seq<Entry>)
    requires start < Pow2(d)
    ensures full == FillTable(tab, d, start, r)
  {
    full := tab;
    var f := Pow2(d);
    var j := start;
    ghost var m := 0;
    ShlZero(d);
    FirstIndex(start, d);
    while j < |tab|
      invariant j == Shl(m, d) + start && |full| == |tab|
      invariant forall i :: 0 <= i < |tab| ==> full[i] == if Mask(i, d) == start && i < j then r else tab[i]
    {
      ShlAdd(m, 1, d);
      ShlOne(d);
      forall i | j <= i < j + f ensures Mask(i, d) == start <==> i == j {
        NextIndex(i, m, start, d);
      }
      full := full[j := r];
      j := j + f;
      m := m + 1;
    }
    assert forall i :: 0 <= i < |tab| ==> full[i] == FillTable(tab, d, start, r)[i];
  }

  lemma {:induction false} FirstIndex(start: nat, d: nat)
    requires start < Pow2(d)
    ensures forall i :: 0 <= i < start ==> Mask(i, d) != start
  {
    forall i | 0 <= i < start ensures Mask(i, d) != start {
      MaskBound(i, d);
    }
  }

  // ----- the size of a new table -----

  /** If the words of length n or less fill the interval of pre, none below pre is longer. */
  lemma {:induction false} AllWithin(cs: Codes, pre: seq<bool>, n: nat, x: seq<bool>)
    requires cs.Wf() && |pre| <= SCALE && 1 <= n <= cs.g && Under(cs, pre, x)
    requires Start(pre) + Width(|pre|) <= cs.After(n)
    ensures |x| <= n
  {
    hide First, Msb;
    if |x| > n {
      StartPrefix(pre, x);
      cs.AfterMono(n, |x|);
      AtMono(First(cs.cnt, |x|), Msb(x), |x|);
      assert false;
    }
  }

  /** What the size j of a new table for the words under pre guarantees; cw is the first of them. */
  ghost predicate SizeOK(cs: Codes, l: nat, pre: seq<bool>, cw: seq<bool>, j: nat)
    requires cs.Wf()
  {
    && 1 <= j && (j <= l || |pre| + j <= cs.g)
    && (j < l ==> forall x :: Under(cs, pre, x) ==> |x| <= |pre| + j)
    && (|cw| < |pre| + l ==> j <= l)
    && (|cw| >= |pre| + l ==> j >= |cw| - |pre|)
    && (|cw| >= |pre| + l && j == |cw| - |pre| ==> forall x :: Under(cs, pre, x) ==> |x| <= |cw|)
  }

  /** The smallest table that the words under pre = cw[..w] use up, at most l bits if it can be;
      a words of cw's length follow cw. */
  method TableBits(c: seq<nat>, g: nat, l: nat, k: nat, a: nat, w: nat, ghost cs: Codes, ghost cw: seq<bool>)
      returns (j: nat)
    requires cs.Wf() && cs.Complete() && cs.cnt == c && cs.g == g && 1 <= l <= g
    requires cs.IsWord(cw) && w < k == |cw| && Start(cw[..w]) == Start(cw)
    requires Msb(cw) + a + 1 == First(c, k) + c[k]
    ensures SizeOK(cs, l, cw[..w], cw, j)
  {
    hide First, Msb, Shl, Pow2;
    ghost var pre := cw[..w];
    ghost var end := Start(pre) + Width(w);
    var z := if g - w > l then l else g - w;
    j := k - w;
    var f := Pow2(j);
    AtShift(1, w, k - w);
    ShlOne(k - w);
    assert At(f, k) == Width(w);
    AtAdd(Msb(cw), a + 1, k);
    assert cs.After(k) == Start(cw) + At(a + 1, k);
    AtMono(f, a + 1, k);
    if f > a + 1 {
      if k == g {
        StartBound(pre);
        AllDone(g);
        assert false;
      }
      AtAdd(f - (a + 1), a + 1, k);
      f := f - (a + 1);
      j := j + 1;
      while j < z
        invariant k - w < j && (j <= z || j == k - w + 1)
        invariant f > 0 && w + j - 1 <= g && At(f, w + j - 1) == end - cs.After(w + j - 1)
      {
        cs.AfterStep(w + j - 1);
        AtShift(f, w + j - 1, 1);
        ghost var f0 := f;
        f := 2 * f;
        assert f == Shl(f0, 1) by { ShlByOne(f0); }
        AtMono(f, c[w + j], w + j);
        if f <= c[w + j] {
          forall x | Under(cs, pre, x) ensures |x| <= w + j {
            AllWithin(cs, pre, w + j, x);
          }
          return;
        }
        AtAdd(f - c[w + j], c[w + j], w + j);
        f := f - c[w + j];
        j := j + 1;
      }
    } else {
      forall x | Under(cs, pre, x) ensures |x| <= w + j {
        AllWithin(cs, pre, k, x);
      }
    }
  }

  lemma {:induction false} AllDone(k: nat)
    requires k <= SCALE
    ensures At(Pow2(k), k) == Width(0)
  {
    AtShift(1, 0, k);
    ShlOne(k);
  }

  lemma {:induction false} ShlByOne(x: nat)
    ensures Shl(x, 1) == 2 * x
  {
  }
}
