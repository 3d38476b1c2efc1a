/** Entering one code word into the decoding tables keeps their invariant. */
module HuftFill {
  import opened Bits
  import opened Canonical
  import opened HuftTable

  /** The table after writing x at every index whose low d bits are base. */
  function FillTable(tab: seq<Entry>, d: nat, base: nat, x: Entry): (full: seq<Entry>)
    ensures |full| == |tab|
  {
    seq(|tab|, i requires 0 <= i < |tab| => if Mask(i, d) == base then x else tab[i])
  }

  /** cw is the word at position P, and ends within table t. */
  ghost predicate CanFill(cs: Codes, l: nat, st: State, t: nat, cw: seq<bool>)
    requires cs.Wf() && st.Sized()
  {
    && cs.IsWord(cw) && Start(cw) == st.P && t < |st.S|
    && st.S[t].pre <= cw && |st.S[t].pre| < |cw| <= |st.S[t].pre| + l
    && |cw| <= |st.S[t].pre| + st.S[t].bits
  }

  ghost function Filled(src: Source, cs: Codes, l: nat, st: State, t: nat, cw: seq<bool>): (st': State)
    requires src.Wf() && Matches(cs, src.b) && st.Sized() && CanFill(cs, l, st, t, cw)
    ensures st'.Sized()
  {
    var n := |st.S[t].pre|;
    var table := FillTable(st.T[t], |cw| - n, Val(cw[n..]), Leaf(src, cs, cw, n));
    State(st.S, st.T[t := table], st.P + Width(|cw|))
  }

  /** The indices that are filled are those whose bits continue the word. */
  lemma {:induction false} FillIndex(pre: seq<bool>, cw: seq<bool>, r: seq<bool>)
    requires pre <= cw && |cw| <= |pre| + |r|
    ensures Mask(Val(r), |cw| - |pre|) == Val(cw[|pre|..]) <==> cw <= pre + r
  {
    hide Val, Mask;
    var d := |cw| - |pre|;
    ValSplit(r, d);
    assert (pre + r)[..|cw|] == pre + r[..d];
    assert cw == pre + cw[|pre|..];
    if Val(r[..d]) == Val(cw[|pre|..]) {
      ValInjective(r[..d], cw[|pre|..]);
    }
    if cw <= pre + r {
      assert cw[|pre|..] == (pre + r)[..|cw|][|pre|..] == r[..d];
    }
  }

  /** The only word that becomes entered is cw. */
  lemma {:induction false} NewlyEntered(cs: Codes, cw: seq<bool>, x: seq<bool>)
    requires cs.Wf() && cs.IsWord(cw) && cs.IsWord(x)
    requires Start(x) < Start(cw) + Width(|cw|)
    ensures Start(x) < Start(cw) || x == cw
  {
    if Start(x) >= Start(cw) {
      cs.PrefixFree(cw, x);
    }
  }

  lemma {:induction false} SameTable(cs: Codes, l: nat, st: State, t: nat, j: nat, cw: seq<bool>)
    requires cs.Wf() && st.Sized() && st.Shapes(cs, l) && st.Unique()
    requires CanFill(cs, l, st, t, cw)
    requires j < |st.S| && st.S[j].pre <= cw && |st.S[j].pre| < |cw| <= |st.S[j].pre| + l
    ensures j == t
  {
    assert TabOK(cs, l, st.S[t]) && TabOK(cs, l, st.S[j]);
    var a, b := st.S[t].level, st.S[j].level;
    if a < b {
      DepthMono(l, a, b);
    } else if b < a {
      DepthMono(l, b, a);
    }
    assert st.S[t].pre == cw[..|st.S[t].pre|] == st.S[j].pre;
  }

  lemma {:induction false} FillLeaf(src: Source, cs: Codes, l: nat, st: State, t: nat, cw: seq<bool>,
                                    j: nat, x: seq<bool>, r: seq<bool>)
    requires src.Wf() && Matches(cs, src.b) && st.Inv(src, cs, l) && CanFill(cs, l, st, t, cw)
    requires j < |st.S|
    ensures Filled(src, cs, l, st, t, cw).LeafOK(src, cs, l, j, x, r)
  {
    hide Val, Mask, Start, Width, Leaf;
    var st' := Filled(src, cs, l, st, t, cw);
    var pre := st.S[j].pre;
    if cs.IsWord(x) && Start(x) < st'.P && |pre| < |x| <= |pre| + l && |r| == st.S[j].bits && x <= pre + r {
      NewlyEntered(cs, cw, x);
      assert st.LeafOK(src, cs, l, j, x, r);
      if x == cw {
        assert pre == (pre + r)[..|pre|];
        SameTable(cs, l, st, t, j, cw);
        FillIndex(pre, cw, r);
      } else if j == t {
        FillIndex(pre, cw, r);
        if cw <= pre + r {
          Comparable(cw, x, pre + r);
          if cw <= x { cs.PrefixFree(cw, x); } else { cs.PrefixFree(x, cw); }
        }
      }
    }
  }

  lemma {:induction false} Comparable(x: seq<bool>, y: seq<bool>, s: seq<bool>)
    requires x <= s && y <= s
    ensures x <= y || y <= x
  {
    assert x == s[..|x|] && y == s[..|y|];
    if |x| <= |y| {
      assert x == y[..|x|];
    } else {
      assert y == x[..|y|];
    }
  }

  lemma {:induction false} FillLink(src: Source, cs: Codes, l: nat, st: State, t: nat, cw: seq<bool>, i: nat, j: nat)
    requires src.Wf() && Matches(cs, src.b) && st.Inv(src, cs, l) && CanFill(cs, l, st, t, cw)
    ensures Filled(src, cs, l, st, t, cw).LinkOK(l, i, j)
  {
    hide Val, Mask, Start, Width, Leaf;
    assert st.LinkOK(l, i, j);
    if st.Child(l, i, j) && i == t {
      var pre, child := st.S[i].pre, st.S[j].pre;
      var r0 := child[|pre|..];
      assert TabOK(cs, l, st.S[j]);
      assert child == pre + r0;
      FillIndex(pre, cw, r0);
      if cw <= pre + r0 {
        assert cw <= st.S[j].wit;
        cs.PrefixFree(cw, st.S[j].wit);
        assert false;
      }
    }
  }

  lemma {:induction false} FillOnly(src: Source, cs: Codes, l: nat, st: State, t: nat, cw: seq<bool>, j: nat,
                                    r: seq<bool>)
    requires src.Wf() && Matches(cs, src.b) && st.Inv(src, cs, l) && CanFill(cs, l, st, t, cw)
    requires j < |st.S|
    ensures Filled(src, cs, l, st, t, cw).OnlyOK(cs, l, j, r)
  {
    hide Val, Mask, Start, Leaf;
    var st' := Filled(src, cs, l, st, t, cw);
    if |r| == st.S[j].bits && st'.T[j][Val(r)] != Unset {
      assert st.OnlyOK(cs, l, j, r);
      if st.T[j][Val(r)] != Unset {
        if x :| st.Ends(cs, l, j, x, r) {
          assert st'.Ends(cs, l, j, x, r);
        } else {
          var i :| st.Child(l, j, i) && st.IsIndexOf(l, j, i, r);
          assert st'.Child(l, j, i) && st'.IsIndexOf(l, j, i, r);
        }
      } else {
        FillIndex(st.S[j].pre, cw, r);
        assert st'.Ends(cs, l, j, cw, r);
      }
    }
  }

  lemma {:induction false} FillPath(src: Source, cs: Codes, l: nat, st: State, t: nat, cw: seq<bool>, x: seq<bool>,
                                    h: nat)
    requires src.Wf() && Matches(cs, src.b) && st.Inv(src, cs, l) && CanFill(cs, l, st, t, cw)
    requires OnPath(l, st, cw, h)
    ensures Filled(src, cs, l, st, t, cw).PathOK(cs, l, x, h)
  {
    hide Start, Width, Leaf;
    var st' := Filled(src, cs, l, st, t, cw);
    assert st.PathOK(cs, l, x, h);
    if cs.IsWord(x) && Start(x) < st'.P && Depth(l, h) < |x| {
      NewlyEntered(cs, cw, x);
      var i :| 0 <= i < |st.S| && st.HasPrefix(i, h, x[..Depth(l, h)]);
      assert st'.HasPrefix(i, h, x[..Depth(l, h)]);
    }
  }

  /** If word x passes level h, the table for it there has been opened. */
  ghost predicate OnPath(l: nat, st: State, x: seq<bool>, h: nat)
  {
    Depth(l, h) < |x| ==> exists t :: 0 <= t < |st.S| && st.HasPrefix(t, h, x[..Depth(l, h)])
  }

  /** Entering the word at position P. */
  lemma {:induction false} Fill(src: Source, cs: Codes, l: nat, st: State, t: nat, cw: seq<bool>)
    requires src.Wf() && Matches(cs, src.b) && st.Inv(src, cs, l) && CanFill(cs, l, st, t, cw)
    requires forall h :: OnPath(l, st, cw, h)
    ensures Filled(src, cs, l, st, t, cw).Inv(src, cs, l)
  {
    hide Start, Width, Leaf, FillTable;
    var st' := Filled(src, cs, l, st, t, cw);
    forall j, x, r | 0 <= j < |st'.S| ensures st'.LeafOK(src, cs, l, j, x, r) {
      FillLeaf(src, cs, l, st, t, cw, j, x, r);
    }
    forall i, j ensures st'.LinkOK(l, i, j) {
      FillLink(src, cs, l, st, t, cw, i, j);
    }
    forall j, r | 0 <= j < |st'.S| ensures st'.OnlyOK(cs, l, j, r) {
      FillOnly(src, cs, l, st, t, cw, j, r);
    }
    forall x, h ensures st'.PathOK(cs, l, x, h) {
      assert OnPath(l, st, cw, h);
      FillPath(src, cs, l, st, t, cw, x, h);
    }
  }
}
