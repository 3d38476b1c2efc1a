/** Opening a new decoding table keeps the invariant of the tables. */
module HuftOpen {
  import opened Bits
  import opened Canonical
  import opened HuftTable
  import opened HuftFill

  function NewTable(bits: nat): (table: seq<Entry>)
    ensures |table| == Pow2(bits)
    ensures forall i :: 0 <= i < |table| ==> table[i] == Unset
  {
    seq(Pow2(bits), i => Unset)
  }

  /** The first table, indexed by the first bits of every word. */
  lemma {:induction false} OpenRoot(src: Source, cs: Codes, l: nat, tab: Tab)
    requires src.Wf() && Matches(cs, src.b) && 1 <= l <= cs.g
    requires TabOK(cs, l, tab) && tab.level == 0
    ensures State([tab], [NewTable(tab.bits)], 0).Inv(src, cs, l)
  {
    hide Leaf;
  }

  /** Word cw, at position P, reaches beyond table t; its next table is not open yet. */
  ghost predicate CanOpen(cs: Codes, l: nat, st: State, t: nat, tab: Tab)
    requires cs.Wf() && st.Sized()
  {
    && TabOK(cs, l, tab) && Start(tab.pre) == st.P
    && t < |st.S| && tab.level == st.S[t].level + 1 && st.S[t].pre <= tab.pre
    && |tab.pre| == |st.S[t].pre| + l <= |st.S[t].pre| + st.S[t].bits
    && forall j :: 0 <= j < |st.S| ==> !(tab.pre <= st.S[j].pre)
  }

  ghost function LinkIndex(st: State, t: nat, tab: Tab): nat
    requires t < |st.S| && |st.S[t].pre| <= |tab.pre|
  {
    Val(tab.pre[|st.S[t].pre|..])
  }

  lemma {:induction false} LinkIndexBound(cs: Codes, l: nat, st: State, t: nat, tab: Tab)
    requires cs.Wf() && st.Sized() && CanOpen(cs, l, st, t, tab)
    ensures LinkIndex(st, t, tab) < |st.T[t]|
  {
    hide Val, Start;
    Pow2Mono(l, st.S[t].bits);
  }

  ghost function Opened(cs: Codes, l: nat, st: State, t: nat, tab: Tab): (st': State)
    requires cs.Wf() && st.Sized() && CanOpen(cs, l, st, t, tab)
    ensures st'.Sized()
  {
    LinkIndexBound(cs, l, st, t, tab);
    var link := Entry(LITERAL + tab.bits, l, |st.T|);
    State(st.S + [tab],
          st.T[t := st.T[t][LinkIndex(st, t, tab) := link]] + [NewTable(tab.bits)],
          st.P)
  }

  /** The entries that share the link's index begin with its bits. */
  lemma {:induction false} AtLink(r0: seq<bool>, r: seq<bool>)
    requires |r0| <= |r| && Val(r0) == Val(r)
    ensures r == r0 + Zeros(|r| - |r0|)
  {
    ValZeros(r0, |r| - |r0|);
    ValInjective(r, r0 + Zeros(|r| - |r0|));
  }

  /** A link does not displace a word that ends in the same table. */
  lemma {:induction false} LeafNotAtLink(cs: Codes, l: nat, st: State, t: nat, tab: Tab, x: seq<bool>, r: seq<bool>)
    requires cs.Wf() && st.Sized() && CanOpen(cs, l, st, t, tab)
    requires cs.IsWord(x) && |x| <= |st.S[t].pre| + l && |r| == st.S[t].bits && x <= st.S[t].pre + r
    ensures Val(r) != LinkIndex(st, t, tab)
  {
    hide Val, Start;
    var pre := st.S[t].pre;
    var r0 := tab.pre[|pre|..];
    if Val(r) == Val(r0) {
      AtLink(r0, r);
      assert (pre + r)[..|pre| + l] == pre + r0 == tab.pre;
      assert x <= tab.pre;
      cs.PrefixFree(x, tab.wit);
      assert false;
    }
  }

  lemma {:induction false} OpenLeaf(src: Source, cs: Codes, l: nat, st: State, t: nat, tab: Tab,
                                    j: nat, x: seq<bool>, r: seq<bool>)
    requires src.Wf() && Matches(cs, src.b) && st.Inv(src, cs, l) && CanOpen(cs, l, st, t, tab)
    requires j < |st.S| + 1
    ensures Opened(cs, l, st, t, tab).LeafOK(src, cs, l, j, x, r)
  {
    hide Val, Start, Leaf, NewTable, Width, TabOK;
    var st' := Opened(cs, l, st, t, tab);
    var pre := st'.S[j].pre;
    if cs.IsWord(x) && Start(x) < st.P && |pre| < |x| <= |pre| + l && |r| == st'.S[j].bits && x <= pre + r {
      if j == |st.S| {
        assert pre <= x;
        StartPrefix(pre, x);
        assert false;
      } else {
        assert st.LeafOK(src, cs, l, j, x, r);
        if j == t {
          LeafNotAtLink(cs, l, st, t, tab, x, r);
        }
      }
    }
  }

  lemma {:induction false} OldLink(src: Source, cs: Codes, l: nat, st: State, t: nat, tab: Tab, i: nat, j: nat)
    requires src.Wf() && Matches(cs, src.b) && st.Inv(src, cs, l) && CanOpen(cs, l, st, t, tab)
    requires st.Child(l, i, j)
    ensures Opened(cs, l, st, t, tab).LinkOK(l, i, j)
  {
    hide Val, Start, Leaf, NewTable, Width, Depth, TabOK;
    assert st.LinkOK(l, i, j);
    var pre, p, q := st.S[i].pre, st.S[j].pre, tab.pre;
    if i == t && Val(p[|pre|..]) == LinkIndex(st, t, tab) {
      ValInjective(p[|pre|..], q[|pre|..]);
      assert false;
    }
  }

  lemma {:induction false} OnlyParent(src: Source, cs: Codes, l: nat, st: State, t: nat, tab: Tab, i: nat)
    requires src.Wf() && Matches(cs, src.b) && st.Inv(src, cs, l) && CanOpen(cs, l, st, t, tab)
    requires i < |st.S| && tab.level == st.S[i].level + 1 && st.S[i].pre <= tab.pre
    ensures i == t
  {
    hide Start, Leaf, Depth;
    assert TabOK(cs, l, st.S[i]) && TabOK(cs, l, st.S[t]);
    assert st.S[i].pre == tab.pre[..|st.S[t].pre|] == st.S[t].pre;
  }

  lemma {:induction false} OpenLink(src: Source, cs: Codes, l: nat, st: State, t: nat, tab: Tab, i: nat, j: nat)
    requires src.Wf() && Matches(cs, src.b) && st.Inv(src, cs, l) && CanOpen(cs, l, st, t, tab)
    ensures Opened(cs, l, st, t, tab).LinkOK(l, i, j)
  {
    hide Val, Start, Leaf, NewTable, Width, Depth, TabOK;
    var st' := Opened(cs, l, st, t, tab);
    if st'.Child(l, i, j) {
      if i < |st.S| && j < |st.S| {
        assert st.Child(l, i, j);
        OldLink(src, cs, l, st, t, tab, i, j);
      } else if i < |st.S| {
        OnlyParent(src, cs, l, st, t, tab, i);
        LinkIndexBound(cs, l, st, t, tab);
      }
    }
  }

  lemma {:induction false} OldOnly(src: Source, cs: Codes, l: nat, st: State, t: nat, tab: Tab, j: nat, r: seq<bool>)
    requires src.Wf() && Matches(cs, src.b) && st.Inv(src, cs, l) && CanOpen(cs, l, st, t, tab)
    requires j < |st.S| && |r| == st.S[j].bits && st.T[j][Val(r)] != Unset
    ensures Opened(cs, l, st, t, tab).OnlyOK(cs, l, j, r)
  {
    hide Val, Start, Leaf, Width, Depth, TabOK, NewTable;
    var st' := Opened(cs, l, st, t, tab);
    assert st.OnlyOK(cs, l, j, r);
    if x :| st.Ends(cs, l, j, x, r) {
      assert st'.Ends(cs, l, j, x, r);
    } else {
      var i: nat :| st.Child(l, j, i) && st.IsIndexOf(l, j, i, r);
      assert st'.Child(l, j, i) && st'.IsIndexOf(l, j, i, r);
    }
  }

  lemma {:induction false} OpenOnly(src: Source, cs: Codes, l: nat, st: State, t: nat, tab: Tab, j: nat, r: seq<bool>)
    requires src.Wf() && Matches(cs, src.b) && st.Inv(src, cs, l) && CanOpen(cs, l, st, t, tab)
    requires j < |st.S| + 1
    ensures Opened(cs, l, st, t, tab).OnlyOK(cs, l, j, r)
  {
    hide Val, Start, Leaf, Width, Depth, TabOK;
    var st' := Opened(cs, l, st, t, tab);
    if |r| == st'.S[j].bits && st'.T[j][Val(r)] != Unset {
      assert j < |st.S|;
      if j == t && Val(r) == LinkIndex(st, t, tab) {
        AtLink(tab.pre[|st.S[t].pre|..], r);
        assert st'.Child(l, j, |st.S|) && st'.IsIndexOf(l, j, |st.S|, r);
      } else {
        OldOnly(src, cs, l, st, t, tab, j, r);
      }
    }
  }

  lemma {:induction false} OpenPath(src: Source, cs: Codes, l: nat, st: State, t: nat, tab: Tab, x: seq<bool>, h: nat)
    requires src.Wf() && Matches(cs, src.b) && st.Inv(src, cs, l) && CanOpen(cs, l, st, t, tab)
    ensures Opened(cs, l, st, t, tab).PathOK(cs, l, x, h)
  {
    hide Val, Start, Leaf, Width, NewTable;
    var st' := Opened(cs, l, st, t, tab);
    assert st.PathOK(cs, l, x, h);
    if cs.IsWord(x) && Start(x) < st.P && Depth(l, h) < |x| {
      var i :| 0 <= i < |st.S| && st.HasPrefix(i, h, x[..Depth(l, h)]);
      assert st'.HasPrefix(i, h, x[..Depth(l, h)]);
    }
  }

  /** Opening the next table for the word at position P. */
  lemma {:induction false} Open(src: Source, cs: Codes, l: nat, st: State, t: nat, tab: Tab)
    requires src.Wf() && Matches(cs, src.b) && st.Inv(src, cs, l) && CanOpen(cs, l, st, t, tab)
    ensures Opened(cs, l, st, t, tab).Inv(src, cs, l)
  {
    hide Start, Width, Leaf, NewTable, Val;
    var st' := Opened(cs, l, st, t, tab);
    forall j, x, r | 0 <= j < |st'.S| ensures st'.LeafOK(src, cs, l, j, x, r) {
      OpenLeaf(src, cs, l, st, t, tab, j, x, r);
    }
    forall i, j ensures st'.LinkOK(l, i, j) {
      OpenLink(src, cs, l, st, t, tab, i, j);
    }
    forall j, r | 0 <= j < |st'.S| ensures st'.OnlyOK(cs, l, j, r) {
      OpenOnly(src, cs, l, st, t, tab, j, r);
    }
    forall x, h ensures st'.PathOK(cs, l, x, h) {
      OpenPath(src, cs, l, st, t, tab, x, h);
    }
  }
}
