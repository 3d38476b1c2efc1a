/** When the finished decoding tables decode every code word, and when they do not. */
module HuftDecode {
  import opened Bits
  import opened Canonical
  import opened HuftTable
  import opened HuftFill

  /** What a decoder should find for the word x. */
  ghost function Meaning(src: Source, cs: Codes, x: seq<bool>): Hit
    requires src.Wf() && Matches(cs, src.b) && cs.IsWord(x)
  {
    match Leaf(src, cs, x, 0)
    case Entry(e, b, v) => Found(e, v, b)
    case _ => Wild
  }

  /** The tables decode: any bits that begin with the word x lead to what x stands for. */
  ghost predicate Decodes(src: Source, cs: Codes, l: nat, T: seq<seq<Entry>>)
    requires src.Wf() && Matches(cs, src.b)
  {
    && LinksForward(T)
    && forall x, s :: cs.IsWord(x) && x <= s && |s| >= SCALE ==> Walk(T, 0, l, s) == Meaning(src, cs, x)
  }

  /** Some word ends strictly inside the level-h table that word x passes through. */
  ghost predicate Stops(cs: Codes, l: nat, x: seq<bool>, h: nat)
    requires cs.Wf() && Depth(l, h) <= |x|
  {
    exists y :: Under(cs, x[..Depth(l, h)], y) && Depth(l, h) < |y| < Depth(l, h + 1)
  }

  /** Below the first table no word passes through a table in which no shorter word ends. */
  ghost predicate LevelsOK(cs: Codes, l: nat)
    requires cs.Wf()
  {
    forall x, h :: cs.IsWord(x) && h >= 1 && |x| > Depth(l, h + 1) ==> PassesOK(cs, l, x, h)
  }

  ghost predicate PassesOK(cs: Codes, l: nat, x: seq<bool>, h: nat)
    requires cs.Wf()
  {
    |x| > Depth(l, h + 1) ==> Stops(cs, l, x, h)
  }

  /** The construction is finished: all words are entered and table 0 comes first. */
  ghost predicate Finished(src: Source, cs: Codes, l: nat, st: State)
    requires src.Wf() && Matches(cs, src.b)
  {
    && st.Inv(src, cs, l) && |st.S| > 0 && st.S[0].level == 0
    && forall x :: cs.IsWord(x) ==> Start(x) < st.P
  }

  lemma {:induction false} EndIsNoLink(src: Source, cs: Codes, l: nat, st: State, t: nat, x: seq<bool>, r: seq<bool>)
    requires src.Wf() && Matches(cs, src.b) && st.Inv(src, cs, l)
    requires t < |st.S| && |r| == st.S[t].bits && st.Ends(cs, l, t, x, r)
    ensures !IsLink(st.T[t][Val(r)])
  {
    hide Val, Start, Leaf, TabOK;
    assert st.LeafOK(src, cs, l, t, x, r);
  }

  lemma {:induction false} Forward(src: Source, cs: Codes, l: nat, st: State)
    requires src.Wf() && Matches(cs, src.b) && st.Inv(src, cs, l)
    ensures LinksForward(st.T)
  {
    hide Val, Start, Leaf, Width, TabOK;
    forall t, i | 0 <= t < |st.T| && 0 <= i < |st.T[t]| && IsLink(st.T[t][i])
      ensures t < st.T[t][i].v < |st.T|
    {
      var r := Low(i, st.S[t].bits);
      LowVal(i, st.S[t].bits);
      assert st.OnlyOK(cs, l, t, r);
      if x :| st.Ends(cs, l, t, x, r) {
        EndIsNoLink(src, cs, l, st, t, x, r);
        assert false;
      } else {
        var j: nat :| st.Child(l, t, j) && st.IsIndexOf(l, t, j, r);
        assert st.LinkOK(l, t, j);
        ValZeros(st.S[j].pre[|st.S[t].pre|..], |r| - l);
      }
    }
  }

  /** Table t can be indexed by n bits, its entries dump some of them, and the tables its links
      lead to are as good; no table is indexed by more than cap bits. */
  ghost predicate Fits(T: seq<seq<Entry>>, t: nat, n: nat, cap: nat)
    decreases |T| - t
  {
    && t < |T| && Pow2(n) <= |T[t]| && n <= cap
    && forall i :: 0 <= i < Pow2(n) && T[t][i].Entry? ==>
         && 1 <= T[t][i].b <= n
         && (IsLink(T[t][i]) ==> t < T[t][i].v && Fits(T, T[t][i].v, T[t][i].e - LITERAL, cap))
  }

  lemma {:induction false} WrittenEntry(src: Source, cs: Codes, l: nat, st: State, t: nat, r: seq<bool>)
    requires src.Wf() && Matches(cs, src.b) && st.Inv(src, cs, l)
    requires t < |st.S| && |r| == st.S[t].bits && st.T[t][Val(r)].Entry?
    ensures var x := st.T[t][Val(r)];
      && 1 <= x.b <= l && x.b <= st.S[t].bits
      && (IsLink(x) ==> t < x.v < |st.S| && x.e == LITERAL + st.S[x.v].bits && st.S[x.v].level >= 1)
  {
    hide Val, Start, Width, TabOK;
    assert st.OnlyOK(cs, l, t, r);
    if x :| st.Ends(cs, l, t, x, r) {
      assert st.LeafOK(src, cs, l, t, x, r);
    } else {
      var j: nat :| st.Child(l, t, j) && st.IsIndexOf(l, t, j, r);
      assert st.LinkOK(l, t, j);
      ValZeros(st.S[j].pre[|st.S[t].pre|..], |r| - l);
    }
  }

  /** The most bits a table is indexed by. */
  function IndexCap(g: nat, l: nat): nat
  {
    if g <= 2 * l then l else g - l
  }

  lemma {:induction false} TablesFit(src: Source, cs: Codes, l: nat, st: State, t: nat, n: nat)
    requires src.Wf() && Matches(cs, src.b) && st.Inv(src, cs, l)
    requires t < |st.S| && n == if st.S[t].level == 0 then l else st.S[t].bits
    requires n <= st.S[t].bits
    ensures Fits(st.T, t, n, IndexCap(cs.g, l))
    decreases |st.T| - t
  {
    hide Val, Start, Leaf, Width, Pow2;
    Pow2Mono(n, st.S[t].bits);
    assert TabOK(cs, l, st.S[t]);
    if st.S[t].level > 1 { DepthMono(l, 1, st.S[t].level); }
    assert Depth(l, 1) == Depth(l, 0) + l == l;
    forall i | 0 <= i < Pow2(n) && st.T[t][i].Entry?
      ensures 1 <= st.T[t][i].b <= n
      ensures IsLink(st.T[t][i]) ==>
        t < st.T[t][i].v && Fits(st.T, st.T[t][i].v, st.T[t][i].e - LITERAL, IndexCap(cs.g, l))
    {
      var r := Low(i, st.S[t].bits);
      LowVal(i, st.S[t].bits);
      WrittenEntry(src, cs, l, st, t, r);
      if IsLink(st.T[t][i]) {
        var j := st.T[t][i].v;
        TablesFit(src, cs, l, st, j, st.S[j].bits);
      }
    }
  }

  lemma {:induction false} Deep(cs: Codes, l: nat, tab: Tab)
    requires cs.Wf() && TabOK(cs, l, tab) && tab.level >= 1
    ensures cs.g > l
  {
    hide Start;
    assert Depth(l, 1) == Depth(l, 0) + l == l;
    if tab.level > 1 { DepthMono(l, 1, tab.level); }
  }

  /** With all words within the first table there is only the first table. */
  lemma {:induction false} NoLinks(src: Source, cs: Codes, l: nat, st: State)
    requires src.Wf() && Matches(cs, src.b) && st.Inv(src, cs, l) && cs.g <= l
    ensures forall t, i :: 0 <= t < |st.T| && 0 <= i < |st.T[t]| ==> !IsLink(st.T[t][i])
  {
    hide Val, Start, Leaf, Width, Pow2, TabOK;
    forall t, i | 0 <= t < |st.T| && 0 <= i < |st.T[t]| ensures !IsLink(st.T[t][i]) {
      var r := Low(i, st.S[t].bits);
      LowVal(i, st.S[t].bits);
      if IsLink(st.T[t][i]) {
        WrittenEntry(src, cs, l, st, t, r);
        Deep(cs, l, st.S[st.T[t][i].v]);
        assert false;
      }
    }
  }

  /** Table t is on the way of word x, and is indexed by n bits. */
  ghost predicate OnWay(l: nat, st: State, x: seq<bool>, t: nat, n: nat)
  {
    && t < |st.S| && st.S[t].pre <= x && |st.S[t].pre| < |x|
    && n == if st.S[t].level == 0 then l else st.S[t].bits
  }

  lemma {:induction false} LookupFits(cs: Codes, l: nat, st: State, x: seq<bool>, t: nat, n: nat)
    requires cs.Wf() && cs.IsWord(x) && 1 <= l <= cs.g && st.Sized() && st.Shapes(cs, l) && OnWay(l, st, x, t, n)
    ensures n <= st.S[t].bits && |st.S[t].pre| + n <= SCALE
    ensures st.S[t].bits < l ==> |x| <= |st.S[t].pre| + st.S[t].bits
    ensures |st.S[t].pre| == Depth(l, st.S[t].level)
  {
    hide Start;
    var tab := st.S[t];
    assert TabOK(cs, l, tab);
    assert Under(cs, tab.pre, x);
    if tab.level == 0 && tab.bits < l {
      var z := Code(First(cs.cnt, cs.g), cs.g);
      assert cs.Fits(cs.g);
      MsbCode(First(cs.cnt, cs.g), cs.g);
    }
  }

  /** A word that ends in the table where the walk stands is found. */
  lemma {:induction false} FindHere(src: Source, cs: Codes, l: nat, st: State, x: seq<bool>, s: seq<bool>, t: nat,
                                    n: nat)
    requires src.Wf() && Matches(cs, src.b) && st.Inv(src, cs, l) && LinksForward(st.T)
    requires cs.IsWord(x) && Start(x) < st.P && x <= s && |s| >= SCALE && OnWay(l, st, x, t, n)
    requires |x| <= |st.S[t].pre| + l
    ensures |x| <= |st.S[t].pre| + n <= SCALE
    ensures Val(s[|st.S[t].pre|..][..n]) < |st.T[t]|
    ensures st.T[t][Val(s[|st.S[t].pre|..][..n])] == Leaf(src, cs, x, |st.S[t].pre|)
  {
    hide Val, Start, Leaf, Width, TabOK;
    LookupFits(cs, l, st, x, t, n);
    var pre := st.S[t].pre;
    var q := s[|pre|..][..n];
    var r := q + Zeros(st.S[t].bits - n);
    ValZeros(q, st.S[t].bits - n);
    assert x <= pre + r by {
      assert pre + q == s[..|pre| + n];
      assert pre + r == pre + q + Zeros(st.S[t].bits - n);
    }
    assert st.LeafOK(src, cs, l, t, x, r);
  }

  /** A word that goes on beyond the table where the walk stands has a link there. */
  lemma {:induction false} LinkHere(src: Source, cs: Codes, l: nat, st: State, x: seq<bool>, s: seq<bool>, t: nat)
      returns (j: nat)
    requires src.Wf() && Matches(cs, src.b) && st.Inv(src, cs, l)
    requires cs.IsWord(x) && Start(x) < st.P && x <= s && |s| >= SCALE && OnWay(l, st, x, t, l)
    requires |x| > |st.S[t].pre| + l
    ensures j < |st.S| && OnWay(l, st, x, j, st.S[j].bits) && t < j && |st.S[j].pre| == |st.S[t].pre| + l
    ensures Val(s[|st.S[t].pre|..][..l]) < |st.T[t]|
    ensures st.T[t][Val(s[|st.S[t].pre|..][..l])] == Entry(LITERAL + st.S[j].bits, l, j)
  {
    hide Val, Start, Leaf, Width, TabOK;
    LookupFits(cs, l, st, x, t, l);
    var pre, h := st.S[t].pre, st.S[t].level;
    assert st.PathOK(cs, l, x, h + 1);
    assert Depth(l, h + 1) == |pre| + l;
    j :| 0 <= j < |st.S| && st.HasPrefix(j, h + 1, x[..Depth(l, h + 1)]);
    assert pre <= x[..Depth(l, h + 1)] by { assert pre == x[..|pre|]; }
    assert st.Child(l, t, j);
    assert st.LinkOK(l, t, j);
    assert s[|pre|..][..l] == x[..|pre| + l][|pre|..];
  }

  /** Below the first table, a passed table is exactly full size. */
  lemma {:induction false} FullSize(cs: Codes, l: nat, st: State, x: seq<bool>, t: nat, n: nat)
    requires cs.Wf() && LevelsOK(cs, l) && 1 <= l <= cs.g && st.Sized() && st.Shapes(cs, l)
    requires cs.IsWord(x) && OnWay(l, st, x, t, n) && |x| > |st.S[t].pre| + l
    ensures n == l
  {
    hide Start;
    LookupFits(cs, l, st, x, t, n);
    var tab := st.S[t];
    assert TabOK(cs, l, tab);
    if tab.level > 0 && tab.bits > l {
      assert Depth(l, tab.level + 1) == |tab.pre| + l;
      assert PassesOK(cs, l, x, tab.level);
      var y :| Under(cs, x[..Depth(l, tab.level)], y) && Depth(l, tab.level) < |y| < Depth(l, tab.level + 1);
      assert tab.pre == x[..|tab.pre|];
      StartPrefix(tab.pre, y);
      cs.LaterLonger(tab.wit, y);
      assert false;
    }
  }

  lemma {:induction false} LeafShift(src: Source, cs: Codes, x: seq<bool>, base: nat)
    requires src.Wf() && Matches(cs, src.b) && cs.IsWord(x) && base <= |x|
    ensures match Leaf(src, cs, x, base)
            case Entry(e, b, v) => Meaning(src, cs, x) == Found(e, v, base + b) && base + b == |x|
            case _ => Meaning(src, cs, x) == Wild
  {
  }

  lemma {:induction false} WalkFinds(src: Source, cs: Codes, l: nat, st: State, x: seq<bool>, s: seq<bool>, t: nat,
                                     n: nat)
    requires src.Wf() && Matches(cs, src.b) && st.Inv(src, cs, l) && LinksForward(st.T) && LevelsOK(cs, l)
    requires cs.IsWord(x) && Start(x) < st.P && x <= s && |s| >= SCALE && OnWay(l, st, x, t, n)
    ensures Walk(st.T, t, n, s[|st.S[t].pre|..]).After(|st.S[t].pre|) == Meaning(src, cs, x)
    decreases |st.T| - t
  {
    hide Val, Start, Leaf, Width, TabOK, Meaning, LevelsOK, Walk;
    var pre := st.S[t].pre;
    var q := s[|pre|..];
    if |x| <= |pre| + l {
      FindHere(src, cs, l, st, x, s, t, n);
      LeafShift(src, cs, x, |pre|);
      WalkStep(st.T, t, n, q, st.T[t][Val(q[..n])]);
    } else {
      FullSize(cs, l, st, x, t, n);
      var j := LinkHere(src, cs, l, st, x, s, t);
      WalkFinds(src, cs, l, st, x, s, j, st.S[j].bits);
      assert q[l..] == s[|pre| + l..];
      assert TabOK(cs, l, st.S[j]);
      LookupFits(cs, l, st, x, t, n);
      TabBitsSmall(cs, l, st.S[j]);
      WalkStep(st.T, t, n, q, st.T[t][Val(q[..n])]);
    }
  }

  /** A link's operation code is never taken for the invalid marker. */
  lemma {:induction false} TabBitsSmall(cs: Codes, l: nat, tab: Tab)
    requires cs.Wf() && TabOK(cs, l, tab)
    ensures 1 <= tab.bits <= SCALE
  {
  }

  /** The tables decode every word if no level below the first is skipped. */
  lemma {:induction false} DecodesIf(src: Source, cs: Codes, l: nat, st: State)
    requires src.Wf() && Matches(cs, src.b) && Finished(src, cs, l, st) && LevelsOK(cs, l)
    ensures Decodes(src, cs, l, st.T)
  {
    hide Val, Start, Leaf, Width, Meaning, LevelsOK;
    Forward(src, cs, l, st);
    forall x, s | cs.IsWord(x) && x <= s && |s| >= SCALE
      ensures Walk(st.T, 0, l, s) == Meaning(src, cs, x)
    {
      assert TabOK(cs, l, st.S[0]);
      assert OnWay(l, st, x, 0, l);
      assert s[|st.S[0].pre|..] == s;
      WalkFinds(src, cs, l, st, x, s, 0, l);
    }
  }

  // ----- a skipped level loses words -----

  /** In a table that the word y passes, a written entry that agrees with y is the link to y's
      next table, and its bits beyond the full size are zero. */
  lemma {:induction false} WrittenIsLink(src: Source, cs: Codes, l: nat, st: State, y: seq<bool>, t: nat, n: nat,
                                         r: seq<bool>)
      returns (j: nat)
    requires src.Wf() && Matches(cs, src.b) && st.Inv(src, cs, l)
    requires cs.IsWord(y) && OnWay(l, st, y, t, n) && |y| > |st.S[t].pre| + l
    requires |r| == st.S[t].bits >= l && y[..|st.S[t].pre| + l] == st.S[t].pre + r[..l]
    requires st.T[t][Val(r)] != Unset
    ensures j < |st.S| && Next(l, st, y, t, j)
    ensures st.T[t][Val(r)] == Entry(LITERAL + st.S[j].bits, l, j)
    ensures l < |r| ==> !r[l]
  {
    hide Val, Start, Leaf, Width, TabOK;
    assert st.OnlyOK(cs, l, t, r);
    var pre := st.S[t].pre;
    if x :| st.Ends(cs, l, t, x, r) {
      assert x <= pre + r[..l] <= y;
      cs.PrefixFree(x, y);
      assert false;
    } else {
      j :| st.Child(l, t, j) && st.IsIndexOf(l, t, j, r);
      assert st.LinkOK(l, t, j);
      var r0 := st.S[j].pre[|pre|..];
      ValZeros(r0, |r| - l);
      assert r[..l] == r0;
      assert st.S[j].pre == pre + r0;
    }
  }

  /** The first l bits after pre, looked up with n bits and topped up. */
  lemma {:induction false} Pieces(y: seq<bool>, s: seq<bool>, pre: seq<bool>, l: nat, n: nat, z: seq<bool>)
    requires pre <= y <= s && |pre| + l <= |y| && l <= n && |pre| + n <= |s|
    ensures y[..|pre| + l] == pre + (s[|pre|..][..n] + z)[..l]
  {
    var q, r := s[|pre|..][..n], s[|pre|..][..n] + z;
    assert r[..l] == q[..l];
    assert forall i :: 0 <= i < l ==> q[i] == y[|pre| + i];
  }

  /** Where the walk along s stands in a table that the word y passes, it finds a link to y's
      next table or unwritten storage, and only unwritten storage at an over-size table whose
      extra bits are not all zero. */
  lemma {:induction false} LinkOrUnset(src: Source, cs: Codes, l: nat, st: State, y: seq<bool>, s: seq<bool>, t: nat,
                                       n: nat)
    requires src.Wf() && Matches(cs, src.b) && st.Inv(src, cs, l)
    requires cs.IsWord(y) && y <= s && |s| >= SCALE && OnWay(l, st, y, t, n)
    requires |y| > |st.S[t].pre| + l
    ensures |st.S[t].pre| + n <= SCALE && Val(s[|st.S[t].pre|..][..n]) < |st.T[t]|
    ensures st.T[t][Val(s[|st.S[t].pre|..][..n])] == Unset
      || exists j :: 0 <= j < |st.S| && Next(l, st, y, t, j)
                     && st.T[t][Val(s[|st.S[t].pre|..][..n])] == Entry(LITERAL + st.S[j].bits, l, j)
    ensures l < n && s[|st.S[t].pre| + l] ==> st.T[t][Val(s[|st.S[t].pre|..][..n])] == Unset
  {
    hide Val, Start, Leaf, Width, TabOK;
    LookupFits(cs, l, st, y, t, n);
    var pre := st.S[t].pre;
    var q := s[|pre|..][..n];
    var r := q + Zeros(st.S[t].bits - n);
    ValZeros(q, st.S[t].bits - n);
    if st.T[t][Val(r)] != Unset {
      assert n >= l;
      Pieces(y, s, pre, l, n, Zeros(st.S[t].bits - n));
      var j := WrittenIsLink(src, cs, l, st, y, t, n, r);
    }
  }

  ghost predicate Next(l: nat, st: State, y: seq<bool>, t: nat, j: nat)
    requires t < |st.S| && j < |st.S|
  {
    && t < j && |st.S[j].pre| == |st.S[t].pre| + l && st.S[j].level == st.S[t].level + 1
    && OnWay(l, st, y, j, st.S[j].bits)
  }

  /** A walk along s is lost at level h if the table there is over size and its extra bit is set. */
  lemma {:induction false} WalkLost(src: Source, cs: Codes, l: nat, st: State, y: seq<bool>, s: seq<bool>,
                                    t: nat, n: nat, h: nat)
    requires src.Wf() && Matches(cs, src.b) && st.Inv(src, cs, l) && LinksForward(st.T)
    requires cs.IsWord(y) && y <= s && |s| >= SCALE && OnWay(l, st, y, t, n)
    requires |y| > Depth(l, h + 1) && st.S[t].level <= h && s[Depth(l, h + 1)]
    requires OverSize(l, st, y, h)
    ensures Walk(st.T, t, n, s[|st.S[t].pre|..]) == Wild
    decreases |st.T| - t
  {
    hide Val, Start, Leaf, Width, TabOK, Walk;
    var pre := st.S[t].pre;
    var q := s[|pre|..];
    LookupFits(cs, l, st, y, t, n);
    if st.S[t].level < h {
      DepthMono(l, st.S[t].level, h);
      assert |y| > |pre| + l;
    } else {
      assert HasShape(l, st, y, t, h);
      assert pre == y[..Depth(l, h)];
      assert l < n;
    }
    LinkOrUnset(src, cs, l, st, y, s, t, n);
    WalkStep(st.T, t, n, q, st.T[t][Val(q[..n])]);
    if st.T[t][Val(q[..n])] != Unset {
      var j :| 0 <= j < |st.S| && Next(l, st, y, t, j)
               && st.T[t][Val(q[..n])] == Entry(LITERAL + st.S[j].bits, l, j);
      WalkLost(src, cs, l, st, y, s, j, st.S[j].bits, h);
      assert q[l..] == s[|pre| + l..];
      assert TabOK(cs, l, st.S[j]);
      TabBitsSmall(cs, l, st.S[j]);
    }
  }

  ghost predicate HasShape(l: nat, st: State, y: seq<bool>, t: nat, h: nat)
    requires t < |st.S| && Depth(l, h) <= |y|
  {
    st.S[t].level == h && st.S[t].pre == y[..Depth(l, h)]
  }

  ghost predicate OverSize(l: nat, st: State, y: seq<bool>, h: nat)
    requires Depth(l, h) <= |y|
  {
    h >= 1 && forall t :: 0 <= t < |st.S| && HasShape(l, st, y, t, h) ==> l < st.S[t].bits
  }

  /** A passed table in which no shorter word ends is over size. */
  lemma {:induction false} SkippedIsOverSize(src: Source, cs: Codes, l: nat, st: State, x: seq<bool>, y: seq<bool>,
                                             h: nat)
    requires src.Wf() && Matches(cs, src.b) && st.Inv(src, cs, l)
    requires cs.IsWord(x) && h >= 1 && |x| > Depth(l, h + 1) && !Stops(cs, l, x, h)
    requires Depth(l, h) <= |y| && x[..Depth(l, h)] == y[..Depth(l, h)]
    ensures OverSize(l, st, y, h)
  {
    hide Start, Leaf;
    forall t | 0 <= t < |st.S| && HasShape(l, st, y, t, h)
      ensures l < st.S[t].bits
    {
      var tab := st.S[t];
      assert TabOK(cs, l, tab);
      assert tab.pre <= x;
      assert Under(cs, tab.pre, x);
      assert |tab.wit| >= Depth(l, h + 1);
    }
  }

  /** A word that agrees with x for n bits and goes on with a one. */
  lemma {:induction false} WordBeyond(cs: Codes, x: seq<bool>, n: nat) returns (y: seq<bool>, s: seq<bool>)
    requires cs.Wf() && cs.Complete() && cs.IsWord(x) && n < |x|
    ensures cs.IsWord(y) && y <= s && |s| == SCALE && s[n] && |y| > n && y[..n] == x[..n]
  {
    hide Start, Width, Msb, First, Zeros;
    var p := x[..n];
    s := p + [true] + Zeros(SCALE - n - 1);
    y := cs.Cover(s);
    assert p <= s;
    Comparable(p, y, s);
    if y <= p {
      cs.PrefixFree(y, x);
      assert false;
    }
  }

  /** A complete code with a skipped level has a word that the tables do not decode. */
  lemma {:induction false} LostWord(src: Source, cs: Codes, l: nat, st: State, x: seq<bool>, h: nat)
      returns (y: seq<bool>, s: seq<bool>)
    requires src.Wf() && Matches(cs, src.b) && Finished(src, cs, l, st)
    requires cs.IsWord(x) && h >= 1 && |x| > Depth(l, h + 1) && !Stops(cs, l, x, h)
    ensures cs.IsWord(y) && y <= s && |s| >= SCALE && LinksForward(st.T)
    ensures Walk(st.T, 0, l, s) == Wild
  {
    hide Val, Start, Leaf, Width, Walk, Msb, First;
    Forward(src, cs, l, st);
    y, s := WordBeyond(cs, x, Depth(l, h + 1));
    DepthMono(l, h, h + 1);
    assert y[..Depth(l, h)] == y[..Depth(l, h + 1)][..Depth(l, h)] == x[..Depth(l, h)];
    SkippedIsOverSize(src, cs, l, st, x, y, h);
    assert TabOK(cs, l, st.S[0]);
    assert OnWay(l, st, y, 0, l);
    assert s[|st.S[0].pre|..] == s;
    WalkLost(src, cs, l, st, y, s, 0, l, h);
  }

  /** Without topping up, every word belongs to a symbol. */
  lemma {:induction false} AllFound(src: Source, cs: Codes, x: seq<bool>)
    requires src.Wf() && Matches(cs, src.b) && cs.IsWord(x)
    requires cs.cnt[cs.g] == Count(src.b, cs.g)
    ensures Meaning(src, cs, x).Found?
  {
    hide Count, First, Msb;
  }

  /** For a complete list of code lengths, the tables decode every symbol exactly if no level
      below the first is skipped. */
  lemma {:induction false} DecodesIff(src: Source, cs: Codes, l: nat, st: State)
    requires src.Wf() && Matches(cs, src.b) && Finished(src, cs, l, st)
    requires cs.cnt[cs.g] == Count(src.b, cs.g)
    ensures Decodes(src, cs, l, st.T) <==> LevelsOK(cs, l)
  {
    hide Val, Start, Width, Finished, Walk, Meaning, Leaf;
    if LevelsOK(cs, l) {
      DecodesIf(src, cs, l, st);
    } else {
      var x, h :| cs.IsWord(x) && h >= 1 && |x| > Depth(l, h + 1) && !PassesOK(cs, l, x, h);
      var y, s := LostWord(src, cs, l, st, x, h);
      AllFound(src, cs, y);
    }
  }

  /** A word of the topped-up code set that belongs to no symbol. */
  ghost predicate IsDummy(src: Source, cs: Codes, x: seq<bool>)
    requires src.Wf() && Matches(cs, src.b)
  {
    cs.IsWord(x) && Msb(x) - First(cs.cnt, |x|) >= Count(src.b, |x|)
  }

  /** For an incomplete list of code lengths, the words that belong to no symbol are all marked
      invalid exactly if no length is zero. */
  lemma {:induction false} DummiesInvalidIff(src: Source, cs: Codes)
    requires src.Wf() && Matches(cs, src.b) && cs.cnt[cs.g] > Count(src.b, cs.g)
    ensures (forall x :: IsDummy(src, cs, x) ==> Meaning(src, cs, x) == Found(INVALID, 0, |x|)) <==>
            Count(src.b, 0) == 0
  {
    hide Pow2, Nth;
    var g, n := cs.g, Count(src.b, cs.g);
    var c := First(cs.cnt, g) + n;
    assert cs.Fits(g);
    var x := Code(c, g);
    MsbCode(c, g);
    assert IsDummy(src, cs, x);
    forall y | IsDummy(src, cs, y) && Count(src.b, 0) == 0 ensures Meaning(src, cs, y) == Found(INVALID, 0, |y|) {
      assert Leaf(src, cs, y, 0) == Entry(INVALID, |y|, 0);
    }
    if Count(src.b, 0) > 0 {
      assert Meaning(src, cs, x) == Wild;
    }
  }
}
