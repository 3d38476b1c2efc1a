/** huft_build of kernel/boot/linux/inflate.c: decoding tables from a list of code lengths. */
module HuftBuild {
  import opened Bits
  import opened Canonical
  import opened HuftTable
  import opened HuftFill
  import opened HuftOpen
  import opened HuftDecode
  import opened CodeSet
  import opened HuftPrep
  import opened HuftSteps

  /** The variables of the table-making loop: the tables, the stack u of open ones with the
      patterns x they were opened for, level h, w bits before this level, current table q. */
  datatype Build = Build(T: seq<seq<Entry>>, u: seq<nat>, x: seq<nat>, h: int, w: int, q: nat)

  /** Open table j is the one for the first bits of cw. */
  ghost predicate Level(l: nat, st: State, d: Build, j: nat, cw: seq<bool>)
    requires j < |d.u| && j < |d.x|
  {
    && d.u[j] < |st.S| && st.S[d.u[j]].level == j
    && Depth(l, j) < |cw| && st.S[d.u[j]].pre == cw[..Depth(l, j)]
    && d.x[j] == Val(st.S[d.u[j]].pre)
  }

  ghost predicate OnStack(l: nat, st: State, d: Build, cw: seq<bool>)
    requires d.h < |d.u| && d.h < |d.x|
  {
    forall j :: 0 <= j <= d.h ==> Level(l, st, d, j, cw)
  }

  ghost predicate IsOpen(d: Build, t: nat)
    requires d.h < |d.u|
  {
    exists j :: 0 <= j <= d.h && d.u[j] == t
  }

  ghost predicate ClosedBefore(st: State, t: nat)
    requires t < |st.S| && |st.S[t].pre| <= SCALE
  {
    Start(st.S[t].pre) + Width(|st.S[t].pre|) <= st.P
  }

  /** Every table is open, or lies before the current position. */
  ghost predicate OthersClosed(st: State, d: Build)
    requires d.h < |d.u|
  {
    forall t :: 0 <= t < |st.S| ==> |st.S[t].pre| <= SCALE && (IsOpen(d, t) || ClosedBefore(st, t))
  }

  /** Code c of length k has no bits set beyond the first n. */
  ghost predicate TailZero(c: nat, k: nat, n: int)
  {
    0 <= n < k ==> Mask(c, k - n) == 0
  }

  /** Between two codes: c is the next code of length k. */
  ghost predicate Ready(src: Source, cs: Codes, l: nat, st: State, d: Build, k: nat, c: nat)
  {
    && src.Wf() && Matches(cs, src.b) && 1 <= l <= cs.g
    && 1 <= k <= cs.g && c <= Pow2(k) && st.P == At(c, k)
    && st.T == d.T && |d.u| == BMAX && |d.x| == BMAX + 1 && d.x[0] == 0
    && -1 <= d.h < BMAX
    && (d.h == -1 ==> d.w + l == 0 && st.S == [] && st.T == [] && c == 0)
    && (d.h >= 0 ==> Standing(src, cs, l, st, d, k, c))
  }

  ghost predicate Standing(src: Source, cs: Codes, l: nat, st: State, d: Build, k: nat, c: nat)
    requires src.Wf() && Matches(cs, src.b) && 1 <= l <= cs.g
    requires |d.u| == BMAX && |d.x| == BMAX + 1 && 0 <= d.h < BMAX
  {
    && st.Inv(src, cs, l) && |st.S| > 0 && st.S[0].level == 0
    && d.w == Depth(l, d.h)
    && (c < Pow2(k) ==> OnStack(l, st, d, Code(c, k)))
    && OthersClosed(st, d)
    && TailZero(c, k, d.w + l)
    && (k <= d.w + l ==> d.q == d.u[d.h])
  }

  // ----- facts about codes with zero tails -----

  lemma {:induction false} CodeTail(c: nat, k: nat, m: nat)
    requires m <= k && Mask(c, m) == 0
    ensures Code(c, k)[k - m..] == Zeros(m)
    ensures Code(c, k)[..k - m] == Code(Shr(c, m), k - m)
  {
    if m > 0 {
      CodeTail(c / 2, k - 1, m - 1);
      assert Code(c, k)[..k - m] == Code(c / 2, k - 1)[..k - m];
      assert Code(c, k)[k - m..] == Code(c / 2, k - 1)[k - m..] + [false];
      ZerosSnoc(m);
    }
  }

  lemma {:induction false} ZerosSnoc(m: nat)
    requires m > 0
    ensures Zeros(m) == Zeros(m - 1) + [false]
  {
  }

  /** A code with a zero tail starts where its leading bits start. */
  lemma {:induction false} TailStart(c: nat, k: nat, n: nat)
    requires n <= k <= SCALE && c < Pow2(k) && Mask(c, k - n) == 0
    ensures Start(Code(c, k)[..n]) == Start(Code(c, k)) == At(c, k)
    ensures Val(Code(c, k)) == Val(Code(c, k)[..n])
  {
    hide Val, Start, Mask, Shl, Shr;
    var m := k - n;
    var cw := Code(c, k);
    CodeTail(c, k, m);
    assert cw == cw[..n] + cw[n..];
    ValZeros(cw[..n], m);
    StartAppend(cw[..n], Zeros(m));
    MsbZeros(m);
    assert At(0, k) == 0 by { ShlZero(SCALE - k); }
    MsbCode(c, k);
    assert Start(cw) == At(c, k) by { assert |cw| == k; StartDef(cw); }
  }

  lemma {:induction false} StartDef(q: seq<bool>)
    requires |q| <= SCALE
    ensures Start(q) == At(Msb(q), |q|)
  {
  }

  lemma {:induction false} MsbZeros(m: nat)
    ensures Msb(Zeros(m)) == 0
  {
    if m > 0 {
      ZerosSnoc(m);
      assert Zeros(m)[..m - 1] == Zeros(m - 1);
      MsbZeros(m - 1);
    }
  }

  // ----- opening tables -----

  ghost function NewTab(l: nat, level: nat, cw: seq<bool>, bits: nat): Tab
    requires Depth(l, level) <= |cw|
  {
    Tab(level, cw[..Depth(l, level)], bits, cw)
  }

  lemma {:induction false} NewTabOK(cs: Codes, l: nat, level: nat, cw: seq<bool>, bits: nat)
    requires cs.Wf() && 1 <= l <= cs.g && cs.IsWord(cw) && Depth(l, level) < |cw|
    requires Start(cw[..Depth(l, level)]) == Start(cw)
    requires SizeOK(cs, l, cw[..Depth(l, level)], cw, bits)
    ensures TabOK(cs, l, NewTab(l, level, cw, bits))
  {
    hide Start;
  }

  /** The next table of the current word is not yet there. */
  lemma {:induction false} NotYetOpen(src: Source, cs: Codes, l: nat, st: State, d: Build, k: nat, c: nat, t: nat)
    requires Ready(src, cs, l, st, d, k, c) && d.h >= 0 && c < Pow2(k) && d.w + l < k
    requires Start(Code(c, k)[..d.w + l]) == st.P
    requires t < |st.S|
    ensures !(Code(c, k)[..d.w + l] <= st.S[t].pre)
  {
    hide Start, Mask, Val, Code, Leaf, TabOK;
    var p := Code(c, k)[..d.w + l];
    if p <= st.S[t].pre {
      assert |st.S[t].pre| <= SCALE;
      StartPrefix(p, st.S[t].pre);
      if IsOpen(d, t) {
        var j :| 0 <= j <= d.h && d.u[j] == t;
        assert Level(l, st, d, j, Code(c, k));
        if j < d.h { DepthMono(l, j, d.h); }
        assert false;
      } else {
        assert false;
      }
    }
  }

  lemma {:induction false} CanOpenNext(src: Source, cs: Codes, l: nat, st: State, d: Build, k: nat, c: nat, bits: nat)
    requires Ready(src, cs, l, st, d, k, c) && d.h >= 0 && c < Pow2(k) && d.w + l < k
    requires cs.IsWord(Code(c, k))
    requires Start(Code(c, k)[..d.w + l]) == Start(Code(c, k)) == st.P
    requires SizeOK(cs, l, Code(c, k)[..d.w + l], Code(c, k), bits)
    ensures Depth(l, d.h + 1) == d.w + l && d.u[d.h] < |st.S|
    ensures CanOpen(cs, l, st, d.u[d.h], NewTab(l, d.h + 1, Code(c, k), bits))
  {
    hide Start, Mask, Val, Code, Leaf;
    var cw := Code(c, k);
    assert Level(l, st, d, d.h, cw);
    var t, tab := d.u[d.h], NewTab(l, d.h + 1, cw, bits);
    NewTabOK(cs, l, d.h + 1, cw, bits);
    assert TabOK(cs, l, st.S[t]);
    assert Under(cs, st.S[t].pre, cw);
    assert st.S[t].pre <= tab.pre;
    forall j | 0 <= j < |st.S| ensures !(tab.pre <= st.S[j].pre) {
      NotYetOpen(src, cs, l, st, d, k, c, j);
    }
  }

  ghost function Pushed(d: Build, T: seq<seq<Entry>>, i: nat, l: nat): Build
    requires -1 <= d.h < BMAX - 1 && |d.u| == BMAX && |d.x| == BMAX + 1 && |T| > 0
  {
    var h := d.h + 1;
    Build(T, d.u[h := |T| - 1], if h > 0 then d.x[h := i] else d.x, h, d.w + l, |T| - 1)
  }

  lemma {:induction false} ReadyAfterRoot(src: Source, cs: Codes, l: nat, st: State, d: Build, k: nat, bits: nat)
    requires Ready(src, cs, l, st, d, k, 0) && d.h == -1
    requires cs.IsWord(Code(0, k))
    requires SizeOK(cs, l, [], Code(0, k), bits)
    ensures Ready(src, cs, l, State([NewTab(l, 0, Code(0, k), bits)], [NewTable(bits)], 0),
                  Pushed(d, [NewTable(bits)], Val(Code(0, k)), l), k, 0)
  {
    hide Val, Leaf, Mask, TabOK, NewTable, Width;
    var cw := Code(0, k);
    var tab := NewTab(l, 0, cw, bits);
    assert cw[..0] == [];
    assert Start(cw[..0]) == Start(cw) by {
      assert Mask(0, k) == 0 by { MaskZero(k); }
      TailStart(0, k, 0);
    }
    NewTabOK(cs, l, 0, cw, bits);
    OpenRoot(src, cs, l, tab);
    var st', d' := State([tab], [NewTable(bits)], 0), Pushed(d, [NewTable(bits)], Val(cw), l);
    assert At(0, k) == 0 by { ShlZero(SCALE - k); }
    assert Level(l, st', d', 0, cw) by { ValEmpty(); }
    assert d'.u[0] == 0;
    assert IsOpen(d', 0);
    assert TailZero(0, k, d'.w + l) by {
      if d'.w + l < k { MaskZero(k - l); }
    }
  }

  lemma {:induction false} MaskZero(n: nat)
    ensures Mask(0, n) == 0
  {
    if n > 0 { MaskZero(n - 1); }
  }

  lemma {:induction false} StillOnStack(l: nat, st: State, st': State, d: Build, d': Build, cw: seq<bool>, j: nat)
    requires |d.u| == |d'.u| == BMAX && |d.x| == |d'.x| == BMAX + 1 && 0 <= j <= d.h < BMAX - 1
    requires Level(l, st, d, j, cw)
    requires st.S <= st'.S && d'.u[..d.h + 1] == d.u[..d.h + 1] && d'.x[..d.h + 1] == d.x[..d.h + 1]
    ensures Level(l, st', d', j, cw)
  {
    assert d'.u[j] == d'.u[..d.h + 1][j] == d.u[j];
    assert d'.x[j] == d'.x[..d.h + 1][j] == d.x[j];
  }

  lemma {:induction false} StackAfterOpen(l: nat, st: State, st': State, d: Build, d': Build, tab: Tab, cw: seq<bool>)
    requires |d.u| == BMAX && |d.x| == BMAX + 1 && 0 <= d.h < BMAX - 1 && OnStack(l, st, d, cw)
    requires st'.S == st.S + [tab] && |st'.T| == |st'.S|
    requires d' == Pushed(d, st'.T, Val(cw), l)
    requires tab.level == d.h + 1 && Depth(l, d.h + 1) < |cw| && tab.pre == cw[..Depth(l, d.h + 1)]
    requires Val(cw) == Val(tab.pre)
    ensures OnStack(l, st', d', cw)
  {
    hide Val, Depth;
    forall j | 0 <= j <= d'.h ensures Level(l, st', d', j, cw) {
      if j <= d.h {
        assert Level(l, st, d, j, cw);
        StillOnStack(l, st, st', d, d', cw, j);
      }
    }
  }

  lemma {:induction false} ClosedAfterOpen(l: nat, st: State, st': State, d: Build, d': Build, tab: Tab, i: nat)
    requires |d.u| == BMAX && |d.x| == BMAX + 1 && 0 <= d.h < BMAX - 1 && OthersClosed(st, d)
    requires st'.S == st.S + [tab] && |st'.T| == |st'.S| && st'.P == st.P && |tab.pre| <= SCALE
    requires d' == Pushed(d, st'.T, i, l)
    ensures OthersClosed(st', d')
  {
    hide Start, Width;
    forall t | 0 <= t < |st'.S|
      ensures |st'.S[t].pre| <= SCALE && (IsOpen(d', t) || ClosedBefore(st', t))
    {
      if t == |st.S| {
        assert d'.u[d'.h] == t;
      } else if IsOpen(d, t) {
        var j :| 0 <= j <= d.h && d.u[j] == t;
        assert d'.u[j] == t;
      } else {
        assert ClosedBefore(st, t);
      }
    }
  }

  lemma {:induction false} ReadyAfterOpen(src: Source, cs: Codes, l: nat, st: State, d: Build, k: nat, c: nat,
                                          tab: Tab, cw: seq<bool>)
    requires Ready(src, cs, l, st, d, k, c) && 0 <= d.h < BMAX - 1 && c < Pow2(k) && d.w + l < k
    requires cw == Code(c, k) && Val(cw) == Val(tab.pre)
    requires Depth(l, d.h + 1) == d.w + l && tab.pre == cw[..d.w + l] && tab.level == d.h + 1
    requires CanOpen(cs, l, st, d.u[d.h], tab)
    ensures var st' := Opened(cs, l, st, d.u[d.h], tab);
            Ready(src, cs, l, st', Pushed(d, st'.T, Val(cw), l), k, c)
  {
    hide Val, Leaf, TabOK, NewTable, Start, Code, At;
    var st' := Opened(cs, l, st, d.u[d.h], tab);
    var d' := Pushed(d, st'.T, Val(cw), l);
    Open(src, cs, l, st, d.u[d.h], tab);
    StackAfterOpen(l, st, st', d, d', tab, cw);
    ClosedAfterOpen(l, st, st', d, d', tab, Val(cw));
    TailShrinks(c, k, d.w + l, l);
  }

  lemma {:induction false} TailShrinks(c: nat, k: nat, n: nat, m: nat)
    requires TailZero(c, k, n)
    ensures TailZero(c, k, n + m)
  {
    if n + m < k { MaskShrinks(c, k - n - m, k - n); }
  }

  lemma {:induction false} MaskShrinks(c: nat, i: nat, j: nat)
    requires i <= j && Mask(c, j) == 0
    ensures Mask(c, i) == 0
  {
    if i > 0 { MaskShrinks(c / 2, i - 1, j - 1); }
  }

  lemma {:induction false} LevelBound(l: nat, h: nat)
    requires l >= 1
    ensures Depth(l, h) >= h
  {
    if h > 0 { LevelBound(l, h - 1); }
  }

  method OpenFirst(src: Source, cnt: seq<nat>, g: nat, l: nat, d0: Build, k: nat, a: nat,
                   ghost cs: Codes, ghost st0: State)
      returns (d: Build, ghost st: State)
    requires Ready(src, cs, l, st0, d0, k, 0) && cs.cnt == cnt && cs.g == g && d0.h == -1
    requires cs.IsWord(Code(0, k)) && a + 1 == First(cnt, k) + cnt[k]
    ensures Ready(src, cs, l, st, d, k, 0) && d.h == 0 && d.w == 0
  {
    hide Val, Leaf, TabOK, NewTable, Width, Start, Code, Mask, SizeOK, First;
    ghost var cw := Code(0, k);
    assert cw[..0] == [];
    MsbCode(0, k);
    MaskZero(k);
    TailStart(0, k, 0);
    var bits := TableBits(cnt, g, l, k, a, 0, cs, cw);
    ReadyAfterRoot(src, cs, l, st0, d0, k, bits);
    st := State([NewTab(l, 0, cw, bits)], [NewTable(bits)], 0);
    d := Build([NewTable(bits)], d0.u[0 := 0], d0.x, 0, 0, 0);
  }

  /** The loop variables after a new table is linked in at the index of code i. */
  function Linked(d: Build, i: nat, l: nat, bits: nat): Build
    requires 0 <= d.h < BMAX - 1 && |d.u| == BMAX && |d.x| == BMAX + 1 && d.w >= 0
    requires d.u[d.h] < |d.T| && Shr(i, d.w) < |d.T[d.u[d.h]]|
  {
    var parent, h := d.u[d.h], d.h + 1;
    var link := Entry(LITERAL + bits, l, |d.T|);
    Build(d.T[parent := d.T[parent][Shr(i, d.w) := link]] + [NewTable(bits)],
          d.u[h := |d.T|], d.x[h := i], h, d.w + l, |d.T|)
  }

  lemma {:induction false} LinkedReady(src: Source, cs: Codes, l: nat, st: State, d: Build, k: nat, c: nat,
                                       cw: seq<bool>, bits: nat)
      returns (st': State)
    requires Ready(src, cs, l, st, d, k, c) && 0 <= d.h < BMAX - 1 && k > d.w + l
    requires c < Pow2(k) && cw == Code(c, k) && cs.IsWord(cw)
    requires Start(cw[..d.w + l]) == Start(cw) == At(c, k) && Val(cw) == Val(cw[..d.w + l])
    requires SizeOK(cs, l, cw[..d.w + l], cw, bits)
    ensures d.u[d.h] < |d.T| && Shr(Val(cw), d.w) < |d.T[d.u[d.h]]|
    ensures Ready(src, cs, l, st', Linked(d, Val(cw), l, bits), k, c)
  {
    hide Val, Leaf, TabOK, NewTable, Start, Code, Mask, Shr, SizeOK, At, Pow2;
    CanOpenNext(src, cs, l, st, d, k, c, bits);
    var tab := NewTab(l, d.h + 1, cw, bits);
    ReadyAfterOpen(src, cs, l, st, d, k, c, tab, cw);
    LinkPlace(c, k, d.w, l);
    LinkIndexBound(cs, l, st, d.u[d.h], tab);
    st' := Opened(cs, l, st, d.u[d.h], tab);
    assert Linked(d, Val(cw), l, bits) == Pushed(d, st'.T, Val(cw), l);
  }

  method OpenNext(src: Source, cnt: seq<nat>, g: nat, l: nat, d0: Build, k: nat, a: nat, i: nat,
                  ghost cs: Codes, ghost st0: State, ghost c: nat)
      returns (d: Build, ghost st: State)
    requires Ready(src, cs, l, st0, d0, k, c) && cs.cnt == cnt && cs.g == g && d0.h >= 0 && k > d0.w + l
    requires c < Pow2(k) && cs.IsWord(Code(c, k)) && i == Val(Code(c, k))
    requires c + a + 1 == First(cnt, k) + cnt[k]
    ensures Ready(src, cs, l, st, d, k, c) && d.h == d0.h + 1 && d.w == d0.w + l
  {
    hide Val, Leaf, TabOK, NewTable, Start, Code, Mask, Shr, SizeOK, First, At, Pow2;
    ghost var cw := Code(c, k);
    LevelBound(l, d0.h + 1);
    MsbCode(c, k);
    TailStart(c, k, d0.w + l);
    var bits := TableBits(cnt, g, l, k, a, d0.w + l, cs, cw);
    st := LinkedReady(src, cs, l, st0, d0, k, c, cw, bits);
    d := Linked(d0, i, l, bits);
  }

  /** Making tables up to the level that a k-bit code needs; i is the code, a codes of its length
      follow it. */
  method OpenTables(src: Source, cnt: seq<nat>, g: nat, l: nat, d0: Build, k: nat, a: nat, i: nat,
                    ghost cs: Codes, ghost st0: State, ghost c: nat)
      returns (d: Build, ghost st: State)
    requires Ready(src, cs, l, st0, d0, k, c) && cs.cnt == cnt && cs.g == g
    requires c < Pow2(k) && cs.IsWord(Code(c, k)) && i == Val(Code(c, k))
    requires c + a + 1 == First(cnt, k) + cnt[k]
    ensures Ready(src, cs, l, st, d, k, c) && d.h >= 0 && k <= d.w + l
  {
    hide Val, Code, First, Standing, Matches, Pow2, At;
    d, st := d0, st0;
    while k > d.w + l
      invariant Ready(src, cs, l, st, d, k, c)
      decreases k - d.w
    {
      if d.h == -1 {
        d, st := OpenFirst(src, cnt, g, l, d, k, a, cs, st);
      } else {
        d, st := OpenNext(src, cnt, g, l, d, k, a, i, cs, st, c);
      }
    }
  }

  /** The index of the link: the bits of the code between the two tables. */
  lemma {:induction false} LinkPlace(c: nat, k: nat, w: nat, l: nat)
    requires w + l < k <= SCALE && c < Pow2(k) && Mask(c, k - w - l) == 0
    ensures Shr(Val(Code(c, k)), w) == Val(Code(c, k)[..w + l][w..])
  {
    hide Val, Code, Shr, Mask;
    var cw := Code(c, k);
    ValSplit(cw, w);
    CodeTail(c, k, k - w - l);
    assert cw[w..] == cw[..w + l][w..] + cw[w + l..];
    ValZeros(cw[..w + l][w..], k - w - l);
  }

  // ----- entering a code -----

  /** The position in v[] of code c of length k; it stops at the end of v[]. */
  ghost function Place(src: Source, cs: Codes, k: nat, c: nat): nat
    requires cs.Wf() && 1 <= k <= cs.g && First(cs.cnt, k) <= c
  {
    var at := Before(Counts(src.b), k) + c - First(cs.cnt, k);
    if at < |src.b| then at else |src.b|
  }

  /** The entry made from *p, with bits more bits to dump; p moves on unless at the end. */
  function EntryAt(src: Source, v: seq<int>, p: nat, bits: nat): (r: (Entry, nat))
    requires src.Wf() && |v| == |src.b| && forall i :: 0 <= i < |v| ==> -1 <= v[i] < |src.b|
  {
    if p >= |src.b| then (Entry(INVALID, bits, 0), p)
    else if v[p] == -1 then (Stale(bits), p + 1)
    else (src.SymbolEntry(v[p], bits), p + 1)
  }

  lemma {:induction false} EntryIsLeaf(src: Source, cs: Codes, v: seq<int>, k: nat, c: nat, w: nat)
    requires src.Wf() && MaxLen(src.b) > 0 && !Oversubscribed(src.b) && cs == CodesOf(src.b) && Matches(cs, src.b)
    requires Sorted(src.b, v) && forall i :: 0 <= i < |v| ==> -1 <= v[i] < |src.b|
    requires w <= k && c < Pow2(k) && cs.IsWord(Code(c, k))
    requires Msb(Code(c, k)) == c
    ensures EntryAt(src, v, Place(src, cs, k, c), k - w) == (Leaf(src, cs, Code(c, k), w), Place(src, cs, k, c + 1))
  {
    hide Count, First, Msb, Code, Pow2, Before, Nth, CodesOf;
    var r := c - First(cs.cnt, k);
    var b := src.b;
    assert SlotOK(b, v, |b|, k, r);
    assert b[..|b|] == b;
    if r < Count(b, k) {
    } else {
      assert k == cs.g;
      assert cs.g == MaxLen(b) by { CodesG(b); }
      UsedSplit(src);
    }
  }

  lemma {:induction false} CodesG(b: seq<nat>)
    requires MaxLen(b) > 0 && !Oversubscribed(b)
    ensures CodesOf(b).g == MaxLen(b)
  {
  }

  /** After code c has been entered: the stack still stands over it. */
  ghost predicate Entered(src: Source, cs: Codes, l: nat, st: State, d: Build, k: nat, c: nat)
  {
    && src.Wf() && Matches(cs, src.b) && 1 <= l <= cs.g
    && 1 <= k <= cs.g && c < Pow2(k) && st.P == At(c + 1, k)
    && st.T == d.T && |d.u| == BMAX && |d.x| == BMAX + 1 && d.x[0] == 0
    && 0 <= d.h < BMAX && d.w == Depth(l, d.h) < k
    && st.Inv(src, cs, l) && |st.S| > 0 && st.S[0].level == 0
    && OnStack(l, st, d, Code(c, k)) && OthersClosed(st, d)
    && TailZero(c + 1, k, d.w + l)
    && (k <= d.w + l ==> d.q == d.u[d.h])
  }

  lemma {:induction false} PathOpen(l: nat, st: State, d: Build, cw: seq<bool>, h: nat)
    requires |d.u| == BMAX && |d.x| == BMAX + 1 && 0 <= d.h < BMAX
    requires OnStack(l, st, d, cw) && |cw| <= Depth(l, d.h) + l
    ensures OnPath(l, st, cw, h)
  {
    hide Val;
    if Depth(l, h) < |cw| {
      if h > d.h {
        DepthMono(l, d.h, h);
      }
      assert Level(l, st, d, h, cw);
      assert st.HasPrefix(d.u[h], h, cw[..Depth(l, h)]);
    }
  }

  lemma {:induction false} CanFillNow(src: Source, cs: Codes, l: nat, st: State, d: Build, k: nat, c: nat,
                                      cw: seq<bool>)
    requires src.Wf() && Matches(cs, src.b) && Ready(src, cs, l, st, d, k, c) && d.h >= 0 && k <= d.w + l
    requires c < Pow2(k) && cw == Code(c, k) && cs.IsWord(cw) && Start(cw) == st.P
    ensures 0 <= d.w < k && d.q < |st.S| && st.S[d.q].pre == cw[..d.w]
    ensures CanFill(cs, l, st, d.q, cw)
    ensures forall h :: OnPath(l, st, cw, h)
  {
    hide Val, Leaf, Start, Code, Mask, At, Pow2, Width, Msb, First;
    assert Level(l, st, d, d.h, cw);
    assert TabOK(cs, l, st.S[d.q]);
    assert Under(cs, st.S[d.q].pre, cw);
    forall h: nat ensures OnPath(l, st, cw, h) {
      PathOpen(l, st, d, cw, h);
    }
  }

  lemma {:induction false} ClosedAfterFill(st: State, st': State, d: Build, d': Build)
    requires |d.u| == BMAX && d.h < BMAX && OthersClosed(st, d)
    requires st'.S == st.S && st'.P >= st.P && d'.u == d.u && d'.h == d.h
    ensures OthersClosed(st', d')
  {
    hide Start, Width;
    forall t | 0 <= t < |st'.S|
      ensures |st'.S[t].pre| <= SCALE && (IsOpen(d', t) || ClosedBefore(st', t))
    {
      if IsOpen(d, t) {
        var j :| 0 <= j <= d.h && d.u[j] == t;
        assert d'.u[j] == t;
      } else {
        assert ClosedBefore(st, t);
      }
    }
  }

  lemma {:induction false} FilledEntered(src: Source, cs: Codes, l: nat, st: State, d: Build, k: nat, c: nat,
                                         cw: seq<bool>, st': State)
    requires src.Wf() && Matches(cs, src.b) && Ready(src, cs, l, st, d, k, c) && d.h >= 0 && k <= d.w + l
    requires c < Pow2(k) && cw == Code(c, k) && Start(cw) == st.P && d.w < k
    requires CanFill(cs, l, st, d.q, cw)
    requires forall h :: OnPath(l, st, cw, h)
    requires st' == Filled(src, cs, l, st, d.q, cw)
    ensures Entered(src, cs, l, st', d.(T := st'.T), k, c)
  {
    hide Val, Leaf, Start, Code, Mask, TabOK, FillTable, At, Width, Pow2, First, Msb;
    Fill(src, cs, l, st, d.q, cw);
    var d' := d.(T := st'.T);
    AtNext(c, k);
    forall j | 0 <= j <= d'.h ensures Level(l, st', d', j, cw) {
      assert Level(l, st, d, j, cw);
    }
    ClosedAfterFill(st, st', d, d');
  }

  /** Making the table entries for one code, then counting it up. */
  method EnterCode(src: Source, l: nat, v: seq<int>, d0: Build, k: nat, p0: nat, i0: nat,
                   ghost cs: Codes, ghost st0: State, ghost c: nat)
      returns (d: Build, p: nat, i: nat, ghost st: State)
    requires Ready(src, cs, l, st0, d0, k, c) && d0.h >= 0 && k <= d0.w + l
    requires MaxLen(src.b) > 0 && !Oversubscribed(src.b) && cs == CodesOf(src.b)
    requires |v| == |src.b| && Sorted(src.b, v) && forall i :: 0 <= i < |v| ==> -1 <= v[i] < |src.b|
    requires c < Pow2(k) && cs.IsWord(Code(c, k)) && i0 == Val(Code(c, k))
    requires First(cs.cnt, k) <= c && p0 == Place(src, cs, k, c)
    ensures Entered(src, cs, l, st, d, k, c)
    ensures i == Val(Code(c + 1, k)) && p == Place(src, cs, k, c + 1)
  {
    hide Val, Leaf, Start, Code, Mask, TabOK, FillTable, At, Width, Pow2, First, Shr, EntryAt, Sorted, CodesOf,
      MaxLen, Oversubscribed;
    ghost var cw := Code(c, k);
    MsbCode(c, k);
    StartDef(cw);
    CanFillNow(src, cs, l, st0, d0, k, c, cw);
    EntryIsLeaf(src, cs, v, k, c, d0.w);
    var r, p' := EntryAt(src, v, p0, k - d0.w).0, EntryAt(src, v, p0, k - d0.w).1;
    p := p';
    ValSplit(cw, d0.w);
    var table := FillEntries(d0.T[d0.q], Shr(i0, d0.w), k - d0.w, r);
    d := d0.(T := d0.T[d0.q := table]);
    st := Filled(src, cs, l, st0, d0.q, cw);
    FilledEntered(src, cs, l, st0, d0, k, c, cw, st);
    i := BackwardIncrement(i0, k, c);
  }

  // ----- backing up over finished tables -----

  /** If counting up changes the first w bits, the strings under the old ones are all done. */
  lemma {:induction false} PrefixDone(c: nat, k: nat, w: nat)
    requires w < k <= SCALE && c < Pow2(k)
    requires Code(c + 1, k)[..w] != Code(c, k)[..w]
    ensures Start(Code(c, k)[..w]) + Width(w) == At(c + 1, k)
    ensures Mask(c + 1, k - w) == 0
  {
    hide Start, Width, At, Code, Mask, Pow2, Shl;
    var cw, cn := Code(c, k), Code(c + 1, k);
    var pre := cw[..w];
    MsbCode(c, k);
    StartDef(cw);
    AtNext(c, k);
    StartPrefix(pre, cw);
    if At(c + 1, k) < Start(pre) + Width(w) {
      if c + 1 < Pow2(k) {
        MsbCode(c + 1, k);
        StartDef(cn);
        PrefixFromStart(pre, cn);
        assert false;
      } else {
        AllDone(k);
        StartBound(pre);
        assert false;
      }
    }
    StartDef(pre);
    AtNext(Msb(pre), w);
    AtShift(Msb(pre) + 1, w, k - w);
    var y := Shl(Msb(pre) + 1, k - w);
    AtMono(c + 1, y, k);
    AtMono(y, c + 1, k);
    SplitUnique(Msb(pre) + 1, 0, k - w);
  }

  ghost function Popped(d: Build, l: nat): Build
  {
    d.(h := d.h - 1, w := d.w - l)
  }

  lemma {:induction false} PopEntered(src: Source, cs: Codes, l: nat, st: State, d: Build, k: nat, c: nat)
    requires Entered(src, cs, l, st, d, k, c)
    requires Code(c + 1, k)[..d.w] != Code(c, k)[..d.w]
    ensures d.h >= 1 && Entered(src, cs, l, st, Popped(d, l), k, c)
    ensures k > d.w
  {
    hide Val, Leaf, Start, Code, Mask, TabOK, At, Width, Pow2;
    var cw := Code(c, k);
    var d' := Popped(d, l);
    PrefixDone(c, k, d.w);
    assert Level(l, st, d, d.h, cw);
    assert d.h >= 1;
    forall j | 0 <= j <= d'.h ensures Level(l, st, d', j, cw) {
      assert Level(l, st, d, j, cw);
    }
    forall t | 0 <= t < |st.S|
      ensures |st.S[t].pre| <= SCALE && (IsOpen(d', t) || ClosedBefore(st, t))
    {
      if IsOpen(d, t) {
        var j :| 0 <= j <= d.h && d.u[j] == t;
        if j < d.h {
          assert d'.u[j] == t;
        }
      }
    }
  }

  lemma {:induction false} EnteredReady(src: Source, cs: Codes, l: nat, st: State, d: Build, k: nat, c: nat)
    requires Entered(src, cs, l, st, d, k, c)
    requires Code(c + 1, k)[..d.w] == Code(c, k)[..d.w]
    ensures Ready(src, cs, l, st, d, k, c + 1)
  {
    hide Val, Leaf, Start, Code, Mask, TabOK, At, Width, Pow2;
    var cw, cn := Code(c, k), Code(c + 1, k);
    forall j | 0 <= j <= d.h ensures Level(l, st, d, j, cn) {
      assert Level(l, st, d, j, cw);
      if j < d.h { DepthMono(l, j, d.h); }
      assert cw[..Depth(l, j)] == cw[..d.w][..Depth(l, j)] == cn[..Depth(l, j)];
    }
  }

  /** The comparison with the saved pattern tells whether the first w bits have changed. */
  lemma {:induction false} PatternTest(src: Source, cs: Codes, l: nat, st: State, d: Build, k: nat, c: nat, i: nat)
    requires Entered(src, cs, l, st, d, k, c) && i == Val(Code(c + 1, k))
    ensures And(i, Pow2(d.w) - 1) == d.x[d.h] <==> Code(c + 1, k)[..d.w] == Code(c, k)[..d.w]
  {
    hide Val, Leaf, Start, Code, Mask, TabOK, At, Width, Pow2, And;
    var cw, cn := Code(c, k), Code(c + 1, k);
    assert Level(l, st, d, d.h, cw);
    AndMask(i, d.w);
    ValSplit(cn, d.w);
    if Val(cn[..d.w]) == Val(cw[..d.w]) {
      ValInjective(cn[..d.w], cw[..d.w]);
    }
  }

  method BackUp(l: nat, d0: Build, k: nat, i: nat, ghost src: Source, ghost cs: Codes, ghost st: State, ghost c: nat)
      returns (d: Build)
    requires Entered(src, cs, l, st, d0, k, c) && i == Val(Code(c + 1, k))
    ensures Ready(src, cs, l, st, d, k, c + 1) && d.h >= 0
  {
    hide Val, Code, And, Pow2, OnStack, OthersClosed;
    d := d0;
    PatternTest(src, cs, l, st, d, k, c, i);
    while And(i, Pow2(d.w) - 1) != d.x[d.h]
      invariant Entered(src, cs, l, st, d, k, c)
      invariant And(i, Pow2(d.w) - 1) == d.x[d.h] <==> Code(c + 1, k)[..d.w] == Code(c, k)[..d.w]
      decreases d.h
    {
      PopEntered(src, cs, l, st, d, k, c);
      d := Build(d.T, d.u, d.x, d.h - 1, d.w - l, d.q);
      PatternTest(src, cs, l, st, d, k, c, i);
    }
    EnteredReady(src, cs, l, st, d, k, c);
  }

  // ----- all codes -----

  lemma {:induction false} WordAt(cs: Codes, k: nat, c: nat)
    requires cs.Wf() && 1 <= k <= cs.g && First(cs.cnt, k) <= c < First(cs.cnt, k) + cs.cnt[k]
    ensures c < Pow2(k) && cs.IsWord(Code(c, k))
  {
    assert cs.Fits(k);
    MsbCode(c, k);
  }

  lemma {:induction false} CodeDouble(c: nat, k: nat)
    ensures Code(2 * c, k + 1) == Code(c, k) + [false]
    ensures Val(Code(2 * c, k + 1)) == Val(Code(c, k))
  {
    assert Code(2 * c, k + 1) == Code(c, k) + [false];
    hide Val, Code;
    assert Zeros(1) == [false];
    ValZeros(Code(c, k), 1);
  }

  lemma {:induction false} PlaceNext(src: Source, cs: Codes, k: nat, c: nat)
    requires src.Wf() && Matches(cs, src.b) && 1 <= k < cs.g && c == First(cs.cnt, k) + cs.cnt[k]
    ensures First(cs.cnt, k + 1) == 2 * c
    ensures Place(src, cs, k + 1, 2 * c) == Place(src, cs, k, c)
  {
    hide Count;
    assert Counts(src.b)[k] == Count(src.b, k) == cs.cnt[k];
  }

  lemma {:induction false} StandingNext(src: Source, cs: Codes, l: nat, st: State, d: Build, k: nat, c: nat)
    requires src.Wf() && Matches(cs, src.b) && 1 <= l <= cs.g
    requires |d.u| == BMAX && |d.x| == BMAX + 1 && 0 <= d.h < BMAX
    requires Standing(src, cs, l, st, d, k, c) && c < Pow2(k)
    ensures Standing(src, cs, l, st, d, k + 1, 2 * c)
  {
    hide Val, Leaf, Start, Code, TabOK, Mask, Matches;
    var cw := Code(c, k);
    CodeDouble(c, k);
    forall j | 0 <= j <= d.h ensures Level(l, st, d, j, cw + [false]) {
      assert Level(l, st, d, j, cw);
      assert (cw + [false])[..Depth(l, j)] == cw[..Depth(l, j)];
    }
    assert Level(l, st, d, d.h, cw);
    TailNext(c, k, d.w + l);
  }

  lemma {:induction false} TailNext(c: nat, k: nat, n: nat)
    requires TailZero(c, k, n)
    ensures TailZero(2 * c, k + 1, n)
  {
    assert 2 * c / 2 == c;
  }

  /** Going on to the next length: codes get a zero appended. */
  lemma {:induction false} NextLength(src: Source, cs: Codes, l: nat, st: State, d: Build, k: nat, c: nat)
    requires Ready(src, cs, l, st, d, k, c) && k < cs.g && c == First(cs.cnt, k) + cs.cnt[k]
    ensures First(cs.cnt, k + 1) == 2 * c && Ready(src, cs, l, st, d, k + 1, 2 * c)
    ensures Val(Code(2 * c, k + 1)) == Val(Code(c, k))
    ensures Place(src, cs, k + 1, 2 * c) == Place(src, cs, k, c)
  {
    assert Pow2(k + 1) == 2 * Pow2(k);
    assert At(c, k) == At(2 * c, k + 1) by { AtShift(c, k, 1); ShlByOne(c); }
    hide Val, Code, Standing, First, Place, At, Pow2;
    NotFull(cs, k);
    CodeDouble(c, k);
    PlaceNext(src, cs, k, c);
    if d.h >= 0 {
      StandingNext(src, cs, l, st, d, k, c);
    }
  }

  lemma {:induction false} NotFull(cs: Codes, k: nat)
    requires cs.Wf() && cs.Complete() && 1 <= k < cs.g
    ensures First(cs.cnt, k) + cs.cnt[k] < Pow2(k)
  {
    hide First, At, Pow2;
    var g, c := cs.g, First(cs.cnt, k) + cs.cnt[k];
    cs.AfterMono(k, g);
    AtMono(Pow2(g), First(cs.cnt, g), g);
    AllDone(k);
    AllDone(g);
    AtMono(Pow2(k), c, k);
  }

  /** Making the tables for all codes of length k. */
  method EnterLength(src: Source, cnt: seq<nat>, g: nat, l: nat, v: seq<int>, d0: Build, k: nat, p0: nat, i0: nat,
                     ghost cs: Codes, ghost st0: State)
      returns (d: Build, p: nat, i: nat, ghost st: State)
    requires cs.cnt == cnt && cs.g == g && |cnt| == BMAX + 1 && k <= BMAX
    requires Ready(src, cs, l, st0, d0, k, First(cnt, k))
    requires MaxLen(src.b) > 0 && !Oversubscribed(src.b) && cs == CodesOf(src.b)
    requires |v| == |src.b| && Sorted(src.b, v) && forall i :: 0 <= i < |v| ==> -1 <= v[i] < |src.b|
    requires i0 == Val(Code(First(cnt, k), k)) && p0 == Place(src, cs, k, First(cnt, k))
    ensures Ready(src, cs, l, st, d, k, First(cnt, k) + cnt[k]) && (d0.h >= 0 || cnt[k] > 0 ==> d.h >= 0)
    ensures i == Val(Code(First(cnt, k) + cnt[k], k)) && p == Place(src, cs, k, First(cnt, k) + cnt[k])
  {
    hide Val, Code, CodesOf, MaxLen, Oversubscribed, Sorted, First, Standing, Place, At, Pow2;
    d, p, i, st := d0, p0, i0, st0;
    var a := cnt[k];
    ghost var c := First(cnt, k);
    while a > 0
      invariant a >= 0 && c + a == First(cnt, k) + cnt[k] && c >= First(cnt, k)
      invariant Ready(src, cs, l, st, d, k, c) && (d0.h >= 0 || a < cnt[k] ==> d.h >= 0)
      invariant i == Val(Code(c, k)) && p == Place(src, cs, k, c)
    {
      a := a - 1;
      WordAt(cs, k, c);
      d, st := OpenTables(src, cnt, g, l, d, k, a, i, cs, st, c);
      d, p, i, st := EnterCode(src, l, v, d, k, p, i, cs, st, c);
      d := BackUp(l, d, k, i, src, cs, st, c);
      c := c + 1;
    }
  }

  /** The number of bits the first table is indexed by: m, brought within the lengths in use. */
  function LookupBits(b: seq<nat>, m: nat): nat
  {
    var lo, g := Lowest(Counts(b), 1), MaxLen(b);
    var l := if m < lo then lo else m;
    if l > g then g else l
  }

  lemma {:induction false} StartReady(src: Source, l: nat, k: nat)
    requires src.Wf() && MaxLen(src.b) > 0 && !Oversubscribed(src.b) && 1 <= l <= MaxLen(src.b)
    requires k == Lowest(Counts(src.b), 1)
    ensures k <= MaxLen(src.b) && CodesOf(src.b).g == MaxLen(src.b) && Matches(CodesOf(src.b), src.b)
    ensures First(CodesOf(src.b).cnt, k) == 0 && Place(src, CodesOf(src.b), k, 0) == 0
    ensures Ready(src, CodesOf(src.b), l, State([], [], 0),
                  Build([], seq(BMAX, _ => 0), seq(BMAX + 1, _ => 0), -1, 0 - l, 0), k, 0)
  {
    hide Count, Code, Pow2, Shl, First, Before, Standing, Matches, Oversubscribed;
    var b, cs := src.b, CodesOf(src.b);
    CodesMatch(b);
    FirstZero(cs.cnt, k);
    BeforeZeroBelow(Counts(b), k);
    ShlZero(SCALE - k);
  }

  lemma {:induction false} BeforeZeroBelow(c: seq<nat>, k: nat)
    requires k <= |c| && forall j :: 1 <= j < k ==> c[j] == 0
    ensures Before(c, k) == 0
  {
    if k > 1 { BeforeZeroBelow(c, k - 1); }
  }

  lemma {:induction false} ReadyFinished(src: Source, cs: Codes, l: nat, st: State, d: Build)
    requires Ready(src, cs, l, st, d, cs.g, Pow2(cs.g)) && d.h >= 0
    ensures Finished(src, cs, l, st) && d.T == st.T
  {
    hide Val, Leaf, Code, TabOK, Mask, Pow2, Msb, First, Start, At, Width;
    AllDone(cs.g);
    forall x | cs.IsWord(x) ensures Start(x) < st.P {
      StartBound(x);
    }
  }

  lemma {:induction false} ValCodeZero(k: nat)
    ensures Val(Code(0, k)) == 0
  {
    if k > 0 {
      hide Val;
      ValCode(0, k);
      ValCodeZero(k - 1);
    } else {
      ValEmpty();
    }
  }

  /** The tables for all codes. */
  method MakeTables(src: Source, cnt: seq<nat>, lo: nat, g: nat, l: nat, v: seq<int>)
      returns (T: seq<seq<Entry>>, ghost st: State)
    requires src.Wf() && MaxLen(src.b) > 0 && !Oversubscribed(src.b) && 1 <= l <= MaxLen(src.b)
    requires cnt == CodesOf(src.b).cnt && g == MaxLen(src.b) && lo == Lowest(Counts(src.b), 1)
    requires |v| == |src.b| && Sorted(src.b, v) && forall i :: 0 <= i < |v| ==> -1 <= v[i] < |src.b|
    ensures Matches(CodesOf(src.b), src.b) && Finished(src, CodesOf(src.b), l, st) && T == st.T
  {
    hide Val, Code, Sorted, Standing, Place, At, Pow2, Oversubscribed, Finished, Leaf;
    ghost var cs := CodesOf(src.b);
    StartReady(src, l, lo);
    var k := lo;
    var i, p := 0, 0;
    assert Val(Code(0, lo)) == 0 by { ValCodeZero(lo); }
    var d := Build([], seq(BMAX, _ => 0), seq(BMAX + 1, _ => 0), -1, 0 - l, 0);
    st := State([], [], 0);
    assert cnt[lo] > 0 by { LowestInUse(src.b); }
    hide CodesOf, MaxLen;
    d, p, i, st := EnterLength(src, cnt, g, l, v, d, k, p, i, cs, st);
    while k < g
      invariant lo <= k <= g && d.h >= 0
      invariant Ready(src, cs, l, st, d, k, First(cnt, k) + cnt[k])
      invariant i == Val(Code(First(cnt, k) + cnt[k], k)) && p == Place(src, cs, k, First(cnt, k) + cnt[k])
    {
      NextLength(src, cs, l, st, d, k, First(cnt, k) + cnt[k]);
      k := k + 1;
      d, p, i, st := EnterLength(src, cnt, g, l, v, d, k, p, i, cs, st);
    }
    T := d.T;
    ReadyFinished(src, cs, l, st, d);
  }

  lemma {:induction false} LowestInUse(b: seq<nat>)
    requires MaxLen(b) > 0 && !Oversubscribed(b)
    ensures Lowest(Counts(b), 1) <= MaxLen(b) && CodesOf(b).cnt[Lowest(Counts(b), 1)] > 0
  {
  }

  /** The tables decode every code word if no level below the first is skipped; for a complete
      list of lengths, only if so. */
  ghost predicate Built(src: Source, l: nat, T: seq<seq<Entry>>)
    requires src.Wf() && MaxLen(src.b) > 0 && !Oversubscribed(src.b)
  {
    var cs := CodesOf(src.b);
    && Matches(cs, src.b)
    && Fits(T, 0, l, IndexCap(cs.g, l))
    && (cs.g <= l ==> forall t, i :: 0 <= t < |T| && 0 <= i < |T[t]| ==> !IsLink(T[t][i]))
    && (LevelsOK(cs, l) ==> Decodes(src, cs, l, T))
    && (CompleteLengths(src.b) ==> (Decodes(src, cs, l, T) <==> LevelsOK(cs, l)))
  }

  lemma {:induction false} RootFits(src: Source, cs: Codes, l: nat, st: State)
    requires src.Wf() && Matches(cs, src.b) && Finished(src, cs, l, st)
    ensures Fits(st.T, 0, l, IndexCap(cs.g, l))
  {
    hide Start, Fits;
    var z := Code(First(cs.cnt, cs.g), cs.g);
    assert cs.Fits(cs.g);
    MsbCode(First(cs.cnt, cs.g), cs.g);
    assert TabOK(cs, l, st.S[0]);
    LookupFits(cs, l, st, z, 0, l);
    TablesFit(src, cs, l, st, 0, l);
  }

  lemma {:induction false} FinishedBuilt(src: Source, l: nat, st: State)
    requires src.Wf() && MaxLen(src.b) > 0 && !Oversubscribed(src.b)
    requires Matches(CodesOf(src.b), src.b) && Finished(src, CodesOf(src.b), l, st)
    ensures Built(src, l, st.T)
  {
    hide Decodes, LevelsOK, First, Count, Fits;
    var cs := CodesOf(src.b);
    RootFits(src, cs, l, st);
    if cs.g <= l { NoLinks(src, cs, l, st); }
    if LevelsOK(cs, l) {
      DecodesIf(src, cs, l, st);
    }
    if CompleteLengths(src.b) {
      DecodesIff(src, cs, l, st);
    }
  }

  /** huft_build: code 2 for too many codes, 1 for an incomplete set, 0 otherwise. */
  method BuildTables(src: Source, m: nat) returns (code: nat, T: seq<seq<Entry>>, l: nat)
    requires src.Wf()
    ensures MaxLen(src.b) == 0 ==> code == 0 && T == [] && l == 0
    ensures code == 2 <==> Oversubscribed(src.b)
    ensures code == 1 <==> MaxLen(src.b) > 1 && !Oversubscribed(src.b) && !CompleteLengths(src.b)
    ensures code <= 2
    ensures MaxLen(src.b) > 0 && !Oversubscribed(src.b) ==>
      l == LookupBits(src.b, m) && Built(src, l, T)
  {
    hide Finished, Sorted, Matches, Count, Built, First, Lowest, Highest, Pow2, Before;
    var c := CountLengths(src.b);
    AllZero(src.b);
    if c[0] == |src.b| {
      return 0, [], 0;
    }
    LengthsInUse(src.b);
    l := m;
    var lo, g := LengthRange(c);
    if l < lo { l := lo; }
    if l > g { l := g; }
    var y := Leftover(c, lo, g);
    if y < 0 {
      return 2, [], l;
    }
    var x := Offsets(c, g);
    var v := SortSymbols(src.b, x, g);
    TopUp(src.b, y);
    c := c[g := c[g] + y];
    ghost var st;
    T, st := MakeTables(src, c, lo, g, l, v);
    code := if y != 0 && g != 1 then 1 else 0;
    FinishedBuilt(src, l, st);
  }

  lemma {:induction false} LengthsInUse(b: seq<nat>)
    requires MaxLen(b) > 0
    ensures 1 <= Lowest(Counts(b), 1) <= MaxLen(b) <= BMAX
  {
  }

  lemma {:induction false} TopUp(b: seq<nat>, y: nat)
    requires MaxLen(b) > 0 && !Oversubscribed(b)
    requires y == Pow2(MaxLen(b)) - First(Counts(b), MaxLen(b)) - Counts(b)[MaxLen(b)]
    ensures CodesOf(b).cnt == Counts(b)[MaxLen(b) := Counts(b)[MaxLen(b)] + y]
    ensures y == 0 <==> CompleteLengths(b)
  {
  }
}
