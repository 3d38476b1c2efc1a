/** The linked decoding tables of kernel/boot/linux/inflate.c: what huft_build stores in them,
    and what a walk of them finds. */
module HuftTable {
  import opened Bits
  import opened Canonical

  /** One struct huft.  Unset is storage from malloc that was never written; Stale is an entry
      whose code length is set but whose value was copied from an unwritten slot of v[]. */
  datatype Entry =
    | Unset
    | Stale(b: nat)
    | Entry(e: nat, b: nat, v: nat)

  const LITERAL: nat := 16
  const END_OF_BLOCK: nat := 15
  const INVALID: nat := 99
  const N_MAX: nat := 288

  /** An operation code above LITERAL, other than INVALID, points to another table. */
  predicate IsLink(e: Entry)
  {
    e.Entry? && e.e > LITERAL && e.e != INVALID
  }

  /** The arguments of huft_build: code lengths, the number s of simple codes, and the base
      values d and extra bits e of the others. */
  datatype Source = Source(b: seq<nat>, s: nat, d: seq<nat>, e: seq<nat>) {

    predicate Wf()
    {
      && 1 <= |b| <= N_MAX
      && (forall i :: 0 <= i < |b| ==> b[i] <= BMAX)
      && |b| <= s + |d| && |b| <= s + |e|
      && forall i :: 0 <= i < |e| ==> e[i] < END_OF_BLOCK || e[i] == INVALID
    }

    /** How many symbols have a code. */
    function Used(): int
    {
      |b| - Count(b, 0)
    }

    function SymbolEntry(i: nat, bits: nat): Entry
      requires Wf() && i < |b|
    {
      if i < s then Entry(if i < 256 then LITERAL else END_OF_BLOCK, bits, i)
      else Entry(e[i - s], bits, d[i - s])
    }
  }

  /** Code set cs is the canonical code of the lengths b, topped up with codes of the greatest
      length. */
  ghost predicate Matches(cs: Codes, b: seq<nat>)
  {
    && cs.Wf() && cs.Complete()
    && (forall k :: 1 <= k < cs.g ==> cs.cnt[k] == Count(b, k))
    && cs.cnt[cs.g] >= Count(b, cs.g)
    && forall k :: cs.g < k <= BMAX ==> Count(b, k) == 0
  }

  /** The entry for code word w in a table that is entered after base bits of it. */
  ghost function Leaf(src: Source, cs: Codes, w: seq<bool>, base: nat): (entry: Entry)
    requires src.Wf() && Matches(cs, src.b) && cs.IsWord(w) && base <= |w|
    ensures !IsLink(entry)
  {
    var k, r := |w|, Msb(w) - First(cs.cnt, |w|);
    if r < Count(src.b, k) then src.SymbolEntry(Nth(src.b, k, r), k - base)
    else if src.Used() + r - Count(src.b, k) < |src.b| then Stale(k - base)
    else Entry(INVALID, k - base, 0)
  }

  // ----- walking the tables -----

  datatype Hit = Found(e: nat, v: nat, used: nat) | Wild | Short {
    /** The same, after n more bits. */
    function After(n: nat): Hit
    {
      match this
      case Found(e, v, used) => Found(e, v, n + used)
      case other => other
    }
  }

  ghost predicate LinksForward(T: seq<seq<Entry>>)
  {
    forall t, i :: 0 <= t < |T| && 0 <= i < |T[t]| && IsLink(T[t][i]) ==> t < T[t][i].v < |T|
  }

  /** What the lookup loop of inflate_codes finds for the bits s, from table t indexed by n bits:
      an entry and the number of bits dumped, or unwritten storage, or not enough bits. */
  ghost function Walk(T: seq<seq<Entry>>, t: nat, n: nat, s: seq<bool>): Hit
    requires LinksForward(T)
    decreases |T| - t
  {
    if |s| < n then Short else
    var i := Val(s[..n]);
    if t >= |T| || i >= |T[t]| || !T[t][i].Entry? || !(1 <= T[t][i].b <= n) then Wild else
    var x := T[t][i];
    if !IsLink(x) then Found(x.e, x.v, x.b)
    else Walk(T, x.v, x.e - LITERAL, s[x.b..]).After(x.b)
  }

  /** What a walk finds at a link, at the end, and at unwritten storage. */
  lemma {:induction false} WalkStep(T: seq<seq<Entry>>, t: nat, n: nat, s: seq<bool>, x: Entry)
    requires LinksForward(T) && n <= |s| && t < |T| && Val(s[..n]) < |T[t]| && x == T[t][Val(s[..n])]
    ensures !x.Entry? ==> Walk(T, t, n, s) == Wild
    ensures x.Entry? && 1 <= x.b <= n ==>
      Walk(T, t, n, s) == if IsLink(x) then Walk(T, x.v, x.e - LITERAL, s[x.b..]).After(x.b)
                          else Found(x.e, x.v, x.b)
  {
    hide Val;
  }

  // ----- the shape of the tables -----

  /** Bits consumed before a table of level h is entered, with l bits a table. */
  function Depth(l: nat, h: nat): nat
  {
    if h == 0 then 0 else Depth(l, h - 1) + l
  }

  lemma {:induction false} DepthMono(l: nat, h: nat, j: nat)
    requires h < j
    ensures Depth(l, h) + l <= Depth(l, j)
    decreases j
  {
    if h < j - 1 { DepthMono(l, h, j - 1); }
  }

  /** A table of 2^bits entries for the words that begin with pre; wit is the first of them. */
  datatype Tab = Tab(level: nat, pre: seq<bool>, bits: nat, wit: seq<bool>)

  ghost predicate Under(cs: Codes, pre: seq<bool>, x: seq<bool>)
    requires cs.Wf()
  {
    cs.IsWord(x) && pre <= x
  }

  ghost predicate TabOK(cs: Codes, l: nat, tab: Tab)
    requires cs.Wf()
  {
    && |tab.pre| == Depth(l, tab.level) < |tab.wit|
    && |tab.pre| + tab.bits <= SCALE && tab.bits >= 1
    && (tab.bits <= l || |tab.pre| + tab.bits <= cs.g)
    && Under(cs, tab.pre, tab.wit) && Start(tab.wit) == Start(tab.pre)
    // the table reaches the end of its words, or else is full size
    && (tab.bits < l ==> forall x :: Under(cs, tab.pre, x) ==> |x| <= |tab.pre| + tab.bits)
    // it is over full size only if no word ends within it
    && (|tab.wit| < |tab.pre| + l ==> tab.bits <= l)
    && (|tab.wit| >= |tab.pre| + l ==> tab.bits >= |tab.wit| - |tab.pre|)
    && (|tab.wit| >= |tab.pre| + l && tab.bits == |tab.wit| - |tab.pre| ==>
          forall x :: Under(cs, tab.pre, x) ==> |x| <= |tab.wit|)
  }

  /** Tables T with their shapes S, when all words before position P have been entered. */
  datatype State = State(S: seq<Tab>, T: seq<seq<Entry>>, P: nat) {

    ghost predicate Sized()
    {
      |S| == |T| && forall t :: 0 <= t < |S| ==> |T[t]| == Pow2(S[t].bits)
    }

    ghost predicate Shapes(cs: Codes, l: nat)
      requires cs.Wf()
    {
      forall t :: 0 <= t < |S| ==> TabOK(cs, l, S[t])
    }

    ghost predicate Unique()
    {
      forall t, j :: 0 <= t < j < |S| ==> S[t].pre != S[j].pre
    }

    /** Table j hangs below the full-size part of table t. */
    ghost predicate Child(l: nat, t: nat, j: nat)
    {
      t < |S| && j < |S| && S[j].level == S[t].level + 1 && S[t].pre <= S[j].pre
    }

    /** Every entered word that ends within table t is found there. */
    ghost predicate LeafOK(src: Source, cs: Codes, l: nat, t: nat, x: seq<bool>, r: seq<bool>)
      requires src.Wf() && Matches(cs, src.b) && Sized() && t < |S|
    {
      var pre := S[t].pre;
      cs.IsWord(x) && Start(x) < P && |pre| < |x| <= |pre| + l && |r| == S[t].bits && x <= pre + r
      ==> T[t][Val(r)] == Leaf(src, cs, x, |pre|)
    }

    ghost predicate LinkOK(l: nat, t: nat, j: nat)
      requires Sized()
    {
      Child(l, t, j) ==>
        && |S[j].pre| == |S[t].pre| + l && l <= S[t].bits && t < j
        && Val(S[j].pre[|S[t].pre|..]) < |T[t]|
        && T[t][Val(S[j].pre[|S[t].pre|..])] == Entry(LITERAL + S[j].bits, l, j)
    }

    /** An entry that was written holds an entered word, or a link at its own index. */
    ghost predicate OnlyOK(cs: Codes, l: nat, t: nat, r: seq<bool>)
      requires cs.Wf() && Sized() && t < |S|
    {
      |r| == S[t].bits && T[t][Val(r)] != Unset ==>
        || (exists x :: Ends(cs, l, t, x, r))
        || (exists j :: Child(l, t, j) && IsIndexOf(l, t, j, r))
    }

    ghost predicate Ends(cs: Codes, l: nat, t: nat, x: seq<bool>, r: seq<bool>)
      requires cs.Wf() && t < |S|
    {
      cs.IsWord(x) && Start(x) < P && |S[t].pre| < |x| <= |S[t].pre| + l && x <= S[t].pre + r
    }

    ghost predicate IsIndexOf(l: nat, t: nat, j: nat, r: seq<bool>)
      requires t < |S| && j < |S|
    {
      && |S[j].pre| == |S[t].pre| + l && l <= |r|
      && r == S[j].pre[|S[t].pre|..] + Zeros(|r| - l)
    }

    /** Every entered word has its tables. */
    ghost predicate PathOK(cs: Codes, l: nat, x: seq<bool>, h: nat)
      requires cs.Wf()
    {
      cs.IsWord(x) && Start(x) < P && Depth(l, h) < |x| ==>
        exists t :: 0 <= t < |S| && HasPrefix(t, h, x[..Depth(l, h)])
    }

    ghost predicate HasPrefix(t: nat, h: nat, p: seq<bool>)
      requires t < |S|
    {
      S[t].level == h && S[t].pre == p
    }

    ghost predicate Leaves(src: Source, cs: Codes, l: nat)
      requires src.Wf() && Matches(cs, src.b) && Sized()
    {
      forall t, x, r :: 0 <= t < |S| ==> LeafOK(src, cs, l, t, x, r)
    }

    ghost predicate Links(l: nat)
      requires Sized()
    {
      forall t, j :: LinkOK(l, t, j)
    }

    ghost predicate Only(cs: Codes, l: nat)
      requires cs.Wf() && Sized()
    {
      forall t, r :: 0 <= t < |S| ==> OnlyOK(cs, l, t, r)
    }

    ghost predicate Paths(cs: Codes, l: nat)
      requires cs.Wf()
    {
      forall x, h :: PathOK(cs, l, x, h)
    }

    /** What every step of the construction keeps. */
    ghost predicate Inv(src: Source, cs: Codes, l: nat)
      requires src.Wf() && Matches(cs, src.b)
    {
      && 1 <= l <= cs.g && Sized() && Shapes(cs, l) && Unique()
      && Leaves(src, cs, l) && Links(l) && Only(cs, l) && Paths(cs, l)
    }
  }
}
