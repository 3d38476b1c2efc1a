/** The preparatory loops of huft_build (kernel/boot/linux/inflate.c:135-192): length counts,
    shortest and longest length, the number of missing codes, and symbols in code order. */
module HuftPrep {
  import opened Bits
  import opened Canonical
  import opened HuftTable
  import opened CodeSet

  method CountLengths(b: seq<nat>) returns (c: seq<nat>)
    requires forall i :: 0 <= i < |b| ==> b[i] <= BMAX
    ensures c == Counts(b)
  {
    c := seq(BMAX + 1, _ => 0);
    var i := 0;
    while i < |b|
      invariant i <= |b| && c == Counts(b[..i])
    {
      assert b[..i + 1][..i] == b[..i];
      c := c[b[i] := c[b[i]] + 1];
      i := i + 1;
    }
    assert b[..|b|] == b;
  }

  method LengthRange(c: seq<nat>) returns (lo: nat, g: nat)
    requires |c| == BMAX + 1
    ensures lo == Lowest(c, 1) && g == Highest(c, BMAX)
  {
    lo := 1;
    while lo <= BMAX && c[lo] == 0
      invariant 1 <= lo <= BMAX + 1 && Lowest(c, lo) == Lowest(c, 1)
    {
      lo := lo + 1;
    }
    g := BMAX;
    while g > 0 && c[g] == 0
      invariant g <= BMAX && Highest(c, g) == Highest(c, BMAX)
    {
      g := g - 1;
    }
  }

  lemma {:induction false} FirstZero(c: seq<nat>, k: nat)
    requires k <= |c| && forall j :: 1 <= j < k ==> c[j] == 0
    ensures First(c, k) == 0
  {
    if k > 1 { FirstZero(c, k - 1); }
  }

  /** How many codes of length g are missing; negative if there are too many codes. */
  method Leftover(c: seq<nat>, lo: nat, g: nat) returns (y: int)
    requires |c| == BMAX + 1 && 1 <= lo <= g <= BMAX
    requires forall i :: 1 <= i < lo ==> c[i] == 0
    ensures y < 0 <==> First(c, g) + c[g] > Pow2(g)
    ensures y >= 0 ==> y == Pow2(g) - First(c, g) - c[g]
  {
    FirstZero(c, lo);
    var j := lo;
    y := Pow2(lo);
    while j < g
      invariant lo <= j <= g && y == Pow2(j) - First(c, j)
    {
      y := y - c[j];
      if y < 0 {
        if First(c, g) + c[g] <= Pow2(g) {
          FitsDown(c, j, g);
        }
        return;
      }
      j := j + 1;
      y := 2 * y;
    }
    y := y - c[g];
  }

  method Offsets(c: seq<nat>, g: nat) returns (x: seq<nat>)
    requires |c| == BMAX + 1 && 1 <= g <= BMAX
    ensures |x| == BMAX + 1 && forall k :: 1 <= k <= g ==> x[k] == Before(c, k)
  {
    x := seq(BMAX + 1, _ => 0);
    var j, i := 0, 1;
    while i < g
      invariant 1 <= i <= g && |x| == BMAX + 1 && j == Before(c, i)
      invariant forall k :: 1 <= k <= i ==> x[k] == Before(c, k)
    {
      j := j + c[i];
      i := i + 1;
      x := x[i := j];
    }
  }

  /** Symbols in code order; -1 marks a slot of v[] that is never written. */
  ghost predicate SlotOK(b: seq<nat>, v: seq<int>, n: nat, k: nat, r: nat)
    requires n <= |b|
  {
    1 <= k <= BMAX && r < Count(b[..n], k) ==>
      var at := Before(Counts(b), k) + r;
      at < |v| && r < Count(b, k) && v[at] == Nth(b, k, r)
  }

  ghost predicate Sorted(b: seq<nat>, v: seq<int>)
  {
    && |v| == |b|
    && (forall k, r :: SlotOK(b, v, |b|, k, r))
    && forall p :: |b| - Count(b, 0) <= p < |b| && 0 <= p ==> v[p] == -1
  }

  lemma {:induction false} CountMono(b: seq<nat>, i: nat, j: nat, k: nat)
    requires i <= j <= |b|
    ensures Count(b[..i], k) <= Count(b[..j], k)
    ensures i < j && b[i] == k ==> Count(b[..i], k) < Count(b[..j], k)
    decreases j - i
  {
    if i < j {
      assert b[..j][..j - 1] == b[..j - 1];
      CountMono(b, i, j - 1, k);
    }
  }

  /** The i-th symbol is the one its rank names. */
  lemma {:induction false} NthAt(b: seq<nat>, i: nat)
    requires i < |b|
    ensures Count(b[..i], b[i]) < Count(b, b[i]) && Nth(b, b[i], Count(b[..i], b[i])) == i
  {
    hide Count;
    var k := b[i];
    CountMono(b, i, |b|, k);
    assert b[..|b|] == b;
    var j := Nth(b, k, Count(b[..i], k));
    if j < i {
      CountMono(b, j, i, k);
    } else if i < j {
      CountMono(b, i, j, k);
    }
  }

  /** Where symbol i goes: inside the part of v[] for its length. */
  lemma {:induction false} SlotBound(b: seq<nat>, k: nat, r: nat)
    requires forall i :: 0 <= i < |b| ==> b[i] <= BMAX
    requires 1 <= k <= BMAX && r < Count(b, k)
    ensures Before(Counts(b), k) + r < |b| - Count(b, 0)
  {
    hide Count;
    CountAll(b, |b|);
    assert b[..|b|] == b;
    BeforeMono(Counts(b), k, BMAX + 1);
    assert Counts(b)[k] == Count(b, k);
  }

  lemma {:induction false} SlotsDiffer(b: seq<nat>, k: nat, r: nat, k': nat, r': nat)
    requires 1 <= k <= BMAX && 1 <= k' <= BMAX && r < Count(b, k) && r' < Count(b, k')
    ensures Before(Counts(b), k) + r == Before(Counts(b), k') + r' ==> k == k' && r == r'
  {
    hide Count;
    assert Counts(b)[k] == Count(b, k) && Counts(b)[k'] == Count(b, k');
    if k < k' {
      BeforeMono(Counts(b), k, k');
    } else if k' < k {
      BeforeMono(Counts(b), k', k);
    }
  }

  lemma {:induction false} CountNext(b: seq<nat>, n: nat, k: nat)
    requires n < |b|
    ensures Count(b[..n + 1], k) == Count(b[..n], k) + if b[n] == k then 1 else 0
  {
    assert b[..n + 1][..n] == b[..n];
  }

  lemma {:induction false} SlotStep(b: seq<nat>, v: seq<int>, v': seq<int>, n: nat, k: nat, r: nat)
    requires n < |b| == |v| == |v'| && forall i :: 0 <= i < |b| ==> b[i] <= BMAX
    requires SlotOK(b, v, n, k, r)
    requires b[n] == 0 ==> v' == v
    requires b[n] != 0 ==>
      var at := Before(Counts(b), b[n]) + Count(b[..n], b[n]);
      at < |v| && v' == v[at := n]
    ensures SlotOK(b, v', n + 1, k, r)
  {
    hide Count, Before, Nth;
    CountNext(b, n, k);
    if 1 <= k <= BMAX && r < Count(b[..n + 1], k) {
      CountMono(b, n + 1, |b|, k);
      assert b[..|b|] == b;
      NthAt(b, n);
      if r < Count(b[..n], k) {
        if b[n] != 0 {
          SlotsDiffer(b, k, r, b[n], Count(b[..n], b[n]));
        }
      }
    }
  }

  method SortSymbols(b: seq<nat>, x0: seq<nat>, g: nat) returns (v: seq<int>)
    requires forall i :: 0 <= i < |b| ==> b[i] <= g
    requires 1 <= g <= BMAX && |x0| == BMAX + 1
    requires forall k :: 1 <= k <= g ==> x0[k] == Before(Counts(b), k)
    ensures |v| == |b| && Sorted(b, v) && forall i :: 0 <= i < |v| ==> -1 <= v[i] < |b|
  {
    hide Count, Before, Nth;
    var x := x0;
    v := seq(|b|, _ => -1);
    var i := 0;
    NoCounts();
    while i < |b|
      invariant i <= |b| && |x| == BMAX + 1 && |v| == |b|
      invariant forall k :: 1 <= k <= g ==> x[k] == Before(Counts(b), k) + Count(b[..i], k)
      invariant forall k, r :: SlotOK(b, v, i, k, r)
      invariant forall p :: 0 <= p < |v| ==> -1 <= v[p] < |b|
      invariant forall p :: |b| - Count(b, 0) <= p < |b| && 0 <= p ==> v[p] == -1
    {
      ghost var v0 := v;
      forall k: nat ensures Count(b[..i + 1], k) == Count(b[..i], k) + if b[i] == k then 1 else 0 {
        CountNext(b, i, k);
      }
      var j := b[i];
      if j != 0 {
        NthAt(b, i);
        SlotBound(b, j, Count(b[..i], j));
        v := v[x[j] := i];
        x := x[j := x[j] + 1];
      }
      i := i + 1;
      forall k, r ensures SlotOK(b, v, i, k, r) {
        assert SlotOK(b, v0, i - 1, k, r);
        SlotStep(b, v0, v, i - 1, k, r);
      }
    }
    assert b[..i] == b;
  }

  lemma {:induction false} NoCounts()
    ensures forall k: nat :: Count([], k) == 0
  {
  }

  /** No code at all exactly if every length is zero. */
  lemma {:induction false} AllZero(b: seq<nat>)
    requires forall i :: 0 <= i < |b| ==> b[i] <= BMAX
    ensures Count(b, 0) == |b| <==> MaxLen(b) == 0
    ensures forall i :: 0 <= i < |b| ==> b[i] <= MaxLen(b)
  {
    hide Count;
    var c := Counts(b);
    CountAll(b, |b|);
    assert b[..|b|] == b;
    if MaxLen(b) == 0 {
      BeforeNone(c, BMAX + 1);
    } else {
      BeforeMono(c, MaxLen(b), BMAX + 1);
    }
    forall i | 0 <= i < |b| ensures b[i] <= MaxLen(b) {
      NthAt(b, i);
      assert c[b[i]] == Count(b, b[i]);
    }
  }

  lemma {:induction false} BeforeNone(c: seq<nat>, k: nat)
    requires k <= |c| && forall j :: 1 <= j < |c| ==> c[j] == 0
    ensures Before(c, k) == 0
  {
    if k > 1 { BeforeNone(c, k - 1); }
  }
}
