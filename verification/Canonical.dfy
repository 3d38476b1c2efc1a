/** Canonical prefix codes, as section 3.2.2 of RFC 1951 defines them from a list of code
    lengths.  A code word is a bit string whose first bit is sent first. */
module Canonical {
  import opened Bits

  /** Longest code length a decoder table is built for. */
  const BMAX: nat := 16

  /** Positions are scaled so that every string of at most SCALE bits has an integral one. */
  const SCALE: nat := 33

  /** The number of entries of b equal to k. */
  function Count(b: seq<nat>, k: nat): nat
  {
    if b == [] then 0 else Count(b[..|b| - 1], k) + if b[|b| - 1] == k then 1 else 0
  }

  /** The r-th index (from zero) at which k occurs in b. */
  function Nth(b: seq<nat>, k: nat, r: nat): (i: nat)
    requires r < Count(b, k)
    ensures i < |b| && b[i] == k && Count(b[..i], k) == r
  {
    if b[|b| - 1] == k && Count(b[..|b| - 1], k) == r then |b| - 1
    else
      var i := Nth(b[..|b| - 1], k, r);
      assert b[..i] == b[..|b| - 1][..i];
      i
  }

  /** The first code of length k when cnt[j] codes have length j (the RFC's next_code). */
  function First(cnt: seq<nat>, k: nat): nat
    requires k <= |cnt|
  {
    if k <= 1 then 0 else 2 * (First(cnt, k - 1) + cnt[k - 1])
  }

  /** The k low bits of c, most significant first. */
  function Code(c: nat, k: nat): (q: seq<bool>)
    ensures |q| == k
  {
    if k == 0 then [] else Code(c / 2, k - 1) + [c % 2 == 1]
  }

  /** The number a bit string spells, most significant bit first. */
  function Msb(q: seq<bool>): (v: nat)
    ensures v < Pow2(|q|)
  {
    if q == [] then 0 else 2 * Msb(q[..|q| - 1]) + if q[|q| - 1] then 1 else 0
  }

  lemma {:induction false} CodeMsb(q: seq<bool>)
    ensures Code(Msb(q), |q|) == q
  {
    if q != [] {
      CodeMsb(q[..|q| - 1]);
      assert q == q[..|q| - 1] + [q[|q| - 1]];
    }
  }

  lemma {:induction false} MsbCode(c: nat, k: nat)
    requires c < Pow2(k)
    ensures Msb(Code(c, k)) == c
  {
    if k > 0 {
      MsbCode(c / 2, k - 1);
      assert Code(c, k)[..k - 1] == Code(c / 2, k - 1);
    }
  }

  lemma {:induction false} MsbAppend(x: seq<bool>, y: seq<bool>)
    ensures Msb(x + y) == Shl(Msb(x), |y|) + Msb(y)
  {
    if y == [] {
      assert x + y == x;
    } else {
      var y' := y[..|y| - 1];
      MsbAppend(x, y');
      assert (x + y)[..|x + y| - 1] == x + y';
    }
  }

  // ----- every string owns an interval of positions -----

  /** Where the c-th string of n bits begins. */
  function At(c: nat, n: nat): nat
    requires n <= SCALE
  {
    Shl(c, SCALE - n)
  }

  /** How many positions a string of n bits owns. */
  function Width(n: nat): (w: nat)
    requires n <= SCALE
    ensures w >= 1
  {
    Shl(1, SCALE - n)
  }

  function Start(q: seq<bool>): nat
    requires |q| <= SCALE
  {
    At(Msb(q), |q|)
  }

  lemma {:induction false} AtShift(c: nat, n: nat, m: nat)
    requires n + m <= SCALE
    ensures At(c, n) == At(Shl(c, m), n + m)
  {
    ShlShl(c, m, SCALE - n - m);
  }

  lemma {:induction false} AtAdd(c: nat, d: nat, n: nat)
    requires n <= SCALE
    ensures At(c + d, n) == At(c, n) + At(d, n)
  {
    ShlAdd(c, d, SCALE - n);
  }

  lemma {:induction false} AtNext(c: nat, n: nat)
    requires n <= SCALE
    ensures At(c + 1, n) == At(c, n) + Width(n)
  {
    ShlAdd(c, 1, SCALE - n);
  }

  lemma {:induction false} AtMono(c: nat, d: nat, n: nat)
    requires n <= SCALE
    ensures c <= d <==> At(c, n) <= At(d, n)
  {
    ShlMono(c, d, SCALE - n);
  }

  /** Strings of equal length own disjoint intervals. */
  lemma {:induction false} AtDisjoint(c: nat, d: nat, n: nat, x: nat)
    requires n <= SCALE
    requires At(c, n) <= x < At(c, n) + Width(n)
    ensures At(d, n) <= x < At(d, n) + Width(n) ==> c == d
    ensures At(d, n) <= x ==> d <= c
    ensures x < At(d, n) ==> c < d
  {
    AtNext(c, n);
    AtNext(d, n);
    AtMono(c + 1, d, n);
    AtMono(d + 1, c, n);
    AtMono(d, c, n);
  }

  lemma {:induction false} ShlOne(n: nat)
    ensures Shl(1, n) == Pow2(n)
  {
    if n > 0 { ShlOne(n - 1); }
  }

  /** The interval of an extension of p lies inside the interval of p. */
  lemma {:induction false} StartAppend(p: seq<bool>, y: seq<bool>)
    requires |p| + |y| <= SCALE
    ensures Start(p + y) == Start(p) + At(Msb(y), |p| + |y|)
    ensures Start(p) <= Start(p + y)
    ensures Start(p + y) + Width(|p| + |y|) <= Start(p) + Width(|p|)
  {
    hide Shl, Msb;
    var n := |p| + |y|;
    MsbAppend(p, y);
    AtShift(Msb(p), |p|, |y|);
    AtAdd(Shl(Msb(p), |y|), Msb(y), n);
    AtShift(1, |p|, |y|);
    ShlOne(|y|);
    AtMono(Msb(y) + 1, Pow2(|y|), n);
    AtNext(Msb(y), n);
  }

  lemma {:induction false} StartBound(q: seq<bool>)
    requires |q| <= SCALE
    ensures Start(q) + Width(|q|) <= Width(0)
  {
    StartAppend([], q);
    assert [] + q == q;
    ShlZero(SCALE);
  }

  lemma {:induction false} StartPrefix(p: seq<bool>, q: seq<bool>)
    requires p <= q && |q| <= SCALE
    ensures Start(p) <= Start(q)
    ensures Start(q) + Width(|q|) <= Start(p) + Width(|p|)
  {
    assert q == p + q[|p|..];
    StartAppend(p, q[|p|..]);
  }

  /** A string that starts inside the interval of a string no longer than itself extends it. */
  lemma {:induction false} PrefixFromStart(p: seq<bool>, q: seq<bool>)
    requires |p| <= |q| <= SCALE
    requires Start(p) <= Start(q) < Start(p) + Width(|p|)
    ensures p <= q
  {
    var q' := q[..|p|];
    StartPrefix(q', q);
    AtDisjoint(Msb(p), Msb(q'), |p|, Start(q));
    CodeMsb(p);
    CodeMsb(q');
  }

  // ----- sets of code words -----

  /** A code set: cnt[k] canonical code words of each length k in 1..g. */
  datatype Codes = Codes(cnt: seq<nat>, g: nat) {

    ghost predicate Wf()
    {
      && 1 <= g <= BMAX && |cnt| == BMAX + 1
      && cnt[g] > 0
      && forall k :: 1 <= k <= g ==> Fits(k)
    }

    /** The words of length k and less do not use up more than all patterns. */
    ghost predicate Fits(k: nat)
      requires k < |cnt|
    {
      First(cnt, k) + cnt[k] <= Pow2(k)
    }

    /** The words use up all bit patterns. */
    ghost predicate Complete()
      requires Wf()
    {
      First(cnt, g) + cnt[g] == Pow2(g)
    }

    ghost predicate IsWord(w: seq<bool>)
      requires Wf()
    {
      1 <= |w| <= g && First(cnt, |w|) <= Msb(w) < First(cnt, |w|) + cnt[|w|]
    }

    /** Position just after the last word of length k or less. */
    ghost function After(k: nat): nat
      requires Wf() && 1 <= k <= g
    {
      At(First(cnt, k) + cnt[k], k)
    }

    lemma {:induction false} AfterStep(k: nat)
      requires Wf() && 1 <= k < g
      ensures After(k) == At(First(cnt, k + 1), k + 1)
      ensures After(k + 1) == After(k) + At(cnt[k + 1], k + 1)
    {
      assert Shl(First(cnt, k) + cnt[k], 1) == First(cnt, k + 1) by { hide At; }
      hide At, Shl, First;
      AtShift(First(cnt, k) + cnt[k], k, 1);
      AtAdd(First(cnt, k + 1), cnt[k + 1], k + 1);
    }

    lemma {:induction false} AfterMono(k: nat, j: nat)
      requires Wf() && 1 <= k <= j <= g
      ensures After(k) <= After(j)
      ensures k < j ==> After(k) <= At(First(cnt, j), j)
      decreases j - k
    {
      if k < j {
        AfterStep(j - 1);
        AfterMono(k, j - 1);
      }
    }

    /** Words are laid out by length and then by code, without overlap. */
    lemma {:induction false} Ordered(v: seq<bool>, w: seq<bool>)
      requires Wf() && IsWord(v) && IsWord(w)
      requires |v| < |w| || (|v| == |w| && Msb(v) < Msb(w))
      ensures Start(v) + Width(|v|) <= Start(w)
    {
      hide At, Msb, First;
      var k, j, c, d := |v|, |w|, Msb(v), Msb(w);
      AtNext(c, k);
      if k < j {
        AtMono(c + 1, First(cnt, k) + cnt[k], k);
        AfterMono(k, j);
        AtMono(First(cnt, j), d, j);
      } else {
        AtMono(c + 1, d, j);
      }
    }

    /** No word is a proper prefix of another, nor starts inside another. */
    lemma {:induction false} PrefixFree(v: seq<bool>, w: seq<bool>)
      requires Wf() && IsWord(v) && IsWord(w)
      requires v <= w || Start(v) <= Start(w) < Start(v) + Width(|v|)
      ensures v == w
    {
      if v <= w {
        StartPrefix(v, w);
      }
      if |v| == |w| && Msb(v) == Msb(w) {
        CodeMsb(v);
        CodeMsb(w);
      } else if |v| < |w| || (|v| == |w| && Msb(v) < Msb(w)) {
        Ordered(v, w);
      } else {
        Ordered(w, v);
      }
    }

    /** Words at later positions are at least as long. */
    lemma {:induction false} LaterLonger(v: seq<bool>, w: seq<bool>)
      requires Wf() && IsWord(v) && IsWord(w)
      requires Start(v) <= Start(w)
      ensures |v| <= |w|
    {
      if |w| < |v| {
        Ordered(w, v);
      }
    }

    /** Every long enough string begins with a word of a complete set. */
    lemma {:induction false} Cover(s: seq<bool>) returns (w: seq<bool>)
      requires Wf() && Complete() && g <= |s| <= SCALE
      ensures IsWord(w) && w <= s
    {
      hide Shl, Msb, Pow2;
      StartBound(s);
      ShlOne(g);
      AtShift(1, 0, g);
      ShlZero(SCALE - 1);
      var k := 1;
      while After(k) <= Start(s)
        invariant 1 <= k <= g
        invariant At(First(cnt, k), k) <= Start(s)
        decreases g - k
      {
        AfterStep(k);
        k := k + 1;
      }
      w := s[..k];
      StartPrefix(w, s);
      AtDisjoint(Msb(w), First(cnt, k), k, Start(s));
      AtDisjoint(Msb(w), First(cnt, k) + cnt[k], k, Start(s));
    }
  }

  // ----- the code of a list of lengths -----

  function Counts(b: seq<nat>): (cnt: seq<nat>)
    ensures |cnt| == BMAX + 1
  {
    seq(BMAX + 1, k requires 0 <= k => Count(b, k))
  }

  /** The code word RFC 1951 assigns to symbol i. */
  function WordOf(b: seq<nat>, i: nat): (w: seq<bool>)
    requires i < |b| && 1 <= b[i] <= BMAX
    ensures |w| == b[i]
  {
    Code(First(Counts(b), b[i]) + Count(b[..i], b[i]), b[i])
  }
}
