/** The code set huft_build works with: the canonical code of a list of lengths, topped up with
    dummy codes of the greatest length until all bit patterns are used. */
module CodeSet {
  import opened Bits
  import opened Canonical
  import opened HuftTable

  /** The least length from k up that is in use, or BMAX + 1. */
  function Lowest(c: seq<nat>, k: nat): (j: nat)
    requires |c| == BMAX + 1 && k <= BMAX + 1
    ensures k <= j <= BMAX + 1
    ensures j <= BMAX ==> c[j] > 0
    ensures forall i :: k <= i < j ==> c[i] == 0
    decreases BMAX + 1 - k
  {
    if k > BMAX || c[k] > 0 then k else Lowest(c, k + 1)
  }

  /** The greatest length from k down that is in use, or 0. */
  function Highest(c: seq<nat>, k: nat): (j: nat)
    requires |c| == BMAX + 1 && k <= BMAX
    ensures j <= k
    ensures j > 0 ==> c[j] > 0
    ensures forall i :: j < i <= k ==> c[i] == 0
  {
    if k == 0 || c[k] > 0 then k else Highest(c, k - 1)
  }

  function MaxLen(b: seq<nat>): nat
  {
    Highest(Counts(b), BMAX)
  }

  /** The lengths ask for more codes than there are bit patterns. */
  predicate Oversubscribed(b: seq<nat>)
  {
    var c, g := Counts(b), MaxLen(b);
    g > 0 && First(c, g) + c[g] > Pow2(g)
  }

  function CodesOf(b: seq<nat>): Codes
    requires MaxLen(b) > 0 && !Oversubscribed(b)
  {
    var c, g := Counts(b), MaxLen(b);
    Codes(c[g := Pow2(g) - First(c, g)], g)
  }

  lemma {:induction false} FirstAgree(c: seq<nat>, d: seq<nat>, k: nat)
    requires k <= |c| == |d| && forall j :: 0 <= j < k ==> c[j] == d[j]
    ensures First(c, k) == First(d, k)
  {
    if k > 1 { FirstAgree(c, d, k - 1); }
  }

  /** Too many codes up to length k leave too many up to any greater length. */
  lemma {:induction false} FitsDown(c: seq<nat>, k: nat, g: nat)
    requires 1 <= k <= g < |c| && First(c, g) + c[g] <= Pow2(g)
    ensures First(c, k) + c[k] <= Pow2(k)
    decreases g - k
  {
    if k < g {
      FitsDown(c, k + 1, g);
    }
  }

  lemma {:induction false} CodesMatch(b: seq<nat>)
    requires MaxLen(b) > 0 && !Oversubscribed(b)
    ensures Matches(CodesOf(b), b)
  {
    hide Count, Pow2;
    var c, g, cs := Counts(b), MaxLen(b), CodesOf(b);
    FirstAgree(c, cs.cnt, g);
    forall k | 1 <= k <= g ensures cs.Fits(k) {
      FitsDown(cs.cnt, k, g);
    }
    assert forall k :: 0 <= k <= BMAX ==> Counts(b)[k] == Count(b, k);
    assert c[g] > 0;
  }

  /** Nothing was topped up exactly if the lengths form a complete code. */
  predicate CompleteLengths(b: seq<nat>)
  {
    var c, g := Counts(b), MaxLen(b);
    g > 0 && First(c, g) + c[g] == Pow2(g)
  }

  /** The number of symbols of length 1 to k - 1. */
  function Before(c: seq<nat>, k: nat): nat
    requires k <= |c|
  {
    if k <= 1 then 0 else Before(c, k - 1) + c[k - 1]
  }

  lemma {:induction false} CountAll(b: seq<nat>, n: nat)
    requires n <= |b| && forall i :: 0 <= i < n ==> b[i] <= BMAX
    ensures Count(b[..n], 0) + Before(Counts(b[..n]), BMAX + 1) == n
  {
    if n == 0 {
      BeforeZero(Counts(b[..n]), BMAX + 1);
    } else {
      CountAll(b, n - 1);
      assert b[..n][..n - 1] == b[..n - 1];
      BeforeBump(Counts(b[..n - 1]), Counts(b[..n]), b[n - 1], BMAX + 1);
    }
  }

  lemma {:induction false} BeforeZero(c: seq<nat>, k: nat)
    requires k <= |c| && forall j :: 0 <= j < |c| ==> c[j] == 0
    ensures Before(c, k) == 0
  {
    if k > 1 { BeforeZero(c, k - 1); }
  }

  lemma {:induction false} BeforeBump(c: seq<nat>, d: seq<nat>, l: nat, k: nat)
    requires k <= |c| == |d|
    requires forall j :: 0 <= j < |c| ==> d[j] == c[j] + if j == l then 1 else 0
    ensures Before(d, k) == Before(c, k) + if 1 <= l < k then 1 else 0
  {
    if k > 1 { BeforeBump(c, d, l, k - 1); }
  }

  lemma {:induction false} BeforeMono(c: seq<nat>, j: nat, k: nat)
    requires 1 <= j <= k <= |c|
    ensures Before(c, j) <= Before(c, k)
    ensures j < k ==> Before(c, j) + c[j] <= Before(c, k)
    decreases k - j
  {
    if j < k { BeforeMono(c, j, k - 1); }
  }

  lemma {:induction false} BeforeTop(c: seq<nat>, g: nat, k: nat)
    requires 1 <= g < k <= |c| && forall j :: g < j < k ==> c[j] == 0
    ensures Before(c, k) == Before(c, g) + c[g]
    decreases k
  {
    if g + 1 < k { BeforeTop(c, g, k - 1); }
  }

  /** The symbols of the greatest length come last among those in use. */
  lemma {:induction false} UsedSplit(src: Source)
    requires src.Wf() && MaxLen(src.b) > 0
    ensures src.Used() == Before(Counts(src.b), MaxLen(src.b)) + Count(src.b, MaxLen(src.b))
    ensures 0 <= src.Used() <= |src.b|
  {
    hide Count;
    var b := src.b;
    CountAll(b, |b|);
    assert b[..|b|] == b;
    BeforeTop(Counts(b), MaxLen(b), BMAX + 1);
  }
}
