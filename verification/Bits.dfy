/** Bit strings and the C bit operators on unsigned words.  Shifts are defined one bit at a
    time, so everything here is linear arithmetic. */
module Bits {

  type byte = x: int | 0 <= x < 256

  /** x << n */
  function Shl(x: nat, n: nat): (r: nat)
    ensures r >= x
  {
    if n == 0 then x else 2 * Shl(x, n - 1)
  }

  /** x >> n */
  function Shr(x: nat, n: nat): (r: nat)
    ensures r <= x
  {
    if n == 0 then x else Shr(x / 2, n - 1)
  }

  /** The low n bits of x. */
  function Mask(x: nat, n: nat): (r: nat)
    ensures r <= x
  {
    if n == 0 then 0 else x % 2 + 2 * Mask(x / 2, n - 1)
  }

  /** 1 << n */
  function Pow2(n: nat): (p: nat)
    ensures p >= 1
  {
    if n == 0 then 1 else 2 * Pow2(n - 1)
  }

  lemma {:induction false} ShlAdd(x: nat, y: nat, n: nat)
    ensures Shl(x + y, n) == Shl(x, n) + Shl(y, n)
  {
    if n > 0 { ShlAdd(x, y, n - 1); }
  }

  lemma {:induction false} ShlMono(x: nat, y: nat, n: nat)
    ensures x <= y <==> Shl(x, n) <= Shl(y, n)
  {
    if n > 0 { ShlMono(x, y, n - 1); }
  }

  lemma {:induction false} ShlShl(x: nat, n: nat, m: nat)
    ensures Shl(Shl(x, n), m) == Shl(x, n + m)
  {
    if m > 0 { ShlShl(x, n, m - 1); }
  }

  lemma {:induction false} ShlPow2(n: nat, m: nat)
    ensures Shl(Pow2(n), m) == Pow2(n + m)
  {
    if m > 0 { ShlPow2(n, m - 1); }
  }

  lemma {:induction false} Pow2Mono(a: nat, b: nat)
    requires a <= b
    ensures Pow2(a) <= Pow2(b)
    ensures a < b ==> 2 * Pow2(a) <= Pow2(b)
    decreases b - a
  {
    if a < b { Pow2Mono(a, b - 1); }
  }

  lemma {:induction false} MaskBound(x: nat, n: nat)
    ensures Mask(x, n) < Pow2(n)
    ensures x < Pow2(n) ==> Mask(x, n) == x && Shr(x, n) == 0
  {
    if n > 0 { MaskBound(x / 2, n - 1); }
  }

  /** A word is its high part shifted back up, plus its low part. */
  lemma {:induction false} Split(x: nat, n: nat)
    ensures x == Shl(Shr(x, n), n) + Mask(x, n)
  {
    if n > 0 {
      Split(x / 2, n - 1);
    }
  }

  lemma {:induction false} SplitUnique(h: nat, l: nat, n: nat)
    requires l < Pow2(n)
    ensures Shr(Shl(h, n) + l, n) == h && Mask(Shl(h, n) + l, n) == l
  {
    if n > 0 {
      SplitUnique(h, l / 2, n - 1);
      assert (Shl(h, n) + l) / 2 == Shl(h, n - 1) + l / 2;
    }
  }

  // ----- bit strings: the first bit is the least significant -----

  function Val(s: seq<bool>): (v: nat)
    ensures v < Pow2(|s|)
  {
    if s == [] then 0 else (if s[0] then 1 else 0) + 2 * Val(s[1..])
  }

  lemma {:induction false} ValAppend(x: seq<bool>, y: seq<bool>)
    ensures Val(x + y) == Shl(Val(y), |x|) + Val(x)
  {
    if x == [] {
      assert x + y == y;
    } else {
      ValAppend(x[1..], y);
      assert (x + y)[1..] == x[1..] + y;
    }
  }

  lemma {:induction false} ValInjective(x: seq<bool>, y: seq<bool>)
    requires |x| == |y| && Val(x) == Val(y)
    ensures x == y
  {
    if x != [] {
      ValInjective(x[1..], y[1..]);
      assert x == [x[0]] + x[1..] && y == [y[0]] + y[1..];
    }
  }

  /** Masking keeps the leading bits and shifting drops them. */
  lemma {:induction false} ValSplit(s: seq<bool>, n: nat)
    requires n <= |s|
    ensures Mask(Val(s), n) == Val(s[..n])
    ensures Shr(Val(s), n) == Val(s[n..])
  {
    assert s == s[..n] + s[n..];
    ValAppend(s[..n], s[n..]);
    SplitUnique(Val(s[n..]), Val(s[..n]), n);
  }

  function Zeros(n: nat): (s: seq<bool>)
    ensures |s| == n && forall i :: 0 <= i < n ==> !s[i]
    ensures Val(s) == 0
  {
    if n == 0 then [] else [false] + Zeros(n - 1)
  }

  lemma {:induction false} ShlZero(n: nat)
    ensures Shl(0, n) == 0
  {
    if n > 0 { ShlZero(n - 1); }
  }

  lemma {:induction false} ValZeros(s: seq<bool>, n: nat)
    ensures Val(s + Zeros(n)) == Val(s)
  {
    ValAppend(s, Zeros(n));
    ShlZero(|s|);
  }

  /** The low n bits of v. */
  function Low(v: nat, n: nat): (s: seq<bool>)
    ensures |s| == n
  {
    if n == 0 then [] else [v % 2 == 1] + Low(v / 2, n - 1)
  }

  lemma {:induction false} LowVal(v: nat, n: nat)
    requires v < Pow2(n)
    ensures Val(Low(v, n)) == v
  {
    if n > 0 { LowVal(v / 2, n - 1); }
  }

  // ----- the C operators |, & and ^ on unsigned words -----

  function Or(a: nat, b: nat): nat
  {
    if a == 0 then b else if b == 0 then a else
    (if a % 2 == 1 || b % 2 == 1 then 1 else 0) + 2 * Or(a / 2, b / 2)
  }

  function And(a: nat, b: nat): nat
  {
    if a == 0 || b == 0 then 0 else
    (if a % 2 == 1 && b % 2 == 1 then 1 else 0) + 2 * And(a / 2, b / 2)
  }

  function Xor(a: nat, b: nat): nat
  {
    if a == 0 then b else if b == 0 then a else
    (if a % 2 != b % 2 then 1 else 0) + 2 * Xor(a / 2, b / 2)
  }

  lemma {:induction false} OrDisjoint(a: nat, x: nat, k: nat)
    requires a < Pow2(k)
    ensures Or(a, Shl(x, k)) == a + Shl(x, k)
  {
    if k > 0 { OrDisjoint(a / 2, x, k - 1); }
  }

  lemma {:induction false} AndMask(a: nat, n: nat)
    ensures And(a, Pow2(n) - 1) == Mask(a, n)
  {
    if n > 0 { AndMask(a / 2, n - 1); }
  }

  /** Bit i of word a, counted from the least significant end. */
  predicate Bit(a: nat, i: nat)
  {
    if i == 0 then a % 2 == 1 else Bit(a / 2, i - 1)
  }

  lemma {:induction false} AndBit(a: nat, i: nat)
    ensures And(a, Pow2(i)) == if Bit(a, i) then Pow2(i) else 0
  {
    if i > 0 {
      AndBit(a / 2, i - 1);
      if a == 0 { ZeroBit(i - 1); }
    } else if a > 1 {
      assert And(a / 2, 0) == 0;
    }
  }

  lemma {:induction false} AndHalf(a: nat, b: nat)
    ensures And(a, b) / 2 == And(a / 2, b / 2) && (And(a, b) % 2 == 1 <==> a % 2 == 1 && b % 2 == 1)
  {
  }

  lemma {:induction false} OrHalf(a: nat, b: nat)
    ensures Or(a, b) / 2 == Or(a / 2, b / 2) && (Or(a, b) % 2 == 1 <==> a % 2 == 1 || b % 2 == 1)
  {
  }

  lemma {:induction false} AndBits(a: nat, b: nat, i: nat)
    ensures Bit(And(a, b), i) <==> Bit(a, i) && Bit(b, i)
  {
    hide And;
    AndHalf(a, b);
    if i > 0 { AndBits(a / 2, b / 2, i - 1); }
  }

  lemma {:induction false} OrBits(a: nat, b: nat, i: nat)
    ensures Bit(Or(a, b), i) <==> Bit(a, i) || Bit(b, i)
  {
    hide Or;
    OrHalf(a, b);
    if i > 0 { OrBits(a / 2, b / 2, i - 1); }
  }

  lemma {:induction false} AndAtMost(a: nat, b: nat)
    ensures And(a, b) <= a
  {
    if a > 0 && b > 0 { AndAtMost(a / 2, b / 2); }
  }

  lemma {:induction false} OrBound(a: nat, b: nat, n: nat)
    requires a < Pow2(n) && b < Pow2(n)
    ensures Or(a, b) < Pow2(n)
  {
    if n > 0 { OrBound(a / 2, b / 2, n - 1); }
  }

  lemma {:induction false} ZeroBit(i: nat)
    ensures !Bit(0, i)
  {
    if i > 0 { ZeroBit(i - 1); }
  }

  lemma {:induction false} Pow2Bit(n: nat, i: nat)
    ensures Bit(Pow2(n), i) <==> i == n
  {
    if n > 0 && i > 0 {
      Pow2Bit(n - 1, i - 1);
    } else if n == 0 && i > 0 {
      ZeroBit(i - 1);
    }
  }

  /** The complement of a single bit within n bits. */
  lemma {:induction false} NotBit(n: nat, k: nat, i: nat)
    requires k < n && i < n
    ensures Pow2(k) < Pow2(n) && (Bit(Pow2(n) - 1 - Pow2(k), i) <==> i != k)
  {
    Pow2Mono(k, n);
    if i == 0 {
    } else if k == 0 {
      OnesBit(n - 1, i - 1);
      assert (Pow2(n) - 2) / 2 == Pow2(n - 1) - 1;
    } else {
      NotBit(n - 1, k - 1, i - 1);
      assert (Pow2(n) - 1 - Pow2(k)) / 2 == Pow2(n - 1) - 1 - Pow2(k - 1);
    }
  }

  lemma {:induction false} OnesBit(n: nat, i: nat)
    requires i < n
    ensures Bit(Pow2(n) - 1, i)
  {
    if i > 0 {
      OnesBit(n - 1, i - 1);
      assert (Pow2(n) - 1) / 2 == Pow2(n - 1) - 1;
    }
  }

  /** A word other than all ones has a clear bit. */
  lemma {:induction false} ClearBit(a: nat, n: nat) returns (i: nat)
    requires a < Pow2(n) - 1
    ensures i < n && !Bit(a, i)
  {
    if a % 2 == 0 {
      i := 0;
    } else {
      i := ClearBit(a / 2, n - 1);
      i := i + 1;
    }
  }

  // ----- division -----

  /** Division is unique. */
  lemma {:induction false} DivUnique(x: int, b: int, q: int, r: int)
    requires 0 <= r < b && x == q * b + r
    ensures x / b == q && x % b == r
  {
    var k, m := x / b, x % b;
    assert (k - q) * b == r - m && (q - k) * b == m - r;
    if k > q {
      MulLeast(k - q, b);
      assert false;
    } else if k < q {
      MulLeast(q - k, b);
      assert false;
    }
  }

  lemma {:induction false} MulLeast(k: int, b: int)
    requires k >= 1 && b >= 0
    ensures k * b >= b
  {
  }

  lemma {:induction false} ShlMul(x: nat, n: nat)
    ensures Shl(x, n) == x * Pow2(n)
  {
    if n > 0 { ShlMul(x, n - 1); }
  }

  /** Shifts and masks are division by powers of two. */
  lemma {:induction false} ShrDiv(x: nat, n: nat)
    ensures Shr(x, n) == x / Pow2(n) && Mask(x, n) == x % Pow2(n)
  {
    Split(x, n);
    MaskBound(x, n);
    ShlMul(Shr(x, n), n);
    DivUnique(x, Pow2(n), Shr(x, n), Mask(x, n));
  }
}
