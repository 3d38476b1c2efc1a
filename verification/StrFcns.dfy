/** The copy and compare routines of kernel/generic/bootstrap/strfcns.c. */
module StrFcns {
  import opened Bits
  import opened FileDirect

  lemma {:induction false} Copied(t: seq<byte>, s: seq<byte>, from: nat, to: nat, n: nat)
    requires |t| == |s| && from + n <= |s| && to + n <= |s|
    requires forall j :: 0 <= j < |s| && !(to <= j < to + n) ==> t[j] == s[j]
    requires t[to..to + n] == s[from..from + n]
    ensures t == Splice(s, to, s[from..from + n])
  {
    assert t == t[..to] + t[to..to + n] + t[to + n..];
  }

  /** bcopy, from the lowest address up; the ranges must not overlap with to above from. */
  method Bcopy(a: array<byte>, from: nat, to: nat, n: nat)
    requires from + n <= a.Length && to + n <= a.Length && (to <= from || from + n <= to)
    modifies a
    ensures a[..] == Splice(old(a[..]), to, old(a[from..from + n]))
  {
    ghost var s := a[..];
    var i := 0;
    while i < n
      invariant 0 <= i <= n
      invariant forall j :: 0 <= j < a.Length && !(to <= j < to + i) ==> a[j] == s[j]
      invariant a[to..to + i] == s[from..from + i]
    {
      assert a[from + i] == s[from + i];
      a[to + i] := a[from + i];
      i := i + 1;
    }
    Copied(a[..], s, from, to, n);
  }

  /** ovbcopy: the range arrives whole however the ranges overlap. */
  method Ovbcopy(a: array<byte>, from: nat, to: nat, n: nat)
    requires from + n <= a.Length && to + n <= a.Length
    modifies a
    ensures a[..] == Splice(old(a[..]), to, old(a[from..from + n]))
  {
    if from + n <= to || to + n <= from || to == from {
      Bcopy(a, from, to, n);
    } else if from > to {
      Bcopy(a, from, to, n);
    } else {
      ghost var s := a[..];
      var k := n;
      while k > 0
        invariant 0 <= k <= n
        invariant forall j :: 0 <= j < a.Length && !(to + k <= j < to + n) ==> a[j] == s[j]
        invariant a[to + k..to + n] == s[from + k..from + n]
      {
        k := k - 1;
        ghost var rest := a[to + k + 1..to + n];
        a[to + k] := a[from + k];
        assert a[to + k..to + n] == [s[from + k]] + rest;
      }
      Copied(a[..], s, from, to, n);
    }
  }

  /** A string in a buffer: from cp to the zero byte at end. */
  ghost predicate Str(a: array<byte>, cp: nat, end: nat)
    reads a
  {
    cp <= end < a.Length && a[end] == 0 && forall i :: cp <= i < end ==> a[i] != 0
  }

  /** strprefix */
  method StrPrefix(a: array<byte>, cp: nat, s2: seq<byte>, ghost end: nat) returns (r: bool)
    requires Str(a, cp, end) && 0 !in s2
    ensures r <==> s2 <= a[cp..end]
  {
    ghost var s1 := a[cp..end];
    var i := 0;
    while i < |s2|
      invariant 0 <= i <= |s2| && i <= |s1| && s2[..i] == s1[..i]
    {
      assert i < |s1| ==> s1[i] == a[cp + i];
      if s2[i] != a[cp + i] {
        assert i < |s1| ==> s2[i] != s1[i];
        return false;
      }
      i := i + 1;
    }
    r := true;
  }
}
