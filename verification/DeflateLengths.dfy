/** An encoder for the code lengths of a dynamic deflate block, and that they are read back. */
module DeflateLengths {
  import opened Bits
  import opened Canonical
  import opened CodeSet
  import opened HuftDecode
  import opened HuftFill
  import opened HuftTable
  import opened HuftSymbols
  import opened HuftSites
  import opened Deflate

  lemma {:induction false} SymbolIs(b: seq<nat>, s: seq<bool>, pos: nat, i: nat)
    requires MaxLen(b) > 0 && !Oversubscribed(b) && Spells(b, i, s, pos)
    ensures Symbol(b, s, pos) == Sym(i)
  {
    hide MaxLen, Oversubscribed, Spells, CodesOf, WordOf, Matches;
    CodesMatch(b);
    SymbolUnique(b, s, pos, i, Symbol(b, s, pos).i);
  }

  /** A code length symbol and its extra bits. */
  datatype Item = Item(sym: nat, extra: nat)

  function ExtraBits(sym: nat): nat
  {
    if sym < 16 then 0 else if sym == 16 then 2 else if sym == 17 then 3 else 7
  }

  function Coded(cl: seq<nat>, items: seq<Item>): (s: seq<bool>)
    requires forall k :: 0 <= k < |items| ==> items[k].sym < |cl| && 1 <= cl[items[k].sym] <= BMAX
  {
    if items == [] then [] else
    WordOf(cl, items[0].sym) + Low(items[0].extra, ExtraBits(items[0].sym)) + Coded(cl, items[1..])
  }

  /** The code lengths after acc that one item stands for. */
  function Meant(acc: seq<nat>, item: Item): seq<nat>
  {
    if item.sym < 16 then [item.sym]
    else
      var v := if item.sym == 16 && acc != [] then acc[|acc| - 1] else 0;
      Repeat(v, (if item.sym == 18 then 11 else 3) + item.extra)
  }

  function Expand(acc: seq<nat>, items: seq<Item>): (b: seq<nat>)
    ensures |b| >= |acc|
    decreases |items|
  {
    if items == [] then acc else Expand(acc + Meant(acc, items[0]), items[1..])
  }

  predicate Usable(cl: seq<nat>, items: seq<Item>)
  {
    forall k :: 0 <= k < |items| ==>
      items[k].sym < |cl| == 19 && 1 <= cl[items[k].sym] <= BMAX && items[k].extra < Pow2(ExtraBits(items[k].sym))
  }

  lemma {:induction false} Within(s: seq<bool>, pos: nat, t: seq<bool>, a: nat, b: nat)
    requires a <= b <= |t| && pos + |t| <= |s| && s[pos..pos + |t|] == t
    ensures s[pos + a..pos + b] == t[a..b]
  {
    assert forall i :: a <= i < b ==> t[i] == s[pos + i];
  }

  /** The number that n bits at pos spell. */
  lemma {:induction false} PeekLow(s: seq<bool>, pos: nat, n: nat, v: nat)
    requires pos + n <= |s| && s[pos..pos + n] == Low(v, n) && v < Pow2(n)
    ensures Peek(s, pos, n) == v
  {
    LowVal(v, n);
  }

  lemma {:induction false} ThreeParts(a: seq<bool>, b: seq<bool>, c: seq<bool>)
    ensures var s := a + b + c;
      s[0..|a|] == a && s[|a|..|a| + |b|] == b && s[|a| + |b|..|s|] == c
  {
  }

  /** The bits of the first item and of the others. */
  lemma {:induction false} CodedParts(cl: seq<nat>, items: seq<Item>, s: seq<bool>, pos: nat)
    requires Usable(cl, items) && items != []
    requires pos + |Coded(cl, items)| <= |s| && s[pos..pos + |Coded(cl, items)|] == Coded(cl, items)
    ensures var w, x, d := cl[items[0].sym], ExtraBits(items[0].sym), Coded(cl, items[1..]);
      && |Coded(cl, items)| == w + x + |d| && s[pos..pos + w] == WordOf(cl, items[0].sym)
      && s[pos + w..pos + w + x] == Low(items[0].extra, x) && s[pos + w + x..pos + w + x + |d|] == d
  {
    hide WordOf, Low, Pow2;
    var w, x, c := cl[items[0].sym], ExtraBits(items[0].sym), Coded(cl, items);
    Within(s, pos, c, 0, w);
    Within(s, pos, c, w, w + x);
    Within(s, pos, c, w + x, |c|);
    ThreeParts(WordOf(cl, items[0].sym), Low(items[0].extra, x), Coded(cl, items[1..]));
  }

  lemma {:induction false} ItemBack(cl: seq<nat>, n: nat, s: seq<bool>, pos: nat, item: Item, acc: seq<nat>)
    requires |cl| == 19 && item.sym < 19 && Symbol(cl, s, pos) == Sym(item.sym)
    requires var p, x := pos + cl[item.sym], ExtraBits(item.sym); p + x <= |s| && Peek(s, p, x) == item.extra
    requires |acc + Meant(acc, item)| <= n
    ensures Lengths(true, cl, n, s, pos, acc) ==
            Lengths(true, cl, n, s, pos + cl[item.sym] + ExtraBits(item.sym), acc + Meant(acc, item))
    ensures |Meant(acc, item)| > 0
  {
    hide Symbol, Peek, Repeat;
    if item.sym >= 16 { MeantSize(acc, item); }
  }

  lemma {:induction false} MeantSize(acc: seq<nat>, item: Item)
    requires item.sym >= 16
    ensures |Meant(acc, item)| == (if item.sym == 18 then 11 else 3) + item.extra
  {
  }

  /** Coded lengths are read back, by the lax decoder. */
  lemma {:induction false} LengthsBack(cl: seq<nat>, n: nat, s: seq<bool>, pos: nat, items: seq<Item>, acc: seq<nat>)
    requires Usable(cl, items) && |cl| == 19 && MaxLen(cl) > 0 && !Oversubscribed(cl)
    requires pos + |Coded(cl, items)| <= |s| && s[pos..pos + |Coded(cl, items)|] == Coded(cl, items)
    requires |Expand(acc, items)| == n
    ensures Lengths(true, cl, n, s, pos, acc) == Lens(Expand(acc, items), pos + |Coded(cl, items)|)
    decreases |items|
  {
    hide MaxLen, Oversubscribed, Symbol, WordOf, Peek, Low, Pow2, Meant, Lengths;
    if items == [] {
      LengthsEnd(cl, s, pos, acc);
    } else {
      var i, x := items[0].sym, ExtraBits(items[0].sym);
      CodedParts(cl, items, s, pos);
      SymbolIs(cl, s, pos, i);
      PeekLow(s, pos + cl[i], x, items[0].extra);
      ItemBack(cl, n, s, pos, items[0], acc);
      LengthsBack(cl, n, s, pos + cl[i] + x, items[1..], acc + Meant(acc, items[0]));
    }
  }

  lemma {:induction false} LengthsEnd(cl: seq<nat>, s: seq<bool>, pos: nat, acc: seq<nat>)
    requires |cl| == 19
    ensures Lengths(true, cl, |acc|, s, pos, acc) == Lens(acc, pos)
  {
  }

  function Triples(v: seq<nat>): (s: seq<bool>)
    ensures |s| == 3 * |v|
  {
    if v == [] then [] else Triples(v[..|v| - 1]) + Low(v[|v| - 1], 3)
  }

  lemma {:induction false} TripleAt(v: seq<nat>, k: nat)
    requires k < |v|
    ensures Triples(v)[3 * k..3 * k + 3] == Low(v[k], 3)
  {
    if k < |v| - 1 { TripleAt(v[..|v| - 1], k); }
  }

  /** The lengths of the code length code are read back. */
  lemma {:induction false} CodeLensBack(s: seq<bool>, pos: nat, v: seq<nat>, n: nat)
    requires n <= |v| <= 19 && pos + 3 * |v| <= |s| && s[pos..pos + 3 * |v|] == Triples(v)
    requires forall k :: 0 <= k < |v| ==> v[k] < 8
    ensures CodeLens(s, pos, n) == Spread(v, n)
  {
    hide Peek, Low, Triples;
    if n > 0 {
      CodeLensBack(s, pos, v, n - 1);
      TripleAt(v, n - 1);
      Within(s, pos, Triples(v), 3 * (n - 1), 3 * n);
      assert Pow2(3) == 8;
      PeekLow(s, pos + 3 * (n - 1), 3, v[n - 1]);
    }
  }

  function Spread(v: seq<nat>, n: nat): (cl: seq<nat>)
    requires n <= |v| <= 19
    ensures |cl| == 19
  {
    if n == 0 then seq(19, _ => 0) else Spread(v, n - 1)[BORDER[n - 1] := v[n - 1]]
  }
}
