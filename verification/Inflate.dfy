/** The decompressor of kernel/boot/linux/inflate.c with the output side of misc.c, as one object:
    its fields are the C globals. */
module Inflate {
  import opened Bits
  import opened Canonical
  import opened HuftTable
  import opened HuftDecode
  import opened CodeSet
  import opened HuftBuild
  import opened HuftSymbols
  import opened HuftSites
  import opened Deflate
  import Crc

  const WSIZE: nat := 0x8000
  const WORD: nat := 0x1_0000_0000   // unsigned 32-bit arithmetic wraps here

  /** How a routine ends: return code 0, another return code, no input left (die), or a read of
      storage that was never written. */
  datatype Status = Ok | Err(code: nat) | Dead | Undefined

  // ----- sequences and the circular window -----

  /** Window index d, dist behind index w, holds the byte dist back in the output. */
  lemma {:induction false} WindowByte(sink: seq<byte>, win: seq<byte>, w: nat, dist: nat)
    requires |win| == WSIZE && w < WSIZE && 1 <= dist <= WSIZE
    requires forall i :: w <= i < WSIZE ==> win[i] == History(sink, |sink| - WSIZE + i)
    ensures win[Behind(w, dist)] == History(sink + win[..w], |sink| + w - dist)
  {
    var d := Behind(w, dist);
    if dist <= w {
      assert d == w - dist;
      assert (sink + win[..w])[|sink| + d] == win[d];
    } else {
      assert d == w + WSIZE - dist;
    }
  }

  /** Where the source of a copy to w starts. */
  function Behind(w: nat, dist: nat): nat
    requires w < WSIZE && dist <= WSIZE
  {
    (w + WORD - dist) % WORD % WSIZE
  }

  lemma {:induction false} BehindValue(w: nat, dist: nat)
    requires w < WSIZE && 1 <= dist <= WSIZE
    ensures Behind(w, dist) == if dist <= w then w - dist else w + WSIZE - dist
  {
  }

  /** Source and destination move on together. */
  lemma {:induction false} MovedBehind(w: nat, dist: nat, e: nat)
    requires w < WSIZE && 1 <= dist <= WSIZE && w + e <= WSIZE && Behind(w, dist) + e <= WSIZE
    ensures (Behind(w, dist) + e) % WSIZE == Behind((w + e) % WSIZE, dist)
  {
    BehindValue(w, dist);
    BehindValue((w + e) % WSIZE, dist);
  }

  lemma {:induction false} CopyNone(out: seq<byte>, dist: nat)
    requires dist >= 1
    ensures Copy(out, dist, 0) == out
  {
  }

  lemma {:induction false} CopyCopy(out: seq<byte>, dist: nat, a: nat, b: nat)
    requires dist >= 1
    ensures Copy(Copy(out, dist, a), dist, b) == Copy(out, dist, a + b)
  {
    if b > 0 { CopyCopy(out, dist, a, b - 1); }
  }

  /** The source bytes of a fast copy, as they are at the start, are what a byte-by-byte copy
      would produce. */
  lemma {:induction false} FastCopy(sink: seq<byte>, win: seq<byte>, w: nat, dist: nat, e: nat)
    requires |win| == WSIZE && w < WSIZE && 1 <= dist <= WSIZE && w + e <= WSIZE
    requires forall i :: w <= i < WSIZE ==> win[i] == History(sink, |sink| - WSIZE + i)
    requires Behind(w, dist) + e <= WSIZE && (w + WORD - Behind(w, dist)) % WORD >= e
    ensures Copy(sink + win[..w], dist, e) == sink + (win[..w] + win[Behind(w, dist)..Behind(w, dist) + e])
  {
    var d := Behind(w, dist);
    BehindValue(w, dist);
    var out := sink + win[..w];
    if e == 0 {
      assert win[d..d] == [];
    } else {
      FastCopy(sink, win, w, dist, e - 1);
      var r := sink + (win[..w] + win[d..d + e - 1]);
      assert History(r, |r| - dist) == win[d + e - 1];
      assert win[d..d + e] == win[d..d + e - 1] + [win[d + e - 1]];
    }
  }

  /** The object. */
  class Inflater {
    const input: seq<byte>        // the bytes get_byte delivers
    const crcTable: seq<bv32>
    const window: array<byte>
    var inptr: nat
    var bb: nat
    var bk: nat
    var outcnt: nat               // wp
    var crc: bv32
    var bytesOut: nat
    var sink: seq<byte>           // what the flush routine has been given
    ghost var pos: nat            // bits consumed so far

    /** The bit buffer holds the bk bits after the consumed ones. */
    ghost predicate BufferOK()
      reads this`inptr, this`bb, this`bk, this`pos
    {
      && inptr <= |input| && 8 * inptr == pos + bk && bk <= 32
      && bb == Val(BitsOf(input)[pos..pos + bk])
    }

    /** The output so far is what was flushed followed by the window up to outcnt; beyond that
        the window still holds the bytes before. */
    ghost predicate OutputOK(out: seq<byte>)
      reads this`outcnt, this`crc, this`bytesOut, this`sink, window
    {
      && window.Length == WSIZE && outcnt <= WSIZE && |sink| % WSIZE == 0
      && out == sink + window[..outcnt]
      && (forall i :: outcnt <= i < WSIZE ==> window[i] == History(sink, |sink| - WSIZE + i))
      && Crc.TableOK(crcTable) && crc == Crc.Feed(0xffffffff, sink)
      && bytesOut == |sink| % WORD
    }

    // ----- the bit buffer -----

    /** NEEDBITS(n) */
    method NeedBits(n: nat) returns (ok: bool)
      requires BufferOK() && n <= 16
      modifies this`inptr, this`bb, this`bk
      ensures BufferOK() && old(bk) <= bk
      ensures ok ==> bk >= n && (bk == old(bk) || bk <= n + 7)
      ensures !ok ==> pos + n > 8 * |input| && bk < n
    {
      hide Val, Or, Shl, BitsOf;
      while bk < n
        invariant BufferOK() && old(bk) <= bk && (bk == old(bk) || bk <= n + 7)
      {
        if inptr == |input| {
          return false;
        }
        AddByte(input, pos, inptr, bk, bb);
        bb := Or(bb, Shl(input[inptr], bk)) % WORD;
        bk := bk + 8;
        inptr := inptr + 1;
      }
      ok := true;
    }

    /** DUMPBITS(n) */
    method DumpBits(n: nat)
      requires BufferOK() && n <= bk
      modifies this`bb, this`bk, this`pos
      ensures BufferOK() && bk == old(bk) - n && pos == old(pos) + n
    {
      hide Val, BitsOf, Shr;
      ghost var s := BitsOf(input);
      ValSplit(s[pos..pos + bk], n);
      assert s[pos..pos + bk][n..] == s[pos + n..pos + bk];
      bb := Shr(bb, n);
      bk := bk - n;
      pos := pos + n;
    }

    /** NEEDBITS(n), b & mask_bits[n], DUMPBITS(n) */
    method Take(n: nat) returns (ok: bool, v: nat)
      requires BufferOK() && n <= 16 && bk <= 15
      modifies this`inptr, this`bb, this`bk, this`pos
      ensures BufferOK() && bk <= 15
      ensures ok ==> pos == old(pos) + n <= 8 * |input| && v == Peek(BitsOf(input), old(pos), n)
      ensures !ok ==> pos == old(pos) && pos + n > 8 * |input|
    {
      hide Val, BitsOf, And, Mask, Pow2;
      ok := NeedBits(n);
      v := 0;
      if ok {
        LowBits(BitsOf(input), pos, bk, bb, n);
        v := And(bb, Pow2(n) - 1);
        DumpBits(n);
      }
    }

    // ----- output -----

    /** flush_window */
    method FlushWindow(ghost out: seq<byte>)
      requires OutputOK(out)
      modifies this`outcnt, this`crc, this`bytesOut, this`sink
      ensures sink == out && outcnt == 0
      ensures Crc.TableOK(crcTable) && crc == Crc.Feed(0xffffffff, sink) && bytesOut == |sink| % WORD
    {
      hide Crc.Feed, Crc.TableOK;
      if outcnt == 0 {
        return;
      }
      crc := Crc.UpdCrc(crcTable, crc, window[..outcnt]);
      Crc.FeedAppend(0xffffffff, sink, window[..outcnt]);
      sink := sink + window[..outcnt];
      bytesOut := (bytesOut + outcnt) % WORD;
      outcnt := 0;
    }

    /** Flushing at the end of the window: it starts again, with the last WSIZE bytes in it. */
    method WrapWindow(ghost out: seq<byte>)
      requires OutputOK(out)
      modifies this`outcnt, this`crc, this`bytesOut, this`sink
      ensures OutputOK(out) && outcnt == old(outcnt) % WSIZE
    {
      hide Crc.Feed, Crc.TableOK;
      if outcnt == WSIZE {
        FlushWindow(out);
      }
    }

    /** slide[w++] = b, flushing when the window is full. */
    method PutByte(b: byte, ghost out: seq<byte>)
      requires OutputOK(out) && outcnt < WSIZE
      modifies this`outcnt, this`crc, this`bytesOut, this`sink, window
      ensures OutputOK(out + [b]) && outcnt < WSIZE
    {
      hide Crc.Feed, Crc.TableOK;
      window[outcnt] := b;
      outcnt := outcnt + 1;
      assert window[..outcnt] == old(window[..outcnt]) + [b];
      WrapWindow(out + [b]);
    }

    /** slide[w++] = slide[d++] */
    method CopyByte(d: nat, ghost dist: nat, ghost out: seq<byte>)
      requires OutputOK(out) && outcnt < WSIZE && 1 <= dist <= WSIZE && d == Behind(outcnt, dist)
      modifies this`outcnt, window
      ensures outcnt == old(outcnt) + 1 && OutputOK(out + [History(out, |out| - dist)])
    {
      hide Crc.Feed, Crc.TableOK;
      WindowByte(sink, window[..], outcnt, dist);
      assert window[..][..outcnt] == window[..outcnt];
      window[outcnt] := window[d];
      outcnt := outcnt + 1;
      assert window[..outcnt] == old(window[..outcnt]) + [window[outcnt - 1]];
    }

    /** The slow copy: e bytes, one by one; the source may be among the bytes just written. */
    method CopySlow(d: nat, e: nat, ghost dist: nat, ghost out: seq<byte>)
      requires OutputOK(out) && outcnt < WSIZE && 1 <= dist <= WSIZE && d == Behind(outcnt, dist)
      requires outcnt + e <= WSIZE && d + e <= WSIZE
      modifies this`outcnt, window
      ensures outcnt == old(outcnt) + e && OutputOK(Copy(out, dist, e))
    {
      hide Crc.Feed, Crc.TableOK, Behind;
      ghost var w := outcnt;
      var i := 0;
      while i < e
        invariant i <= e && outcnt == w + i && OutputOK(Copy(out, dist, i))
      {
        MovedBehind(w, dist, i);
        CopyByte(d + i, dist, Copy(out, dist, i));
        i := i + 1;
      }
    }

    /** The fast copy: the e source bytes are moved as they are at the start. */
    method CopyFast(d: nat, e: nat, ghost dist: nat, ghost out: seq<byte>)
      requires OutputOK(out) && outcnt < WSIZE && 1 <= dist <= WSIZE && d == Behind(outcnt, dist)
      requires outcnt + e <= WSIZE && d + e <= WSIZE
      requires (outcnt + WORD - d) % WORD >= e
      modifies this`outcnt, window
      ensures outcnt == old(outcnt) + e && OutputOK(Copy(out, dist, e))
    {
      hide Crc.Feed, Crc.TableOK, Behind, Copy, History;
      var w := outcnt;
      ghost var win := window[..];
      FastCopy(sink, win, w, dist, e);
      forall i | 0 <= i < e {
        window[w + i] := window[d + i];
      }
      outcnt := w + e;
      assert win[..w] == old(window[..outcnt]);
      assert window[..outcnt] == win[..w] + win[d..d + e];
    }

    /** One piece of a copy of n bytes: as much as fits the window at both ends. */
    method CopyPiece(n: nat, d0: nat, ghost dist: nat, ghost out: seq<byte>) returns (e: nat, d: nat)
      requires OutputOK(out) && outcnt < WSIZE && 1 <= dist <= WSIZE && n >= 1
      requires d0 % WSIZE == Behind(outcnt, dist)
      modifies this`outcnt, window
      ensures 1 <= e <= n && outcnt == old(outcnt) + e <= WSIZE && d % WSIZE == Behind(outcnt % WSIZE, dist)
      ensures OutputOK(Copy(out, dist, e))
    {
      hide Crc.Feed, Crc.TableOK, Copy, History, Behind;
      var w := outcnt;
      d := d0 % WSIZE;
      e := WSIZE - (if d > w then d else w);
      if e > n { e := n; }
      if (w + WORD - d) % WORD >= e {
        CopyFast(d, e, dist, out);
      } else {
        CopySlow(d, e, dist, out);
      }
      d := d + e;
      MovedBehind(w, dist, e);
    }

    /** Copying n bytes from dist back: in pieces that stay within the window at both ends. */
    method CopyMatch(n0: nat, dist: nat, ghost out: seq<byte>)
      requires OutputOK(out) && outcnt < WSIZE && 1 <= dist <= WSIZE && n0 >= 1
      modifies this`outcnt, this`crc, this`bytesOut, this`sink, window
      ensures OutputOK(Copy(out, dist, n0)) && outcnt < WSIZE
    {
      hide Crc.Feed, Crc.TableOK, Copy, History;
      var n := n0;
      ghost var done := 0;
      CopyNone(out, dist);
      var d: nat := (outcnt + WORD - dist) % WORD;
      while n > 0
        invariant n >= 0 && done + n == n0 && OutputOK(Copy(out, dist, done)) && outcnt < WSIZE
        invariant d % WSIZE == Behind(outcnt, dist)
      {
        var e;
        e, d := CopyPiece(n, d, dist, Copy(out, dist, done));
        n := n - e;
        CopyCopy(out, dist, done, e);
        done := done + e;
        WrapWindow(Copy(out, dist, done));
      }
    }

    // ----- decoding symbols -----

    /** The lookup loop: from table to table until an entry that is not a link. */
    method WalkTables(T: seq<seq<Entry>>, l: nat) returns (st: Status, e: nat, v: nat)
      requires BufferOK() && bk <= 15 && LinksForward(T) && Fits(T, 0, l, INDEX_BITS)
      modifies this`inptr, this`bb, this`bk, this`pos
      ensures BufferOK() && (st.Ok? ==> bk <= 15) && old(pos) <= pos
      ensures WalkResult(Walk(T, 0, l, BitsOf(input)[old(pos)..]), pos - old(pos), st, e, v)
    {
      hide Val, BitsOf, And, Mask, Pow2, Walk;
      ghost var s, pos0 := BitsOf(input), pos;
      var t: nat, n: nat := 0, l;
      e, v := 0, 0;
      while true
        invariant BufferOK() && bk <= 15 && pos0 <= pos && n <= 16
        invariant Fits(T, t, n, INDEX_BITS)
        invariant Walk(T, 0, l, s[pos0..]) == Walk(T, t, n, s[pos..]).After(pos - pos0)
        decreases |T| - t
      {
        var ok := NeedBits(n);
        if !ok {
          WalkShort(T, t, n, s[pos..]);
          return Dead, e, v;
        }
        LowBits(s, pos, bk, bb, n);
        var x := T[t][And(bb, Pow2(n) - 1)];
        WalkStep(T, t, n, s[pos..], x);
        if !x.Entry? {
          return Undefined, e, v;
        }
        if x.e <= LITERAL {
          DumpBits(x.b);
          return Ok, x.e, x.v;
        }
        if x.e == INVALID {
          return Err(1), e, v;
        }
        assert s[pos..][x.b..] == s[pos + x.b..];
        DumpBits(x.b);
        t, n := x.v, x.e - LITERAL;
      }
    }

    /** Decoding one symbol of the code src. */
    method Lookup(T: seq<seq<Entry>>, l: nat, ghost src: Source) returns (st: Status, e: nat, v: nat)
      requires BufferOK() && bk <= 15 && src.Wf() && TableFor(src, l, T)
      modifies this`inptr, this`bb, this`bk, this`pos
      ensures BufferOK() && (st.Ok? ==> bk <= 15) && old(pos) <= pos <= |BitsOf(input)|
      ensures LookupResult(src, BitsOf(input), old(pos), pos, st, e, v)
    {
      hide Val, BitsOf, Walk, Fits;
      ghost var s, pos0 := BitsOf(input), pos;
      WalkMeansSymbol(src, l, T, s, pos0);
      if |T| == 0 {
        NullTable(src, l, T);
        WalkNull(s[pos..]);
        return Undefined, 0, 0;
      }
      st, e, v := WalkTables(T, l);
    }

    /** The output and the number of bits used are those of the reference decoder, or it fails
        too; running out of input can come early only near the end of the input. */
    ghost predicate Agrees(r: Outcome, st: Status)
      reads this`pos, this`outcnt, this`crc, this`bytesOut, this`sink, window
    {
      match st
      case Ok => r.Done? && pos == r.pos && OutputOK(r.out) && outcnt < WSIZE
      case Dead => r.Corrupt? || 8 * |input| < r.pos + SCALE
      case _ => r.Corrupt?
    }

    /** Decoding a distance. */
    method GetDistance(td: seq<seq<Entry>>, bd: nat, ghost dl: seq<nat>) returns (st: Status, d: nat)
      requires BufferOK() && bk <= 15 && 1 <= |dl| <= MAX_DIST
      requires DistSource(dl).Wf() && TableFor(DistSource(dl), bd, td)
      modifies this`inptr, this`bb, this`bk, this`pos
      ensures BufferOK() && (st.Ok? ==> bk <= 15) && old(pos) <= pos
      ensures DistResult(ReadDist(dl, BitsOf(input), old(pos)), |BitsOf(input)|, pos, st, d)
    {
      hide Val, BitsOf, Symbol, DistExtra, DistBase, TableFor, Pow2, Source.Wf, Source.SymbolEntry;
      d := 0;
      var e, base;
      st, e, base := Lookup(td, bd, DistSource(dl));
      if st != Ok {
        DistValid(dl);
        return;
      }
      DistEntry(dl, Symbol(dl, BitsOf(input), old(pos)).i, e, base);
      var ok, x := Take(e);
      if !ok {
        return Dead, d;
      }
      d := base + x;
    }

    /** The rest of a match after a length code with e extra bits and base v. */
    method GetMatch(e: nat, v: nat, td: seq<seq<Entry>>, bd: nat, ghost dl: seq<nat>, ghost i: nat)
        returns (st: Status, n: nat, d: nat)
      requires BufferOK() && bk <= 15 && 257 <= i < MAX_LIT && 1 <= |dl| <= MAX_DIST
      requires DistSource(dl).Wf() && TableFor(DistSource(dl), bd, td)
      requires e == LenExtra(i - 257) <= 5 && v == LenBase(i - 257)
      modifies this`inptr, this`bb, this`bk, this`pos
      ensures BufferOK() && (st.Ok? ==> bk <= 15) && old(pos) <= pos
      ensures MatchResult(ReadMatch(dl, i, BitsOf(input), old(pos)), |BitsOf(input)|, pos, st, n, d)
    {
      hide Val, BitsOf, ReadDist, LenExtra, LenBase, TableFor, Pow2, Source.Wf;
      n, d := 0, 0;
      var ok, x := Take(e);
      if !ok {
        return Dead, n, d;
      }
      n := v + x;
      st, d := GetDistance(td, bd, dl);
    }

    /** One literal, match or end-of-block code. */
    method OneCode(tl: seq<seq<Entry>>, td: seq<seq<Entry>>, bl: nat, bd: nat,
                   ghost ll: seq<nat>, ghost dl: seq<nat>, ghost out0: seq<byte>)
        returns (st: Status, more: bool, ghost out: seq<byte>)
      requires BufferOK() && bk <= 15 && OutputOK(out0) && outcnt < WSIZE
      requires 1 <= |ll| <= MAX_LIT && 1 <= |dl| <= MAX_DIST
      requires LitSource(ll).Wf() && TableFor(LitSource(ll), bl, tl)
      requires DistSource(dl).Wf() && TableFor(DistSource(dl), bd, td)
      modifies this`inptr, this`bb, this`bk, this`pos, this`outcnt, this`crc, this`bytesOut, this`sink, window
      ensures BufferOK() && (st.Ok? ==> bk <= 15)
      ensures !more ==> Agrees(Body(true, ll, dl, BitsOf(input), old(pos), out0), st)
      ensures more ==> st == Ok && old(pos) < pos && OutputOK(out) && outcnt < WSIZE
      ensures more ==> Body(true, ll, dl, BitsOf(input), old(pos), out0) == Body(true, ll, dl, BitsOf(input), pos, out)
    {
      hide Val, BitsOf, Symbol, TableFor, Body, ReadMatch, Copy, Crc.TableOK, Crc.Feed, History, Source.Wf,
        Source.SymbolEntry;
      ghost var s := BitsOf(input);
      ghost var i := if Symbol(ll, s, pos).Sym? then Symbol(ll, s, pos).i else 0;
      more, out := false, out0;
      var e, v;
      st, e, v := Lookup(tl, bl, LitSource(ll));
      if st != Ok {
        LitInvalid(ll, i);
        BodyFails(ll, dl, s, old(pos), out0);
        return;
      }
      LitEntry(ll, i, e, v);
      BodyStep(ll, dl, s, old(pos), out0, i);
      if e == LITERAL {
        PutByte(v, out);
        more, out := true, out + [v];
      } else if e != END_OF_BLOCK {
        st, out := OneMatch(e, v, td, bd, dl, i, out0);
        more := st == Ok;
      }
    }

    /** The rest of a match, and its copy. */
    method OneMatch(e: nat, v: nat, td: seq<seq<Entry>>, bd: nat, ghost dl: seq<nat>, ghost i: nat,
                    ghost out0: seq<byte>)
        returns (st: Status, ghost out: seq<byte>)
      requires BufferOK() && bk <= 15 && OutputOK(out0) && outcnt < WSIZE && 257 <= i < MAX_LIT && 1 <= |dl| <= MAX_DIST
      requires DistSource(dl).Wf() && TableFor(DistSource(dl), bd, td)
      requires e == LenExtra(i - 257) <= 5 && v == LenBase(i - 257)
      modifies this`inptr, this`bb, this`bk, this`pos, this`outcnt, this`crc, this`bytesOut, this`sink, window
      ensures BufferOK() && (st.Ok? ==> bk <= 15) && old(pos) <= pos
      ensures match st
        case Ok => var m := ReadMatch(dl, i, BitsOf(input), old(pos));
                   m.Match? && pos == m.pos && out == Copy(out0, m.dist, m.len) && OutputOK(out) && outcnt < WSIZE
        case Dead => var m := ReadMatch(dl, i, BitsOf(input), old(pos)); m.NoMatch? || |BitsOf(input)| < m.pos + SCALE
        case _ => ReadMatch(dl, i, BitsOf(input), old(pos)).NoMatch?
    {
      hide Val, BitsOf, TableFor, ReadMatch, Copy, Crc.TableOK, Crc.Feed, History, Source.Wf;
      var n, d;
      st, n, d := GetMatch(e, v, td, bd, dl, i);
      out := out0;
      if st == Ok {
        CopyMatch(n, d, out);
        out := Copy(out, d, n);
      }
    }

    /** inflate_codes */
    method InflateCodes(tl: seq<seq<Entry>>, td: seq<seq<Entry>>, bl: nat, bd: nat,
                        ghost ll: seq<nat>, ghost dl: seq<nat>, ghost out0: seq<byte>) returns (st: Status)
      requires BufferOK() && bk <= 15 && OutputOK(out0) && outcnt < WSIZE
      requires 1 <= |ll| <= MAX_LIT && 1 <= |dl| <= MAX_DIST
      requires LitSource(ll).Wf() && TableFor(LitSource(ll), bl, tl)
      requires DistSource(dl).Wf() && TableFor(DistSource(dl), bd, td)
      modifies this`inptr, this`bb, this`bk, this`pos, this`outcnt, this`crc, this`bytesOut, this`sink, window
      ensures BufferOK() && (st.Ok? ==> bk <= 15)
      ensures Agrees(Body(true, ll, dl, BitsOf(input), old(pos), out0), st)
    {
      hide Val, BitsOf, TableFor, Body, Crc.TableOK, Crc.Feed, History;
      ghost var s, pos0, out := BitsOf(input), pos, out0;
      var more := true;
      st := Ok;
      while more
        invariant BufferOK() && (more ==> bk <= 15 && OutputOK(out) && outcnt < WSIZE)
        invariant more ==> Body(true, ll, dl, s, pos0, out0) == Body(true, ll, dl, s, pos, out)
        invariant !more ==> (st.Ok? ==> bk <= 15) && Agrees(Body(true, ll, dl, s, pos0, out0), st)
        decreases more, |s| - pos
      {
        st, more, out := OneCode(tl, td, bl, bd, ll, dl, out);
      }
    }

    // ----- stored blocks -----

    /** inflate_stored */
    method InflateStored(ghost out: seq<byte>) returns (st: Status)
      requires BufferOK() && bk <= 15 && OutputOK(out) && outcnt < WSIZE
      modifies this`inptr, this`bb, this`bk, this`pos, this`outcnt, this`crc, this`bytesOut, this`sink, window
      ensures BufferOK() && (st.Ok? ==> bk <= 15)
      ensures Agrees(Stored(BitsOf(input), old(pos), out), st)
    {
      hide Val, BitsOf, Crc.TableOK, Crc.Feed, History, Bytes, And, Pow2;
      LowThree(bk);
      DumpBits(And(bk, 7));
      ghost var s, p := BitsOf(input), pos;
      assert p == (old(pos) + 7) / 8 * 8;
      var ok, n := Take(16);
      if !ok { return Dead; }
      var c;
      ok, c := Take(16);
      if !ok { return Dead; }
      if n + c != 0xffff { return Err(1); }
      st := StoredBytes(n, out);
    }

    /** The n bytes of a stored block. */
    method StoredBytes(n: nat, ghost out: seq<byte>) returns (st: Status)
      requires BufferOK() && bk <= 15 && OutputOK(out) && outcnt < WSIZE && pos <= |BitsOf(input)|
      modifies this`inptr, this`bb, this`bk, this`pos, this`outcnt, this`crc, this`bytesOut, this`sink, window
      ensures BufferOK() && bk <= 15
      ensures st == if old(pos) + 8 * n <= |BitsOf(input)| then Ok else Dead
      ensures st.Ok? ==> pos == old(pos) + 8 * n && outcnt < WSIZE
      ensures st.Ok? ==> OutputOK(out + Bytes(BitsOf(input), old(pos), n))
    {
      hide Val, BitsOf, Crc.TableOK, Crc.Feed, History, Pow2;
      ghost var s, p := BitsOf(input), pos;
      var i := 0;
      assert out + [] == out;
      while i < n
        invariant i <= n && BufferOK() && bk <= 15 && outcnt < WSIZE
        invariant pos == p + 8 * i <= |s| && OutputOK(out + Bytes(s, p, i))
      {
        var ok, v := Take(8);
        if !ok { return Dead; }
        EightBits();
        PutByte(v, out + Bytes(s, p, i));
        i := i + 1;
        assert out + Bytes(s, p, i) == out + Bytes(s, p, i - 1) + [v];
      }
      st := Ok;
    }

    // ----- dynamic blocks -----

    /** The lengths of the code length code. */
    method ReadCodeLens(nb: nat) returns (ok: bool, cl: seq<nat>)
      requires BufferOK() && bk <= 15 && nb <= 19 && pos <= |BitsOf(input)|
      modifies this`inptr, this`bb, this`bk, this`pos
      ensures BufferOK() && bk <= 15
      ensures ok <==> old(pos) + 3 * nb <= |BitsOf(input)|
      ensures ok ==> pos == old(pos) + 3 * nb && cl == CodeLens(BitsOf(input), old(pos), nb)
    {
      hide Val, BitsOf, Pow2;
      ghost var s, p := BitsOf(input), pos;
      cl := seq(19, _ => 0);
      var j := 0;
      while j < nb
        invariant j <= nb && BufferOK() && bk <= 15 && pos == p + 3 * j <= |s|
        invariant |cl| == 19 && cl == CodeLens(s, p, j)
      {
        var v;
        ok, v := Take(3);
        if !ok { return; }
        cl := cl[BORDER[j] := v];
        j := j + 1;
      }
      ok := true;
    }

    /** A symbol of the code length code: one table, and no test of the operation code. */
    method LookupLength(T: seq<seq<Entry>>, l: nat, ghost cl: seq<nat>) returns (st: Status, v: nat)
      requires BufferOK() && bk <= 15 && |cl| == 19 && LenSource(cl).Wf() && TableFor(LenSource(cl), l, T)
      requires forall t, i :: 0 <= t < |T| && 0 <= i < |T[t]| ==> !IsLink(T[t][i])
      modifies this`inptr, this`bb, this`bk, this`pos
      ensures BufferOK() && (st.Ok? ==> bk <= 15) && old(pos) <= pos
      ensures match st
              case Ok => Symbol(cl, BitsOf(input), old(pos)) == Sym(v) && v < 19 && pos == old(pos) + cl[v]
              case Dead => |BitsOf(input)| < old(pos) + SCALE
              case _ => Symbol(cl, BitsOf(input), old(pos)).NoSym?
    {
      hide Val, BitsOf, Symbol, Walk, And, Pow2, TableFor;
      ghost var s := BitsOf(input);
      WalkMeansSymbol(LenSource(cl), l, T, s, pos);
      NullTable(LenSource(cl), l, T);
      v := 0;
      if |T| == 0 {
        WalkNull(s[pos..]);
        return Undefined, v;
      }
      var ok := NeedBits(l);
      if !ok {
        WalkShort(T, 0, l, s[pos..]);
        return Dead, v;
      }
      LowBits(s, pos, bk, bb, l);
      var x := T[0][And(bb, Pow2(l) - 1)];
      WalkStep(T, 0, l, s[pos..], x);
      if !x.Entry? || x.e == INVALID {
        return Undefined, v;
      }
      DumpBits(x.b);
      v := x.v;
      st := Ok;
    }

    /** The n literal, length and distance code lengths, run-length coded. */
    method ReadLengths(T: seq<seq<Entry>>, l: nat, n: nat, ghost cl: seq<nat>) returns (st: Status, acc: seq<nat>)
      requires BufferOK() && bk <= 15 && |cl| == 19 && LenSource(cl).Wf() && TableFor(LenSource(cl), l, T)
      requires forall t, i :: 0 <= t < |T| && 0 <= i < |T[t]| ==> !IsLink(T[t][i])
      modifies this`inptr, this`bb, this`bk, this`pos
      ensures BufferOK() && (st.Ok? ==> bk <= 15)
      ensures LengthsResult(Lengths(true, cl, n, BitsOf(input), old(pos), []), |BitsOf(input)|, pos, st, acc)
    {
      hide Val, BitsOf, Symbol, Lengths, TableFor, Source.Wf;
      ghost var s, p := BitsOf(input), pos;
      acc := [];
      var last := 0;
      while |acc| < n
        invariant BufferOK() && bk <= 15 && p <= pos
        invariant last == if acc == [] then 0 else acc[|acc| - 1]
        invariant Lengths(true, cl, n, s, p, []) == Lengths(true, cl, n, s, pos, acc)
        decreases n - |acc|
      {
        LengthsStep(cl, n, s, pos, acc);
        var j;
        st, j := LookupLength(T, l, cl);
        if st != Ok { return; }
        if j < 16 {
          last := j;
          acc := acc + [j];
        } else {
          var ok, x := Take(RunBits(j));
          if !ok { st := Dead; return; }
          var r := RunBase(j) + x;
          if |acc| + r > n { st := Err(1); return; }
          if j != 16 { last := 0; }
          acc := acc + Repeat(last, r);
        }
      }
      LengthsEnd(cl, n, s, pos, acc);
      st := Ok;
    }

    /** Building one of the two tables of a dynamic block. */
    method BuildLit(ll: seq<nat>) returns (code: nat, T: seq<seq<Entry>>, l: nat)
      requires 1 <= |ll| <= MAX_LIT && forall i :: 0 <= i < |ll| ==> ll[i] <= 15
      ensures LitSource(ll).Wf() && (code == 0 <==> Accepted(ll))
      ensures code == 0 ==> TableFor(LitSource(ll), l, T)
    {
      hide TableFor, Built, CompleteLengths, Oversubscribed, LookupBits, Source.Wf;
      LitSourceWf(ll);
      code, T, l := BuildTables(LitSource(ll), LBITS);
      if code == 0 {
        MaxLenBound(ll, 15);
        WideTable(LitSource(ll), LBITS, l, T);
      }
    }

    method BuildDist(dl: seq<nat>) returns (code: nat, T: seq<seq<Entry>>, l: nat)
      requires 1 <= |dl| <= MAX_DIST && forall i :: 0 <= i < |dl| ==> dl[i] <= 15
      ensures DistSource(dl).Wf() && (code == 0 <==> Accepted(dl))
      ensures code == 0 ==> TableFor(DistSource(dl), l, T)
    {
      hide TableFor, Built, CompleteLengths, Oversubscribed, LookupBits, Source.Wf;
      DistSourceWf(dl);
      code, T, l := BuildTables(DistSource(dl), DBITS);
      if code == 0 {
        MaxLenBound(dl, 15);
        DistTable(DistSource(dl), l, T);
      }
    }

    method BuildLen(cl: seq<nat>) returns (code: nat, T: seq<seq<Entry>>, l: nat)
      requires |cl| == 19 && forall i :: 0 <= i < |cl| ==> cl[i] <= 7
      ensures LenSource(cl).Wf() && (code == 0 <==> Accepted(cl))
      ensures code == 0 ==> TableFor(LenSource(cl), l, T)
      ensures code == 0 ==> forall t, i :: 0 <= t < |T| && 0 <= i < |T[t]| ==> !IsLink(T[t][i])
    {
      hide TableFor, CompleteLengths, Oversubscribed, Source.Wf;
      LenSourceWf(cl);
      code, T, l := BuildTables(LenSource(cl), 7);
      if code == 0 {
        MaxLenBound(cl, 7);
        WideTable(LenSource(cl), 7, l, T);
        if MaxLen(cl) > 0 { CodesG(cl); }
      }
    }

    /** Building both tables and decoding with them. */
    method DynamicCodes(nl: nat, b: seq<nat>, ghost out: seq<byte>) returns (st: Status)
      requires BufferOK() && bk <= 15 && OutputOK(out) && outcnt < WSIZE
      requires 1 <= nl <= MAX_LIT && nl < |b| <= nl + MAX_DIST && forall i :: 0 <= i < |b| ==> b[i] <= 15
      modifies this`inptr, this`bb, this`bk, this`pos, this`outcnt, this`crc, this`bytesOut, this`sink, window
      ensures BufferOK() && (st.Ok? ==> bk <= 15)
      ensures Agrees(DynamicBody(true, nl, b, BitsOf(input), old(pos), out), st)
    {
      hide Val, BitsOf, Body, Accepted, TableFor, Crc.TableOK, Crc.Feed, History, Source.Wf;
      var code, tl, bl := BuildLit(b[..nl]);
      if code == 1 { return Dead; }
      if code != 0 { return Err(code); }
      var td, bd;
      code, td, bd := BuildDist(b[nl..]);
      if code == 1 { return Dead; }
      if code != 0 { return Err(code); }
      st := InflateCodes(tl, td, bl, bd, b[..nl], b[nl..], out);
    }

    method DynamicTables(nl: nat, nd: nat, nb: nat, ghost out: seq<byte>) returns (st: Status)
      requires BufferOK() && bk <= 15 && OutputOK(out) && outcnt < WSIZE && pos <= |BitsOf(input)|
      requires 1 <= nl <= MAX_LIT && 1 <= nd <= MAX_DIST && nb <= 19
      modifies this`inptr, this`bb, this`bk, this`pos, this`outcnt, this`crc, this`bytesOut, this`sink, window
      ensures BufferOK() && (st.Ok? ==> bk <= 15)
      ensures Agrees(DynamicLens(true, nl, nd, nb, BitsOf(input), old(pos), out), st)
    {
      hide Val, BitsOf, Lengths, DynamicBody, CodeLens, Accepted, TableFor, Crc.TableOK, Crc.Feed, History, Source.Wf;
      var ok, cl := ReadCodeLens(nb);
      if !ok { return Dead; }
      CodeLensSmall(BitsOf(input), old(pos), nb);
      var code, T, l := BuildLen(cl);
      if code != 0 { return Err(code); }
      var b;
      st, b := ReadLengths(T, l, nl + nd, cl);
      if st != Ok { return; }
      st := DynamicCodes(nl, b, out);
    }

    /** inflate_dynamic */
    method InflateDynamic(ghost out: seq<byte>) returns (st: Status)
      requires BufferOK() && bk <= 15 && OutputOK(out) && outcnt < WSIZE
      modifies this`inptr, this`bb, this`bk, this`pos, this`outcnt, this`crc, this`bytesOut, this`sink, window
      ensures BufferOK() && (st.Ok? ==> bk <= 15)
      ensures Agrees(Dynamic(true, BitsOf(input), old(pos), out), st)
    {
      hide Val, BitsOf, DynamicLens, Crc.TableOK, Crc.Feed, History;
      var ok, nl, nd, nb;
      ok, nl := Take(5);
      if !ok { return Dead; }
      ok, nd := Take(5);
      if !ok { return Dead; }
      ok, nb := Take(4);
      if !ok { return Dead; }
      nl, nd, nb := 257 + nl, 1 + nd, 4 + nb;
      if nl > 286 || nd > 30 { return Err(1); }
      assert Pow2(4) == 16;
      st := DynamicTables(nl, nd, nb, out);
    }

    // ----- fixed blocks, any block, all blocks -----

    /** inflate_fixed */
    method InflateFixed(ghost out: seq<byte>) returns (st: Status)
      requires BufferOK() && bk <= 15 && OutputOK(out) && outcnt < WSIZE
      modifies this`inptr, this`bb, this`bk, this`pos, this`outcnt, this`crc, this`bytesOut, this`sink, window
      ensures BufferOK() && (st.Ok? ==> bk <= 15)
      ensures Agrees(Body(true, FixedLit(), FixedDist(), BitsOf(input), old(pos), out), st)
    {
      hide Val, BitsOf, Body, TableFor, Built, Crc.TableOK, Crc.Feed, History, Source.Wf,
           MaxLen, Oversubscribed, CompleteLengths, FixedLit, FixedDist, Pow2;
      FixedShapes();
      // both calls succeed: the first set is complete, the second fits
      FixedLitComplete();
      LitSourceWf(FixedLit());
      var code, tl, bl := BuildTables(LitSource(FixedLit()), 7);
      SiteTable(LitSource(FixedLit()), bl, tl);
      FixedDistFits();
      DistSourceWf(FixedDist());
      var td, bd;
      code, td, bd := BuildTables(DistSource(FixedDist()), 5);
      SiteTable(DistSource(FixedDist()), bd, td);
      st := InflateCodes(tl, td, bl, bd, FixedLit(), FixedDist(), out);
    }

    /** inflate_block, after the last-block bit */
    method InflateBlock(ghost out: seq<byte>) returns (st: Status)
      requires BufferOK() && bk <= 15 && OutputOK(out) && outcnt < WSIZE
      modifies this`inptr, this`bb, this`bk, this`pos, this`outcnt, this`crc, this`bytesOut, this`sink, window
      ensures BufferOK() && (st.Ok? ==> bk <= 15)
      ensures Agrees(Block(true, BitsOf(input), old(pos), out), st)
    {
      hide Val, BitsOf, Body, Dynamic, Stored, Crc.TableOK, Crc.Feed, History, FixedLit, FixedDist, Pow2;
      var ok, t := Take(2);
      if !ok { return Dead; }
      if t == 2 {
        st := InflateDynamic(out);
      } else if t == 0 {
        st := InflateStored(out);
      } else if t == 1 {
        st := InflateFixed(out);
      } else {
        st := Err(2);
      }
    }

    /** The block loop of inflate. */
    method InflateBlocks(ghost out0: seq<byte>) returns (st: Status)
      requires BufferOK() && bk <= 15 && OutputOK(out0) && outcnt < WSIZE
      modifies this`inptr, this`bb, this`bk, this`pos, this`outcnt, this`crc, this`bytesOut, this`sink, window
      ensures BufferOK() && (st.Ok? ==> bk <= 15)
      ensures Agrees(Inflated(true, BitsOf(input), old(pos), out0), st)
    {
      hide Val, BitsOf, Block, Crc.TableOK, Crc.Feed, History, Pow2;
      ghost var s, p, out := BitsOf(input), pos, out0;
      var last := 0;
      st := Ok;
      while last != 1
        invariant BufferOK() && bk <= 15 && OutputOK(out) && outcnt < WSIZE
        invariant last != 1 ==> Inflated(true, s, p, out0) == Inflated(true, s, pos, out)
        invariant last == 1 ==> Inflated(true, s, p, out0) == Done(out, pos)
        decreases last != 1, |s| - pos
      {
        ghost var q := pos;
        var ok;
        ok, last := Take(1);
        if !ok { return Dead; }
        st := InflateBlock(out);
        if st != Ok { return; }
        out := Block(true, s, q + 1, out).out;
      }
      st := Ok;
    }

    constructor (input: seq<byte>)
      ensures this.input == input && fresh(window)
      ensures BufferOK() && pos == 0 && bk == 0 && OutputOK([]) && outcnt == 0
    {
      this.input := input;
      var tab := Crc.MakeCrc();
      crcTable := tab;
      window := new byte[WSIZE](_ => 0);
      inptr, bb, bk, outcnt, bytesOut, sink, pos := 0, 0, 0, 0, 0, [], 0;
      crc := 0xffffffff;
    }

    /** The loop that gives back look-ahead: at most one byte, so that inptr stays within its
        buffer. */
    method GiveBack() returns (back: nat)
      requires 8 * inptr == pos + bk && bk <= 15
      modifies this`inptr, this`bk
      ensures back <= 1 && inptr + back == old(inptr) && inptr == (pos + 7) / 8
    {
      back := 0;
      while bk >= 8
        invariant 8 * inptr == pos + bk && bk <= 15 && inptr + back == old(inptr) && back <= 1 && (back == 1 ==> bk < 8)
      {
        bk := bk - 8;
        inptr := inptr - 1;
        back := back + 1;
      }
    }

    /** inflate: everything is delivered exactly if the reference decoder succeeds (given SCALE
        more bits of input), at most one byte is given back, and inptr is left at the first byte after
        the last one used. */
    method Inflate() returns (st: Status, back: nat)
      requires BufferOK() && pos == 0 && bk == 0 && OutputOK([]) && outcnt == 0
      modifies this`inptr, this`bb, this`bk, this`pos, this`outcnt, this`crc, this`bytesOut, this`sink, window
      ensures var r := Inflated(true, BitsOf(input), 0, []);
        && (st.Ok? ==> r.Done?)
        && (r.Done? && r.pos + SCALE <= 8 * |input| ==> st.Ok?)
        && (st.Ok? ==> sink == r.out && inptr == (r.pos + 7) / 8 && bytesOut == |r.out| % WORD)
        && (st.Ok? ==> Crc.Xor(crc, 0xffffffff) == Crc.Crc32(r.out))
      ensures back <= 1
    {
      hide Val, BitsOf, Inflated, Crc.TableOK, Crc.Feed, History, Pow2, Crc.Xor;
      back := 0;
      st := InflateBlocks([]);
      if st != Ok { return; }
      ghost var r := Inflated(true, BitsOf(input), 0, []);
      back := GiveBack();
      FlushWindow(r.out);
    }
  }

  // ----- what the routines promise -----

  ghost predicate WalkResult(hit: Hit, used: nat, st: Status, e: nat, v: nat)
  {
    match st
    case Ok => hit == Found(e, v, used) && e <= LITERAL
    case Err(code) => code == 1 && hit.Found? && hit.e == INVALID
    case Undefined => hit == Wild
    case Dead => hit == Short
  }

  /** The masked bit buffer is an index made of the next n bits. */
  lemma {:induction false} LowBits(s: seq<bool>, pos: nat, k: nat, b: nat, n: nat)
    requires pos + k <= |s| && b == Val(s[pos..pos + k]) && n <= k
    ensures And(b, Pow2(n) - 1) == Val(s[pos..][..n]) == Val(s[pos..pos + n])
  {
    hide Val, And, Mask, Pow2;
    ValSplit(s[pos..pos + k], n);
    assert s[pos..pos + k][..n] == s[pos..][..n] == s[pos..pos + n];
    AndMask(b, n);
  }

  /** There is no table only if all lengths are zero. */
  lemma {:induction false} NullTable(src: Source, l: nat, T: seq<seq<Entry>>)
    requires src.Wf() && TableFor(src, l, T)
    ensures |T| == 0 ==> l == 0 && T == []
    ensures |T| > 0 ==> l >= 1 && Fits(T, 0, l, INDEX_BITS)
  {
    hide Decodes, CodesOf, MaxLen;
  }

  lemma {:induction false} WalkNull(s: seq<bool>)
    ensures LinksForward([]) && Walk([], 0, 0, s) == Wild
  {
  }

  lemma {:induction false} WalkShort(T: seq<seq<Entry>>, t: nat, n: nat, s: seq<bool>)
    requires LinksForward(T) && |s| < n
    ensures Walk(T, t, n, s) == Short
  {
  }

  /** A symbol was decoded, or there is none to decode, or the input is nearly used up. */
  ghost predicate LookupResult(src: Source, s: seq<bool>, pos0: nat, pos: nat, st: Status, e: nat, v: nat)
    requires src.Wf()
  {
    match st
    case Ok =>
      && Symbol(src.b, s, pos0).Sym?
      && var i := Symbol(src.b, s, pos0).i;
         pos == pos0 + src.b[i] && src.SymbolEntry(i, src.b[i]) == Entry(e, src.b[i], v) && e <= LITERAL
    case Err(code) =>
      && code == 1
      && (Symbol(src.b, s, pos0).Sym? ==>
            var i := Symbol(src.b, s, pos0).i;
            src.SymbolEntry(i, src.b[i]).e == INVALID)
    case Undefined => Symbol(src.b, s, pos0).NoSym?
    case Dead => |s| < pos0 + SCALE
  }

  // ----- the three uses of huft_build -----

  function LitSource(b: seq<nat>): Source { Source(b, 257, CPLENS, CPLEXT) }

  function DistSource(b: seq<nat>): Source { Source(b, 0, CPDIST, CPDEXT) }

  function LenSource(b: seq<nat>): Source { Source(b, 19, [], []) }

  lemma {:induction false} FixedShapes()
    ensures |FixedLit()| == MAX_LIT && forall i :: 0 <= i < |FixedLit()| ==> 7 <= FixedLit()[i] <= 9
    ensures |FixedDist()| == MAX_DIST && forall i :: 0 <= i < |FixedDist()| ==> FixedDist()[i] == 5
  {
  }

  lemma {:induction false} LitSourceWf(b: seq<nat>)
    requires 1 <= |b| <= MAX_LIT && forall i :: 0 <= i < |b| ==> b[i] <= BMAX
    ensures LitSource(b).Wf()
  {
    hide Pow2;
    forall i | 0 <= i < |CPLEXT| ensures CPLEXT[i] < END_OF_BLOCK || CPLEXT[i] == INVALID {
      assert LenExtra(i) == CPLEXT[i];
    }
  }

  lemma {:induction false} DistSourceWf(b: seq<nat>)
    requires 1 <= |b| <= MAX_DIST && forall i :: 0 <= i < |b| ==> b[i] <= BMAX
    ensures DistSource(b).Wf()
  {
    hide Pow2;
    forall i | 0 <= i < |CPDEXT| ensures CPDEXT[i] < END_OF_BLOCK || CPDEXT[i] == INVALID {
      assert DistExtra(i) == CPDEXT[i];
    }
  }

  lemma {:induction false} LenSourceWf(b: seq<nat>)
    requires 1 <= |b| <= 19 && forall i :: 0 <= i < |b| ==> b[i] <= BMAX
    ensures LenSource(b).Wf()
  {
  }

  /** What the entry of a literal or length symbol says. */
  lemma {:induction false} LitEntry(ll: seq<nat>, i: nat, e: nat, v: nat)
    requires LitSource(ll).Wf() && i < |ll| && |ll| <= MAX_LIT
    requires LitSource(ll).SymbolEntry(i, ll[i]) == Entry(e, ll[i], v) && e <= LITERAL
    ensures e == LITERAL <==> i < 256
    ensures e == END_OF_BLOCK <==> i == 256
    ensures i <= 256 ==> v == i
    ensures i > 256 ==> e == LenExtra(i - 257) <= 5 && v == LenBase(i - 257)
  {
  }

  lemma {:induction false} LitInvalid(ll: seq<nat>, i: nat)
    requires LitSource(ll).Wf() && |ll| <= MAX_LIT
    ensures i < |ll| && LitSource(ll).SymbolEntry(i, ll[i]).e == INVALID ==> i > 256 && LenExtra(i - 257) == 99
  {
  }

  lemma {:induction false} DistEntry(dl: seq<nat>, i: nat, e: nat, v: nat)
    requires DistSource(dl).Wf() && i < |dl| && |dl| <= MAX_DIST
    requires DistSource(dl).SymbolEntry(i, dl[i]) == Entry(e, dl[i], v)
    ensures e == DistExtra(i) <= 13 && v == DistBase(i)
  {
    hide Pow2;
  }

  lemma {:induction false} DistValid(dl: seq<nat>)
    requires DistSource(dl).Wf() && |dl| <= MAX_DIST
    ensures forall i :: 0 <= i < |dl| ==> DistSource(dl).SymbolEntry(i, dl[i]).e != INVALID
  {
  }

  ghost predicate DistResult(r: Dist, len: nat, pos: nat, st: Status, d: nat)
  {
    match st
    case Ok => r == Dist(d, pos)
    case Dead => r.NoDist? || len < r.pos + SCALE
    case _ => r.NoDist?
  }

  ghost predicate MatchResult(m: Match, len: nat, pos: nat, st: Status, n: nat, d: nat)
  {
    match st
    case Ok => m == Match(n, d, pos)
    case Dead => m.NoMatch? || len < m.pos + SCALE
    case _ => m.NoMatch?
  }

  /** The reference decoder without a symbol, or with a length code that is not used. */
  lemma {:induction false} BodyFails(ll: seq<nat>, dl: seq<nat>, s: seq<bool>, pos: nat, out: seq<byte>)
    requires |ll| <= MAX_LIT && |dl| <= MAX_DIST
    ensures match Symbol(ll, s, pos)
      case NoSym => Body(true, ll, dl, s, pos, out) == Corrupt
      case Sym(i) => i > 256 && LenExtra(i - 257) == 99 ==> Body(true, ll, dl, s, pos, out) == Corrupt
  {
    hide Symbol, Copy, LenBase, ReadDist, Val, Pow2;
  }

  /** One step of the reference decoder. */
  lemma {:induction false} BodyStep(ll: seq<nat>, dl: seq<nat>, s: seq<bool>, pos: nat, out: seq<byte>, i: nat)
    requires |ll| <= MAX_LIT && |dl| <= MAX_DIST && Symbol(ll, s, pos) == Sym(i)
    ensures i < 256 ==> Body(true, ll, dl, s, pos, out) == Body(true, ll, dl, s, pos + ll[i], out + [i])
    ensures i == 256 ==> Body(true, ll, dl, s, pos, out) == Done(out, pos + ll[i])
    ensures i > 256 ==>
      match ReadMatch(dl, i, s, pos + ll[i])
      case NoMatch => Body(true, ll, dl, s, pos, out) == Corrupt
      case Match(len, dist, pos2) =>
        Body(true, ll, dl, s, pos, out) == Body(true, ll, dl, s, pos2, Copy(out, dist, len))
  {
    hide Symbol, Copy, LenBase, LenExtra, ReadDist, Val, Pow2;
  }

  // ----- run-length coded lengths -----

  /** Extra bits and least repeat count of the symbols 16 to 18. */
  function RunBits(j: nat): nat { if j == 16 then 2 else if j == 17 then 3 else 7 }

  function RunBase(j: nat): nat { if j == 18 then 11 else 3 }

  ghost predicate LengthsResult(r: Lens, len: nat, pos: nat, st: Status, acc: seq<nat>)
  {
    match st
    case Ok => r == Lens(acc, pos)
    case Dead => r.NoLens? || len < r.pos + SCALE
    case _ => r.NoLens?
  }

  lemma {:induction false} LengthsStep(cl: seq<nat>, n: nat, s: seq<bool>, pos: nat, acc: seq<nat>)
    requires |cl| == 19 && |acc| < n && pos <= |s|
    ensures match Symbol(cl, s, pos)
      case NoSym => Lengths(true, cl, n, s, pos, acc) == NoLens
      case Sym(j) =>
        var pos1 := pos + cl[j];
        && (j < 16 ==> Lengths(true, cl, n, s, pos, acc) == Lengths(true, cl, n, s, pos1, acc + [j]))
        && (j >= 16 ==>
              if pos1 + RunBits(j) > |s| then Lengths(true, cl, n, s, pos, acc) == NoLens else
              var r := RunBase(j) + Peek(s, pos1, RunBits(j));
              var v := if j == 16 && acc != [] then acc[|acc| - 1] else 0;
              if |acc| + r > n then Lengths(true, cl, n, s, pos, acc) == NoLens
              else Lengths(true, cl, n, s, pos, acc) == Lengths(true, cl, n, s, pos1 + RunBits(j), acc + Repeat(v, r)))
  {
    hide Symbol, Val, Pow2, Repeat;
  }

  lemma {:induction false} LengthsEnd(cl: seq<nat>, n: nat, s: seq<bool>, pos: nat, acc: seq<nat>)
    requires |cl| == 19 && |acc| >= n
    ensures Lengths(true, cl, n, s, pos, acc) == Lens(acc, pos)
  {
  }

  lemma {:induction false} MaxLenBound(b: seq<nat>, k: nat)
    requires forall i :: 0 <= i < |b| ==> b[i] <= k
    ensures MaxLen(b) <= k
  {
    hide Count;
    var g := MaxLen(b);
    if g > k {
      assert Counts(b)[g] == Count(b, g) > 0;
      var i := Nth(b, g, 0);
      assert false;
    }
  }

  lemma {:induction false} LowThree(k: nat)
    ensures And(k, 7) == k % 8
  {
    assert Pow2(3) == 8;
    AndMask(k, 3);
    var a, b := k / 2, k / 2 / 2;
    assert Mask(b, 1) == b % 2 + 2 * Mask(b / 2, 0) == b % 2;
    assert Mask(a, 2) == a % 2 + 2 * (b % 2);
    assert Mask(k, 3) == k % 2 + 2 * Mask(a, 2);
  }

  lemma {:induction false} EightBits()
    ensures Pow2(8) == 256
  {
  }

  /** Putting the next byte above the k bits of the buffer: nothing is lost in 32 bits. */
  lemma {:induction false} AddByte(input: seq<byte>, pos: nat, i: nat, k: nat, b: nat)
    requires i < |input| && 8 * i == pos + k && k <= 24
    requires b == Val(BitsOf(input)[pos..pos + k])
    ensures Or(b, Shl(input[i], k)) < WORD
    ensures Or(b, Shl(input[i], k)) == Val(BitsOf(input)[pos..pos + k + 8])
  {
    hide Val, Or, Shl, Low, BitsOf;
    var s := BitsOf(input);
    ByteBits(input, i);
    assert s[pos..pos + k + 8] == s[pos..pos + k] + s[8 * i..8 * i + 8];
    ValAppend(s[pos..pos + k], s[8 * i..8 * i + 8]);
    assert input[i] < Pow2(8) by { assert Pow2(8) == 256; }
    LowVal(input[i], 8);
    OrDisjoint(b, input[i], k);
    WordBound(s[pos..pos + k + 8]);
  }

  lemma {:induction false} WordBound(s: seq<bool>)
    requires |s| <= 32
    ensures Val(s) < WORD
  {
    hide Val, Pow2;
    Pow2Mono(|s|, 32);
    Pow2Word();
  }

  lemma {:induction false} Pow2Word()
    ensures Pow2(32) == 0x1_0000_0000
  {
    assert Pow2(8) == 256;
    assert Pow2(16) == 0x1_0000;
    assert Pow2(24) == 0x100_0000;
  }
}
