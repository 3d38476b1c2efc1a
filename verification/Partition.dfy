/** A paging partition of kernel/generic/bootstrap/default_pager.c: its block bitmap and its
    storage. */
module Partition {
  import opened Bits
  import opened BlockMap
  import opened FileDirect

  const NB_BM: nat := 32
  const BM_MASK: nat := 0xffffffff
  const MAX_BLOCKS: nat := 0x10_0000   // sizes in bytes have 32 bits; p_offset has 24

  lemma {:induction false} WordSize()
    ensures Pow2(NB_BM) == BM_MASK + 1
  {
    assert Pow2(8) == 0x100;
    assert Pow2(16) == 0x1_0000;
    assert Pow2(24) == 0x100_0000;
  }

  /** Bit b of a bitmap. */
  predicate BitSet(bm: seq<nat>, b: nat)
  {
    b / NB_BM < |bm| && Bit(bm[b / NB_BM], b % NB_BM)
  }

  /** Fewer than n used blocks leave one of the first n unused. */
  lemma {:induction false} Unused(used: set<nat>, n: nat) returns (b: nat)
    requires |used| < n
    ensures b < n && b !in used
  {
    if n - 1 in used {
      b := Unused(used - {n - 1}, n - 1);
    } else {
      b := n - 1;
    }
  }

  // ----- storage -----

  const PAGE_SHIFT: nat := 12

  /** The bytes of a block. */
  function PageAt(store: seq<byte>, off: nat): seq<byte>
    requires PAGE * (off + 1) <= |store|
  {
    store[PAGE * off..PAGE * (off + 1)]
  }

  lemma {:induction false} SpliceOther(store: seq<byte>, off: nat, at: nat, data: seq<byte>, o: nat)
    requires PAGE * off <= at && at + |data| <= PAGE * (off + 1) <= |store|
    requires o != off && PAGE * (o + 1) <= |store|
    ensures PageAt(Splice(store, at, data), o) == PageAt(store, o)
  {
    SpliceElsewhere(store, at, data, PAGE * o, PAGE * (o + 1));
  }

  lemma {:induction false} SpliceNext(store: seq<byte>, at: nat, d: seq<byte>, e: seq<byte>)
    requires at + |d| + |e| <= |store|
    ensures Splice(Splice(store, at, d), at + |d|, e) == Splice(store, at, d + e)
  {
  }

  /** Offsets reached by whole pieces: multiples of a disk block, or of a page. */
  predicate Even(x: nat, bshift: nat, pshift: nat)
  {
    Mask(x, Min(bshift, pshift)) == 0
  }

  /** For pages of 2^pshift bytes and disk blocks of 2^bshift: the piece moved d bytes into page off
      stays inside one disk block and the page, and is sector-aligned. */
  lemma {:induction false} PieceFits(pshift: nat, bshift: nat, off: nat, d: nat)
    requires pshift >= SECTOR_SHIFT && bshift >= SECTOR_SHIFT && d < Pow2(pshift) && Even(d, bshift, pshift)
    ensures var n := Min(Pow2(pshift) - d, Pow2(bshift));
      && Mask(Shl(off, pshift) + d, bshift) + n <= Pow2(bshift) && Even(d + n, bshift, pshift)
      && Mask(Shl(off, pshift) + d, SECTOR_SHIFT) == 0
  {
    hide Shl, Mask, Pow2;
    if bshift >= pshift {
      MaskBound(d, pshift);
      LargeBlock(pshift, bshift, off);
    } else {
      SmallBlock(pshift, bshift, off, d);
      MaskMask(Shl(off, pshift) + d, bshift, SECTOR_SHIFT);
    }
  }

  lemma {:induction false} PageShl(off: nat)
    ensures Shl(off, PAGE_SHIFT) == PAGE * off && Pow2(PAGE_SHIFT) == PAGE
  {
    assert Shl(off, 1) == 2 * off;
    assert Shl(off, 2) == 4 * off;
    assert Shl(off, 4) == 16 * off;
    assert Shl(off, 6) == 64 * off;
    assert Shl(off, 8) == 256 * off;
    assert Shl(off, 10) == 1024 * off;
    assert Pow2(4) == 16;
    assert Pow2(8) == 256;
  }

  lemma {:induction false} LargeBlock(pshift: nat, bshift: nat, off: nat)
    requires bshift >= pshift >= SECTOR_SHIFT
    ensures Mask(Shl(off, pshift), bshift) + Pow2(pshift) <= Pow2(bshift)
    ensures Mask(Shl(off, pshift), SECTOR_SHIFT) == 0 && Even(Pow2(pshift), bshift, pshift)
  {
    hide Shl, Mask, Pow2, Shr;
    var e := bshift - pshift;
    var h, l := Shr(off, e), Mask(off, e);
    Split(off, e);
    ShlAdd(Shl(h, e), l, pshift);
    ShlShl(h, e, pshift);
    MaskBound(off, e);
    ShlMono(l + 1, Pow2(e), pshift);
    ShlPow2(e, pshift);
    BlockEnd(l, pshift);
    SplitUnique(h, Shl(l, pshift), bshift);
    MultipleMask(off, pshift, SECTOR_SHIFT);
    BlockEnd(0, pshift);
    ShlZero(pshift);
    MultipleMask(1, pshift, pshift);
  }

  /** Multiples of 2^n are multiples of 2^m. */
  lemma {:induction false} MultipleMask(x: nat, n: nat, m: nat)
    requires m <= n
    ensures Mask(Shl(x, n), m) == 0
  {
    ShlShl(x, n - m, m);
    SplitUnique(Shl(x, n - m), 0, m);
  }

  lemma {:induction false} SmallBlock(pshift: nat, bshift: nat, off: nat, d: nat)
    requires bshift < pshift && d < Pow2(pshift) && Mask(d, bshift) == 0
    ensures Pow2(bshift) <= Pow2(pshift) - d && Mask(Shl(off, pshift) + d, bshift) == 0
    ensures Mask(d + Pow2(bshift), bshift) == 0
  {
    hide Shl, Mask, Pow2, Shr;
    var e, c := Shr(d, bshift), pshift - bshift;
    Split(d, bshift);
    ShlShl(off, c, bshift);
    ShlAdd(Shl(off, c), e, bshift);
    MultipleMask(Shl(off, c) + e, bshift, bshift);
    ShlPow2(c, bshift);
    ShlMono(Pow2(c), e, bshift);
    ShlMono(e + 1, Pow2(c), bshift);
    BlockEnd(e, bshift);
    MultipleMask(e + 1, bshift, bshift);
  }

  /** At the page size of the machine. */
  lemma {:induction false} PagePiece(bshift: nat, off: nat, d: nat)
    requires bshift >= SECTOR_SHIFT && d < PAGE && Even(d, bshift, PAGE_SHIFT)
    ensures var n := Min(PAGE - d, Pow2(bshift));
      && Mask(PAGE * off + d, bshift) + n <= Pow2(bshift) && Even(d + n, bshift, PAGE_SHIFT)
      && Mask(PAGE * off + d, SECTOR_SHIFT) == 0
  {
    hide Shl, Mask, Pow2;
    PageShl(off);
    PieceFits(PAGE_SHIFT, bshift, off, d);
  }

  /** The partition is a file without holes, or a device. */
  ghost predicate Backed(fd: Direct, bsize: nat, dev: seq<byte>, store: seq<byte>)
  {
    fd.Holds(dev, store) && fd.Distinct() && bsize == fd.Bsize() && forall k :: 0 <= k < |fd.blocks| ==> !fd.Hole(k)
  }

  class Part {
    const total: nat
    const id: nat
    const fd: Direct            // p_private: where the partition is on its device
    const bsize: nat            // bytes its read and write routines move in one call
    const bitmap: array<nat>
    var free: nat
    var goingAway: bool
    var dev: seq<byte>          // the device
    ghost var store: seq<byte>  // what the partition holds
    ghost var used: set<nat>    // allocated blocks

    ghost predicate Valid()
      reads this, bitmap
    {
      && total <= MAX_BLOCKS && PAGE * total <= |store| && Backed(fd, bsize, dev, store)
      && bitmap.Length == (total + NB_BM - 1) / NB_BM
      && (forall e :: 0 <= e < bitmap.Length ==> bitmap[e] <= BM_MASK)
      && (forall b: nat :: b in used <==> BitSet(bitmap[..], b))
      && (forall b :: b in used ==> b < total)
      && free + |used| == total
    }

    constructor (total: nat, id: nat, fd: Direct, dev: seq<byte>)
      requires total <= MAX_BLOCKS && fd.Fits(dev) && PAGE * total <= Shl(fd.Size(), fd.bshift)
      requires forall k :: 0 <= k < |fd.blocks| ==> !fd.Hole(k)
      ensures Valid() && fresh(bitmap) && used == {} && !goingAway
      ensures this.total == total && this.id == id && this.fd == fd && bsize == fd.Bsize() && free == total
      ensures store == fd.Contents(dev, |fd.blocks|)
    {
      this.total, this.id, this.fd, this.bsize := total, id, fd, fd.Bsize();
      this.dev, store := dev, fd.Contents(dev, |fd.blocks|);
      free, goingAway, used := total, false, {};
      bitmap := new nat[(total + NB_BM - 1) / NB_BM](_ => 0);
      new;
      fd.HoldsContents(dev);
      forall b: nat ensures !BitSet(bitmap[..], b) {
        ZeroBit(b % NB_BM);
      }
    }

    /** The scan of pager_alloc_page for a word that is not full and its first clear bit: it never
        runs off the end when a block is free, and finds the lowest clear block, which is never
        one of the slack bits of the last word. */
    method FindClear() returns (e: nat, bit: nat)
      requires Valid() && free > 0
      ensures e < bitmap.Length && bit < NB_BM && NB_BM * e + bit < total
      ensures NB_BM * e + bit !in used
      ensures forall b: nat :: b < NB_BM * e + bit ==> b in used
    {
      hide Bit, And, Pow2, Backed;
      WordSize();
      ghost var b := Unused(used, total);
      ghost var bm := bitmap[..];
      assert !BitSet(bm, b);
      e := 0;
      while bitmap[e] == BM_MASK
        invariant 0 <= e <= b / NB_BM && e < bitmap.Length
        invariant forall i: nat :: i < NB_BM * e ==> BitSet(bm, i)
        decreases bitmap.Length - e
      {
        FullWord(bm, e, b);
        e := e + 1;
      }
      var word := bitmap[e];
      ghost var c := ClearBit(word, NB_BM);
      bit := 0;
      AndBit(word, bit);
      while And(word, Pow2(bit)) != 0
        invariant bit <= c && (And(word, Pow2(bit)) != 0 <==> Bit(word, bit))
        invariant forall i: nat :: i < bit ==> Bit(word, i)
        decreases NB_BM - bit
      {
        bit := bit + 1;
        AndBit(word, bit);
      }
      LowestClear(bm, e, bit);
      assert !BitSet(bm, NB_BM * e + bit);
    }

    /** pager_alloc_page, when a block is free */
    method Alloc() returns (off: nat)
      requires Valid() && free > 0
      modifies this`free, this`used, bitmap
      ensures Valid() && off < total && off !in old(used)
      ensures used == old(used) + {off} && free == old(free) - 1
      ensures forall b: nat :: b < off ==> b in old(used)
    {
      hide Bit, Or, Pow2, Backed;
      var e, bit := FindClear();
      off := NB_BM * e + bit;
      ghost var bm := bitmap[..];
      SetBit(bm, e, bit);
      bitmap[e] := Or(bitmap[e], Pow2(bit));
      assert bitmap[..] == bm[e := Or(bm[e], Pow2(bit))];
      free := free - 1;
      used := used + {off};
    }

    /** pager_dealloc_page */
    method Dealloc(off: nat)
      requires Valid() && off in used
      modifies this`free, this`used, bitmap
      ensures Valid() && used == old(used) - {off} && free == old(free) + 1
    {
      hide Bit, And, Pow2, Backed;
      WordSize();
      var e, bit := off / NB_BM, off % NB_BM;
      ghost var bm := bitmap[..];
      ClearBitOf(bm, e, bit);
      bitmap[e] := And(bitmap[e], BM_MASK - Pow2(bit));
      assert bitmap[..] == bm[e := And(bm[e], BM_MASK - Pow2(bit))];
      free := free + 1;
      used := used - {off};
    }

    /** The partition's p_read: at most one disk block, which the piece must not leave. */
    method Read(at: nat, size: nat) returns (data: seq<byte>)
      requires Valid() && at < PAGE * total && Mask(at, SECTOR_SHIFT) == 0
      requires Mask(at, fd.bshift) + Min(size, bsize) <= bsize
      ensures at + Min(size, bsize) <= |store| && data == store[at..at + Min(size, bsize)]
    {
      hide Direct.Holds, Direct.Distinct, BitSet, Mask, Shl, Pow2, Shr;
      fd.StoreSize(dev, store);
      InFile(fd, at);
      var status;
      status, data := PageRead(fd, dev, at, size, store);
    }

    /** The partition's p_write. */
    method Write(at: nat, data: seq<byte>) returns (n: nat)
      requires Valid() && at < PAGE * total && Mask(at, SECTOR_SHIFT) == 0
      requires Mask(at, fd.bshift) + Min(|data|, bsize) <= bsize
      modifies this`dev, this`store
      ensures Valid() && n == Min(|data|, bsize) && at + n <= |old(store)|
      ensures store == Splice(old(store), at, data[..n])
    {
      hide Direct.Holds, Direct.Distinct, BitSet, Mask, Shl, Pow2, Shr;
      fd.StoreSize(dev, store);
      InFile(fd, at);
      var status, dev';
      status, n, dev' := PageWrite(fd, dev, at, data, store);
      dev, store := dev', Splice(store, at, data[..n]);
    }

    /** One p_read at the start of a block. */
    method ReadStart(off: nat) returns (data: seq<byte>)
      requires Valid() && off < total
      ensures data == PageAt(store, off)[..Min(PAGE, bsize)]
    {
      PagePiece(fd.bshift, off, 0);
      data := Read(PAGE * off, PAGE);
      assert data == PageAt(store, off)[..|data|];
    }

    /** One p_write at the start of a block. */
    method WriteStart(off: nat, data: seq<byte>) returns (n: nat)
      requires Valid() && off < total && |data| <= PAGE
      modifies this`dev, this`store
      ensures Valid() && n == Min(|data|, bsize) && store == Splice(old(store), PAGE * off, data[..n])
    {
      PagePiece(fd.bshift, off, 0);
      n := Write(PAGE * off, data);
    }

    /** The loop of default_read. */
    method ReadPage(off: nat) returns (data: seq<byte>)
      requires Valid() && off < total
      ensures data == PageAt(store, off)
    {
      var at, size := PAGE * off, PAGE;
      data := [];
      while true
        invariant size > 0 && |data| + size == PAGE && at == PAGE * off + |data|
        invariant data == store[PAGE * off..at] && Even(|data|, fd.bshift, PAGE_SHIFT)
        decreases size
      {
        PagePiece(fd.bshift, off, |data|);
        var piece := Read(at, size);
        data, at, size := data + piece, at + |piece|, size - |piece|;
        if size == 0 { break; }
      }
    }

    /** The loop of default_write. */
    method WritePage(off: nat, data: seq<byte>)
      requires Valid() && off < total && |data| == PAGE
      modifies this`dev, this`store
      ensures Valid() && store == Splice(old(store), PAGE * off, data)
    {
      var at, d := PAGE * off, 0;
      while true
        invariant Valid() && 0 <= d < PAGE && at == PAGE * off + d && Even(d, fd.bshift, PAGE_SHIFT)
        invariant store == Splice(old(store), PAGE * off, data[..d])
        decreases PAGE - d
      {
        PagePiece(fd.bshift, off, d);
        var n := Write(at, data[d..]);
        SpliceNext(old(store), PAGE * off, data[..d], data[d..][..n]);
        assert data[..d] + data[d..][..n] == data[..d + n];
        at, d := at + n, d + n;
        if d == PAGE { break; }
      }
      assert data[..d] == data;
    }
  }

  /** All bits of a full word are set, so the clear bit b lies beyond it. */
  lemma {:induction false} FullWord(bm: seq<nat>, e: nat, b: nat)
    requires e < |bm| && bm[e] == BM_MASK && b / NB_BM < |bm| && !BitSet(bm, b) && e <= b / NB_BM
    ensures e < b / NB_BM
    ensures forall i: nat :: NB_BM * e <= i < NB_BM * (e + 1) ==> BitSet(bm, i)
  {
    hide Bit, Pow2;
    WordSize();
    forall i: nat | NB_BM * e <= i < NB_BM * (e + 1) ensures BitSet(bm, i) {
      OnesBit(NB_BM, i % NB_BM);
    }
  }

  /** No clear bit is below the first clear bit of the first word that is not full. */
  lemma {:induction false} LowestClear(bm: seq<nat>, e: nat, bit: nat)
    requires e < |bm| && bit < NB_BM && forall i: nat :: i < bit ==> Bit(bm[e], i)
    ensures forall i: nat :: NB_BM * e <= i < NB_BM * e + bit ==> BitSet(bm, i)
  {
    hide Bit;
    forall i: nat | NB_BM * e <= i < NB_BM * e + bit ensures BitSet(bm, i) {
      assert i / NB_BM == e && i % NB_BM == i - NB_BM * e;
    }
  }

  lemma {:induction false} SetBit(bm: seq<nat>, e: nat, bit: nat)
    requires e < |bm| && bit < NB_BM && bm[e] <= BM_MASK
    ensures Or(bm[e], Pow2(bit)) <= BM_MASK
    ensures forall b: nat :: BitSet(bm[e := Or(bm[e], Pow2(bit))], b) <==> BitSet(bm, b) || b == NB_BM * e + bit
  {
    hide Bit, Or, Pow2;
    WordSize();
    Pow2Mono(bit, NB_BM);
    OrBound(bm[e], Pow2(bit), NB_BM);
    forall b: nat
      ensures BitSet(bm[e := Or(bm[e], Pow2(bit))], b) <==> BitSet(bm, b) || b == NB_BM * e + bit
    {
      OrBits(bm[e], Pow2(bit), b % NB_BM);
      Pow2Bit(bit, b % NB_BM);
    }
  }

  lemma {:induction false} ClearBitOf(bm: seq<nat>, e: nat, bit: nat)
    requires e < |bm| && bit < NB_BM && bm[e] <= BM_MASK
    ensures Pow2(bit) <= BM_MASK && And(bm[e], BM_MASK - Pow2(bit)) <= BM_MASK
    ensures forall b: nat ::
      BitSet(bm[e := And(bm[e], BM_MASK - Pow2(bit))], b) <==> BitSet(bm, b) && b != NB_BM * e + bit
  {
    hide Bit, And, Pow2;
    WordSize();
    NotBit(NB_BM, bit, bit);
    AndAtMost(bm[e], BM_MASK - Pow2(bit));
    forall b: nat
      ensures BitSet(bm[e := And(bm[e], BM_MASK - Pow2(bit))], b) <==> BitSet(bm, b) && b != NB_BM * e + bit
    {
      AndBits(bm[e], BM_MASK - Pow2(bit), b % NB_BM);
      NotBit(NB_BM, bit, b % NB_BM);
    }
  }
}
