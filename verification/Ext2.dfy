/** The block map of kernel/generic/bootstrap/ext2_file_io.c: from a block of a file to a block of
    the disk, through up to three levels of index blocks. */
module Ext2 {
  import opened Bits
  import opened FileDirect

  const NDADDR: nat := 12
  const NIADDR: nat := 3
  const MAX_SHIFT: nat := 12      // blocks of at most 4096 bytes

  /** How a block of a file is reached: from the inode, or from index block level by one index for
      each level. */
  datatype Path = InInode(i: nat) | Index(level: nat, digits: seq<nat>)

  // ----- numbers with digits below N = 2^m -----

  /** 2^(m * l) blocks hang off an index block of level l - 1. */
  function Shift(m: nat, l: nat): nat
  {
    if l == 0 then 0 else Shift(m, l - 1) + m
  }

  function Span(m: nat, l: nat): (n: nat)
    ensures n >= 1
  {
    Pow2(Shift(m, l))
  }

  /** The indices that lead to block f under an index block of level l. */
  function Digits(m: nat, l: nat, f: nat): (s: seq<nat>)
    ensures |s| == l + 1
  {
    if l == 0 then [f] else [Shr(f, Shift(m, l))] + Digits(m, l - 1, Mask(f, Shift(m, l)))
  }

  /** The block that a list of indices leads to. */
  function Number(m: nat, digits: seq<nat>): nat
  {
    if digits == [] then 0 else Shl(digits[0], Shift(m, |digits| - 1)) + Number(m, digits[1..])
  }

  lemma {:induction false} DigitsNumber(m: nat, l: nat, f: nat)
    ensures Number(m, Digits(m, l, f)) == f
  {
    if l == 0 {
      assert Digits(m, 0, f)[1..] == [];
      assert Shl(f, 0) == f;
    } else {
      var d := Digits(m, l - 1, Mask(f, Shift(m, l)));
      assert Digits(m, l, f)[1..] == d;
      DigitsNumber(m, l - 1, Mask(f, Shift(m, l)));
      Split(f, Shift(m, l));
    }
  }

  /** Every index is below N. */
  lemma {:induction false} DigitsBelow(m: nat, l: nat, f: nat)
    requires f < Span(m, l + 1)
    ensures forall i :: 0 <= i <= l ==> Digits(m, l, f)[i] < Pow2(m)
  {
    if l == 0 {
      assert Shift(m, 1) == m;
    } else {
      var s := Shift(m, l);
      MaskBound(f, s);
      DigitsBelow(m, l - 1, Mask(f, s));
      Split(f, s);
      ShlPow2(m, s);
      ShlMono(Pow2(m), Shr(f, s), s);
    }
  }

  // ----- the index structure of an inode -----

  /** The first block under the index block of level l, counted from the end of the direct ones. */
  function First(m: nat, l: nat): nat
  {
    if l == 0 then 0 else First(m, l - 1) + Span(m, l)
  }

  lemma {:induction false} Firsts(m: nat)
    ensures First(m, 1) == Span(m, 1) && First(m, 2) == First(m, 1) + Span(m, 2)
    ensures First(m, 3) == First(m, 2) + Span(m, 3)
  {
    assert First(m, 0) == 0;
    assert First(m, 1) == First(m, 0) + Span(m, 1);
  }

  /** The number of blocks a file can have: 12 + N + N^2 + N^3. */
  function Limit(m: nat): nat
  {
    NDADDR + First(m, NIADDR)
  }

  /** The path of block fb of a file. */
  function PathOf(m: nat, fb: nat): Path
    requires fb < Limit(m)
  {
    if fb < NDADDR then InInode(fb)
    else
      var r := fb - NDADDR;
      if r < First(m, 1) then Index(0, Digits(m, 0, r))
      else if r < First(m, 2) then Index(1, Digits(m, 1, r - First(m, 1)))
      else Index(2, Digits(m, 2, r - First(m, 2)))
  }

  function BlockNumber(m: nat, p: Path): nat
  {
    match p
    case InInode(i) => i
    case Index(l, digits) => NDADDR + First(m, l) + Number(m, digits)
  }

  /** Distinct blocks of a file have distinct paths. */
  lemma {:induction false} PathsDistinct(m: nat, fb: nat)
    requires fb < Limit(m)
    ensures BlockNumber(m, PathOf(m, fb)) == fb
  {
    if fb >= NDADDR {
      var r := fb - NDADDR;
      DigitsNumber(m, 0, r);
      if r >= First(m, 1) { DigitsNumber(m, 1, r - First(m, 1)); }
      if r >= First(m, 2) { DigitsNumber(m, 2, r - First(m, 2)); }
    }
  }

  /** The index of every level of a path is below N. */
  lemma {:induction false} PathBelow(m: nat, fb: nat)
    requires fb < Limit(m)
    ensures var p := PathOf(m, fb);
      p.Index? ==>
        p.level < NIADDR && |p.digits| == p.level + 1 && forall i :: 0 <= i <= p.level ==> p.digits[i] < Pow2(m)
  {
    Firsts(m);
    if fb >= NDADDR {
      var r := fb - NDADDR;
      if r < First(m, 1) {
        DigitsBelow(m, 0, r);
      } else if r < First(m, 2) {
        DigitsBelow(m, 1, r - First(m, 1));
      } else {
        DigitsBelow(m, 2, r - First(m, 2));
      }
    }
  }

  // ----- the uncached walk -----

  /** Word i of an index block: four bytes, least first. */
  function Word(block: seq<byte>, i: nat): nat
    requires 4 * i + 4 <= |block|
  {
    var b: seq<int> := block;
    b[4 * i] + 256 * b[4 * i + 1] + 65536 * b[4 * i + 2] + 16777216 * b[4 * i + 3]
  }

  /** Block b is on the device. */
  predicate Readable(dev: seq<byte>, s: nat, b: nat)
  {
    Shl(b + 1, s) <= |dev|
  }

  function BlockAt(dev: seq<byte>, s: nat, b: nat): (r: seq<byte>)
    requires Readable(dev, s, b)
    ensures |r| == Pow2(s)
  {
    BlockEnd(b, s);
    dev[Shl(b, s)..Shl(b + 1, s)]
  }

  datatype Lookup = Found(block: nat) | NotInFile | ReadError

  /** The number of block numbers in a block. */
  function Slots(s: nat): nat
    requires s >= 2
  {
    Pow2(s - 2)
  }

  predicate AllBelow(digits: seq<nat>, n: nat)
  {
    forall i :: 0 <= i < |digits| ==> digits[i] < n
  }

  /** From index block b by the given indices; a 0 on the way is a hole. */
  function Follow(dev: seq<byte>, s: nat, b: nat, digits: seq<nat>): Lookup
    requires s >= 2 && AllBelow(digits, Slots(s))
    decreases |digits|
  {
    if b == 0 || digits == [] then Found(b)
    else if !Readable(dev, s, b) then ReadError
    else
      SlotsInBlock(s);
      Follow(dev, s, Word(BlockAt(dev, s, b), digits[0]), digits[1..])
  }

  lemma {:induction false} SlotsInBlock(s: nat)
    requires s >= 2
    ensures Pow2(s) == 4 * Slots(s)
  {
    assert Pow2(s) == 2 * Pow2(s - 1);
  }

  /** Where block fb of the file with this inode is on the disk. */
  function Walk(dev: seq<byte>, s: nat, inode: seq<nat>, fb: nat): Lookup
    requires s >= 2 && |inode| == NDADDR + NIADDR
  {
    if fb >= Limit(s - 2) then NotInFile
    else
      PathBelow(s - 2, fb);
      match PathOf(s - 2, fb)
      case InInode(i) => Found(inode[i])
      case Index(l, digits) => Follow(dev, s, inode[NDADDR + l], digits)
  }

  // ----- an open file -----

  /** The loop of mount_fs: how many blocks hang off an index block of each level. */
  method Spans(m: nat) returns (a: array<nat>)
    requires m <= MAX_SHIFT - 2
    ensures fresh(a) && a.Length == NIADDR
    ensures forall l :: 0 <= l < NIADDR ==> a[l] == Span(m, l + 1) && a[l] <= 0x4000_0000
  {
    hide Span, Pow2;
    a := new nat[NIADDR];
    var mult, level := 1, 0;
    SpanZero(m);
    while level < NIADDR
      invariant 0 <= level <= NIADDR && mult == Span(m, level)
      invariant forall l :: 0 <= l < level ==> a[l] == Span(m, l + 1) && a[l] <= 0x4000_0000
    {
      SpanNext(m, level);
      mult := mult * Pow2(m);
      a[level] := mult;
      level := level + 1;
    }
  }

  /** A cached index block is what is on the disk. */
  predicate Cached(dev: seq<byte>, s: nat, no: int, block: seq<byte>)
  {
    no == -1 || (no >= 0 && Readable(dev, s, no) && block == BlockAt(dev, s, no))
  }

  class File {
    const dev: seq<byte>
    const bshift: nat
    const inode: seq<nat>           // i_block
    const isize: nat                // i_size
    const nindir: array<nat>        // f_nindir
    const blkno: array<int>         // f_blkno
    const blk: array<seq<byte>>     // f_blk
    var bufBlkno: int               // f_buf_blkno
    var buf: seq<byte>              // what is at f_buf
    var held: bool                  // the storage at f_buf has not been given back

    ghost predicate Valid()
      reads nindir, blkno, blk
    {
      && SECTOR_SHIFT <= bshift <= MAX_SHIFT && |inode| == NDADDR + NIADDR
      && nindir.Length == blkno.Length == blk.Length == NIADDR
      && (forall l :: 0 <= l < NIADDR ==> nindir[l] == Span(bshift - 2, l + 1))
      && (forall l :: 0 <= l < NIADDR ==> Cached(dev, bshift, blkno[l], blk[l]))
    }

    /** The buffered data block is that of the file, unless its storage has been given back. */
    ghost predicate BufWf()
      requires Valid()
      reads this, nindir, blkno, blk
    {
      bufBlkno == -1 || (bufBlkno >= 0 && HasBlock(bufBlkno) && (held ==> buf == BlockBytes(bufBlkno)))
    }

    /** The buffered data block is that of the file. */
    ghost predicate BufOK()
      requires Valid()
      reads this, nindir, blkno, blk
    {
      BufWf() && (bufBlkno == -1 || held)
    }

    /** Block fb is taken to be in the buffer, whose storage has been given back. */
    predicate Freed(fb: nat)
      reads this`bufBlkno, this`held
    {
      bufBlkno == fb && !held
    }

    /** Block fb of the file can be read. */
    predicate HasBlock(fb: nat)
      requires bshift >= 2 && |inode| == NDADDR + NIADDR
    {
      var r := Walk(dev, bshift, inode, fb);
      r.Found? && (r.block == 0 || Readable(dev, bshift, r.block))
    }

    /** The contents of block fb; a hole reads as zeros. */
    function BlockBytes(fb: nat): (s: seq<byte>)
      requires bshift >= 2 && |inode| == NDADDR + NIADDR && HasBlock(fb)
      ensures |s| == Pow2(bshift)
    {
      var b := Walk(dev, bshift, inode, fb).block;
      if b == 0 then seq(Pow2(bshift), _ => 0) else BlockAt(dev, bshift, b)
    }

    /** The byte at an offset of the file can be read. */
    predicate Available(o: nat)
      requires bshift >= 2 && |inode| == NDADDR + NIADDR
    {
      o < isize && HasBlock(Shr(o, bshift))
    }

    function ByteAt(o: nat): byte
      requires bshift >= 2 && |inode| == NDADDR + NIADDR && Available(o)
    {
      MaskBound(o, bshift);
      BlockBytes(Shr(o, bshift))[Mask(o, bshift)]
    }

    /** mount_fs and read_inode */
    constructor (dev: seq<byte>, bshift: nat, inode: seq<nat>, isize: nat)
      requires SECTOR_SHIFT <= bshift <= MAX_SHIFT && |inode| == NDADDR + NIADDR
      ensures Valid() && BufOK() && fresh(nindir) && fresh(blkno) && fresh(blk)
      ensures this.dev == dev && this.bshift == bshift && this.inode == inode && this.isize == isize
      ensures forall l :: 0 <= l < NIADDR ==> nindir[l] <= 0x4000_0000
    {
      hide Pow2, Walk, Span;
      this.dev, this.bshift, this.inode, this.isize := dev, bshift, inode, isize;
      var a := Spans(bshift - 2);
      nindir := a;
      blkno := new int[NIADDR](_ => -1);
      blk := new seq<byte>[NIADDR](_ => []);
      bufBlkno, buf, held := -1, [], false;
    }

    /** The search for the level in block_map. */
    method LevelOf(file_block: nat) returns (level: nat, f: nat)
      requires Valid() && file_block >= NDADDR
      ensures level <= NIADDR && (level == NIADDR <==> file_block >= Limit(bshift - 2))
      ensures level < NIADDR ==> f < Span(bshift - 2, level + 1) &&
                                 PathOf(bshift - 2, file_block) == Index(level, Digits(bshift - 2, level, f))
    {
      hide Span, Digits;
      level, f := 0, file_block - NDADDR;
      Firsts(bshift - 2);
      while level < NIADDR
        invariant 0 <= level <= NIADDR && f == file_block - NDADDR - First(bshift - 2, level)
        invariant level == 0 || file_block - NDADDR >= First(bshift - 2, level)
      {
        if f < nindir[level] { break; }
        f := f - nindir[level];
        level := level + 1;
      }
    }

    /** What other threads load into the cache while the lock is dropped: block numbers, by level. */
    method Others(loads: seq<nat>)
      requires Valid()
      modifies blkno, blk
      ensures Valid()
    {
      var l := 0;
      while l < NIADDR
        invariant Valid() && 0 <= l <= NIADDR
      {
        if l < |loads| && Readable(dev, bshift, loads[l]) {
          blkno[l], blk[l] := loads[l], BlockAt(dev, bshift, loads[l]);
        }
        l := l + 1;
      }
    }

    /** One level of block_map: the contents of index block b, from the cache or from the device.
        The lock is dropped for the device, and others may then change the cache. */
    method IndexBlock(level: nat, b: nat, loads: seq<nat>) returns (ok: bool, data: seq<byte>)
      requires Valid() && level < NIADDR
      modifies blkno, blk
      ensures Valid() && (ok <==> Readable(dev, bshift, b))
      ensures ok ==> data == BlockAt(dev, bshift, b)
    {
      if blkno[level] == b {
        return true, blk[level];
      }
      if !Readable(dev, bshift, b) { return false, []; }
      data := BlockAt(dev, bshift, b);
      Others(loads);
      blkno[level], blk[level] := b, data;
      ok := true;
    }

    /** The body of block_map's loop: from index block b to the next block on the way. */
    method Descend(level: nat, b: nat, f: nat, loads: seq<nat>) returns (ok: bool, b': nat, f': nat)
      requires Valid() && level < NIADDR && f < Span(bshift - 2, level + 1)
      modifies blkno, blk
      ensures Valid() && (ok <==> Readable(dev, bshift, b))
      ensures ok ==>
        var digits := Digits(bshift - 2, level, f);
        && 4 * digits[0] + 4 <= Pow2(bshift) && b' == Word(BlockAt(dev, bshift, b), digits[0])
        && if level == 0 then digits[1..] == []
           else f' < Span(bshift - 2, level) && digits[1..] == Digits(bshift - 2, level - 1, f')
    {
      hide Digits, Word, Cached, Shr, Mask;
      var data;
      ok, data := IndexBlock(level, b, loads);
      if !ok { return false, b, f; }
      DigitsBelow(bshift - 2, level, f);
      DigitsStep(bshift - 2, level, f);
      SlotsInBlock(bshift);
      var idx: nat := f;
      f' := f;
      if level > 0 {
        ShrDiv(f, Shift(bshift - 2, level));
        idx, f' := f / nindir[level - 1], f % nindir[level - 1];
      }
      b' := Word(data, idx);
    }

    /** block_map: what the uncached walk finds, whatever earlier and concurrent lookups have left in
        the cache. */
    method BlockMap(file_block: nat, loads: seq<seq<nat>>) returns (r: Lookup)
      requires Valid() && |loads| == NIADDR
      modifies blkno, blk
      ensures Valid() && r == Walk(dev, bshift, inode, file_block)
    {
      hide Span, Digits, Limit, Follow, Word, First;
      ghost var m := bshift - 2;
      LimitAbove(m);
      if file_block < NDADDR {
        return Found(inode[file_block]);
      }
      var start: nat, f: nat := LevelOf(file_block);
      if start == NIADDR { return NotInFile; }
      PathBelow(m, file_block);
      var b := inode[NDADDR + start];
      var level: int := start;
      ghost var path := Digits(m, start, f);
      while level >= 0
        invariant Valid() && -1 <= level <= start && AllBelow(path, Slots(bshift))
        invariant if level >= 0 then f < Span(m, level + 1) && path == Digits(m, level, f) else path == []
        invariant Follow(dev, bshift, b, path) == Walk(dev, bshift, inode, file_block)
        decreases level
      {
        FollowStep(dev, bshift, b, path);
        if b == 0 { break; }
        var ok: bool;
        ok, b, f := Descend(level, b, f, loads[level]);
        if !ok { return ReadError; }
        path := path[1..];
        level := level - 1;
      }
      FollowStep(dev, bshift, b, path);
      r := Found(b);
    }

    /** Getting block fb into the buffer. When the device fails, the storage of the buffer has been
        given back but the block it held is still taken to be there. Apart from that, the buffer is
        in order afterwards if it was before. */
    method LoadBuf(fb: nat, loads: seq<seq<nat>>) returns (rc: Rc)
      requires Valid() && BufWf() && |loads| == NIADDR
      modifies this`bufBlkno, this`buf, this`held, blkno, blk
      ensures Valid() && BufWf()
      ensures rc == Stale <==> old(Freed(fb))
      ensures rc == NotThere <==> Walk(dev, bshift, inode, fb) == NotInFile
      ensures rc == Fine <==> HasBlock(fb) && !old(Freed(fb))
      ensures rc == Fine ==> bufBlkno == fb && held
      ensures BufOK() <==>
        rc == Fine ||
        if rc == IoError && Walk(dev, bshift, inode, fb) != ReadError then old(bufBlkno) == -1 else old(BufOK())
      ensures rc != Fine ==> bufBlkno == old(bufBlkno)
    {
      hide Walk, Cached, Readable, BlockAt, Span, Pow2;
      if fb == bufBlkno { return if held then Fine else Stale; }
      var r := BlockMap(fb, loads);
      if r == NotInFile { return NotThere; }
      if r == ReadError { return IoError; }
      held := false;
      if r.block == 0 {
        buf, held := seq(Pow2(bshift), _ => 0), true;
      } else if Readable(dev, bshift, r.block) {
        buf, held := BlockAt(dev, bshift, r.block), true;
      } else {
        return IoError;
      }
      bufBlkno := fb;
      rc := Fine;
    }

    /** buf_read_file: the rest of the block the offset is in, up to the end of the file. */
    method BufRead(offset: nat, loads: seq<seq<nat>>) returns (rc: Rc, data: seq<byte>)
      requires Valid() && BufWf() && |loads| == NIADDR
      modifies this`bufBlkno, this`buf, this`held, blkno, blk
      ensures Valid() && BufWf()
      ensures rc == Stale <==> offset < isize && old(Freed(Shr(offset, bshift)))
      ensures rc == NotThere <==> offset >= isize || Walk(dev, bshift, inode, Shr(offset, bshift)) == NotInFile
      ensures rc == Fine <==> Available(offset) && !old(Freed(Shr(offset, bshift)))
      ensures rc != Fine && rc != Stale ==> !Available(offset)
      ensures rc == Fine ==> Reads(offset, data) && |data| > 0 && bufBlkno == Shr(offset, bshift)
      ensures rc == Fine ==> offset + |data| == isize || Mask(offset, bshift) + |data| == Pow2(bshift)
      ensures BufOK() <==>
        rc == Fine ||
        if rc == IoError && Walk(dev, bshift, inode, Shr(offset, bshift)) != ReadError then old(bufBlkno) == -1
        else old(BufOK())
      ensures rc != Fine ==> bufBlkno == old(bufBlkno)
    {
      hide HasBlock, BlockBytes, Pow2, Mask, Shr, Cached, Span, Reads, Walk;
      if offset >= isize { return NotThere, []; }
      var off: nat, fb: nat := BlockOffset(offset, bshift);
      rc := LoadBuf(fb, loads);
      if rc != Fine { return rc, []; }
      var n := Pow2(bshift) - off;
      if n > isize - offset { n := isize - offset; }
      data := buf[off..off + n];
      InBlock(offset, n);
    }

    lemma {:induction false} InBlock(offset: nat, n: nat)
      requires bshift >= 2 && |inode| == NDADDR + NIADDR && Available(offset)
      requires offset + n <= isize && Mask(offset, bshift) + n <= Pow2(bshift)
      ensures Reads(offset, BlockBytes(Shr(offset, bshift))[Mask(offset, bshift)..Mask(offset, bshift) + n])
    {
      hide HasBlock, BlockBytes, Pow2, Mask, Shr;
      var off := Mask(offset, bshift);
      var data := BlockBytes(Shr(offset, bshift))[off..off + n];
      forall i | 0 <= i < n ensures ReadsAt(offset + i, data[i]) {
        SameBlock(offset, i, bshift);
      }
    }

    /** data is what the file holds from offset on. */
    predicate Reads(offset: nat, data: seq<byte>)
      requires bshift >= 2 && |inode| == NDADDR + NIADDR
    {
      forall i :: 0 <= i < |data| ==> ReadsAt(offset + i, data[i])
    }

    predicate ReadsAt(o: nat, x: byte)
      requires bshift >= 2 && |inode| == NDADDR + NIADDR
    {
      Available(o) && x == ByteAt(o)
    }

    /** ext2_read_file: it succeeds exactly when every byte asked for is in the file and it does not
        begin with a buffer whose storage has been given back; when it fails it has copied the bytes
        before the first that is not in the file. */
    method ReadFile(offset: nat, size: nat, loads: seq<seq<nat>>) returns (rc: Rc, data: seq<byte>)
      requires Valid() && BufWf() && |loads| == NIADDR
      modifies this`bufBlkno, this`buf, this`held, blkno, blk
      ensures Valid() && BufWf() && (rc != IoError && (old(BufOK()) || |data| > 0) ==> BufOK())
      ensures Reads(offset, data) && |data| <= size
      ensures rc == Fine <==> |data| == size
      ensures rc == Stale <==> size > 0 && offset < isize && old(Freed(Shr(offset, bshift)))
      ensures rc == Stale ==> data == []
      ensures rc != Fine && rc != Stale ==> !Available(offset + |data|)
    {
      hide Reads, Available, ByteAt, Pow2, Mask, Shr, Cached, Span, HasBlock, BlockBytes, Walk;
      data := [];
      ReadsNone(offset);
      while |data| < size
        invariant Valid() && BufWf() && |data| <= size && Reads(offset, data)
        invariant if data == [] then bufBlkno == old(bufBlkno) && held == old(held) && (BufOK() <==> old(BufOK()))
                  else BufOK() && (offset < isize ==> !old(Freed(Shr(offset, bshift))))
        decreases size - |data|
      {
        var piece;
        rc, piece := BufRead(offset + |data|, loads);
        if rc != Fine { return; }
        var csize := size - |data|;
        if csize > |piece| { csize := |piece|; }
        ReadsOn(offset, data, piece, csize);
        data := data + piece[..csize];
      }
      rc := Fine;
    }

    lemma {:induction false} ReadsNone(offset: nat)
      requires bshift >= 2 && |inode| == NDADDR + NIADDR
      ensures Reads(offset, [])
    {
    }

    lemma {:induction false} ReadsOn(offset: nat, data: seq<byte>, piece: seq<byte>, n: nat)
      requires bshift >= 2 && |inode| == NDADDR + NIADDR && n <= |piece|
      requires Reads(offset, data) && Reads(offset + |data|, piece)
      ensures Reads(offset, data + piece[..n])
    {
      hide ReadsAt;
      var all := data + piece[..n];
      forall i | 0 <= i < |all| ensures ReadsAt(offset + i, all[i]) {
        if i >= |data| {
          var j := i - |data|;
          assert ReadsAt(offset + |data| + j, piece[j]);
        }
      }
    }

    /** Every whole block of the file can be looked up. */
    predicate AllFound(n: nat)
      requires bshift >= 2 && |inode| == NDADDR + NIADDR
    {
      forall i :: 0 <= i < n ==> Walk(dev, bshift, inode, i).Found?
    }

    /** ext2_add_file_direct for a file: its whole blocks are added to the array, each where block_map
        finds it, or the array is left alone. */
    method AddFileDirect(fd: Direct, loads: seq<seq<nat>>) returns (rc: AddRc, blocks: seq<nat>)
      requires Valid() && |loads| == NIADDR
      modifies this`bufBlkno, this`buf, this`held, blkno, blk
      ensures Valid()
      ensures rc == InvalidFs <==> fd.bshift != bshift
      ensures rc == Added <==> fd.bshift == bshift && AllFound(Shr(isize, bshift))
      ensures rc != Added ==> blocks == fd.blocks
      ensures rc == Added ==> |blocks| == |fd.blocks| + Shr(isize, bshift) && fd.blocks <= blocks
      ensures rc == Added ==> forall i :: 0 <= i < Shr(isize, bshift) ==>
        Walk(dev, bshift, inode, i) == Found(blocks[|fd.blocks| + i])
    {
      hide Walk, Shr, Mask, Cached, Span;
      if fd.bshift != bshift { return InvalidFs, fd.blocks; }
      var off, num := BlockOffset(isize, bshift);
      var found: seq<nat> := [];
      while |found| < num
        invariant Valid() && |found| <= num
        invariant forall i :: 0 <= i < |found| ==> Walk(dev, bshift, inode, i) == Found(found[i])
        decreases num - |found|
      {
        var r := BlockMap(|found|, loads);
        if !r.Found? { return LookupFailed, fd.blocks; }
        found := found + [r.block];
      }
      rc, blocks := Added, fd.blocks + found;
      FreeBuffers();
    }

    /** free_file_buffers */
    method FreeBuffers()
      requires Valid()
      modifies this`bufBlkno, this`buf, this`held, blkno, blk
      ensures Valid() && BufOK()
    {
      hide Span;
      var l := 0;
      while l < NIADDR
        invariant Valid() && 0 <= l <= NIADDR
      {
        blkno[l], blk[l] := -1, [];
        l := l + 1;
      }
      bufBlkno, buf, held := -1, [], false;
    }

    /** The whole blocks of the file are in the array, after base others. */
    predicate Listed(fd: Direct, base: nat)
      requires bshift >= 2 && |inode| == NDADDR + NIADDR
    {
      && fd.bshift == bshift && !fd.raw && base + Shr(isize, bshift) <= |fd.blocks|
      && forall k: nat :: k < Shr(isize, bshift) ==> Walk(dev, bshift, inode, k) == Found(fd.blocks[base + k])
    }

    /** The array and the lookup agree on every byte of the file that is in a whole block and not in a
        hole. Where the lookup finds a hole it makes zeros, and the array has a hole. A last block that
        is not whole comes after the part of the array that is the file's. */
    lemma {:induction false} DirectAgrees(fd: Direct, base: nat, o: nat)
      requires bshift >= 2 && |inode| == NDADDR + NIADDR && Listed(fd, base) && fd.OnDevice(dev) && o < isize
      ensures var at, k := Shl(base, bshift) + o, Shr(o, bshift);
        if k < Shr(isize, bshift) then
          && Available(o) && at < |fd.Contents(dev, |fd.blocks|)| && Shr(at, bshift) == base + k
          && (fd.Hole(base + k) <==> Walk(dev, bshift, inode, k) == Found(0))
          && ByteAt(o) == if fd.Hole(base + k) then 0 else fd.Contents(dev, |fd.blocks|)[at]
        else at >= Shl(base + Shr(isize, bshift), bshift)
    {
      hide Walk, Shl, Shr, Mask, Pow2, Direct.Holds, Direct.Contents;
      var k, n := Shr(o, bshift), Shr(isize, bshift);
      Shifted(base, o, bshift);
      if k < n {
        InArray(fd, base, o);
      } else {
        Split(o, bshift);
        ShlMono(n, k, bshift);
        ShlAdd(base, n, bshift);
      }
    }

    lemma {:induction false} InArray(fd: Direct, base: nat, o: nat)
      requires bshift >= 2 && |inode| == NDADDR + NIADDR && Listed(fd, base) && fd.OnDevice(dev) && o < isize
      requires Shr(o, bshift) < Shr(isize, bshift)
      ensures var at, k := Shl(base, bshift) + o, Shr(o, bshift);
        && Available(o) && at < |fd.Contents(dev, |fd.blocks|)|
        && ByteAt(o) == if fd.Hole(base + k) then 0 else fd.Contents(dev, |fd.blocks|)[at]
    {
      hide Walk, Shl, Shr, Mask, Pow2, Direct.Holds, Direct.Contents;
      var store, k, off := fd.Contents(dev, |fd.blocks|), Shr(o, bshift), Mask(o, bshift);
      var b := fd.blocks[base + k];
      assert Walk(dev, bshift, inode, k) == Found(b) && Readable(dev, bshift, b);
      fd.HoldsContents(dev);
      MaskBound(o, bshift);
      Shifted(base, o, bshift);
      fd.PieceOnDevice(dev, store, Shl(base, bshift) + o, 1);
      OneOf(store, Shl(base, bshift) + o, dev, Shl(b, bshift) + off);
      BlockEnd(b, bshift);
    }
  }

  lemma {:induction false} OneOf(s: seq<byte>, i: nat, t: seq<byte>, j: nat)
    requires i < |s| && j < |t| && s[i..i + 1] == t[j..j + 1]
    ensures s[i] == t[j]
  {
    assert s[i] == s[i..i + 1][0];
  }

  /** Whole blocks before an offset. */
  lemma {:induction false} Shifted(base: nat, o: nat, s: nat)
    ensures Shr(Shl(base, s) + o, s) == base + Shr(o, s) && Mask(Shl(base, s) + o, s) == Mask(o, s)
  {
    hide Shl, Shr, Mask, Pow2;
    Split(o, s);
    MaskBound(o, s);
    ShlAdd(base, Shr(o, s), s);
    SplitUnique(base + Shr(o, s), Mask(o, s), s);
  }

  /** A file with blocks of 512 bytes, the first on the device and the second not. */
  function BrokenInode(): seq<nat>
  {
    [1, 9] + seq(13, _ => 0)
  }

  function SmallDevice(): seq<byte>
  {
    seq(1024, _ => 0)
  }

  /** Reading the first block, then the second, then the first again: the last read succeeds, with
      the address of storage that the failed one has given back. */
  method FreedRead(loads: seq<seq<nat>>) returns (first: Rc, second: Rc, third: Rc)
    requires |loads| == NIADDR
    ensures first == Fine && second == IoError && third == Stale
  {
    hide Pow2, Walk, Span, Shr, Shl, Mask, Cached, Limit, BrokenInode, SmallDevice;
    BrokenFile();
    var f := new File(SmallDevice(), 9, BrokenInode(), 1024);
    var data;
    first, data := f.BufRead(0, loads);
    second, data := f.BufRead(512, loads);
    third, data := f.BufRead(0, loads);
  }

  lemma {:induction false} BrokenFile()
    ensures Shr(0, 9) == 0 && Shr(512, 9) == 1 && |BrokenInode()| == NDADDR + NIADDR
    ensures Walk(SmallDevice(), 9, BrokenInode(), 0) == Found(1) && Walk(SmallDevice(), 9, BrokenInode(), 1) == Found(9)
    ensures Readable(SmallDevice(), 9, 1) && !Readable(SmallDevice(), 9, 9)
  {
    hide Limit;
    LimitAbove(7);
    assert Shr(32, 5) == 1;
    assert Shl(2, 5) == 64 && Shl(10, 5) == 320;
    ShlShl(2, 5, 4);
    ShlShl(10, 5, 4);
    assert Shl(64, 4) == 1024 && Shl(320, 4) == 5120;
  }

  datatype AddRc = Added | InvalidFs | LookupFailed

  /** blkoff and lblkno */
  method BlockOffset(offset: nat, s: nat) returns (off: nat, fb: nat)
    ensures off == Mask(offset, s) < Pow2(s) && fb == Shr(offset, s)
  {
    ShrDiv(offset, s);
    MaskBound(offset, s);
    off, fb := offset % Pow2(s), offset / Pow2(s);
  }

  /** 0, FS_NOT_IN_FILE, an error of the device, and 0 with the address of storage that has been given
      back. */
  datatype Rc = Fine | NotThere | IoError | Stale

  lemma {:induction false} SameBlock(o: nat, i: nat, s: nat)
    requires Mask(o, s) + i < Pow2(s)
    ensures Shr(o + i, s) == Shr(o, s) && Mask(o + i, s) == Mask(o, s) + i
  {
    Split(o, s);
    SplitUnique(Shr(o, s), Mask(o, s) + i, s);
  }

  lemma {:induction false} SpanZero(m: nat)
    ensures Span(m, 0) == 1
  {
  }

  /** Block sizes up to 4096 keep the spans within 32 bits. */
  lemma {:induction false} SpanNext(m: nat, l: nat)
    requires m <= MAX_SHIFT - 2 && l < NIADDR
    ensures Span(m, l + 1) == Span(m, l) * Pow2(m) && Span(m, l + 1) <= 0x4000_0000
  {
    hide Pow2;
    ShlPow2(Shift(m, l), m);
    ShlMul(Pow2(Shift(m, l)), m);
    assert Shift(m, 1) == m;
    assert Shift(m, 2) == m + m;
    assert Shift(m, l + 1) <= 30;
    Pow2Mono(Shift(m, l + 1), 30);
    Pow2Thirty();
  }

  lemma {:induction false} Pow2Thirty()
    ensures Pow2(30) == 0x4000_0000
  {
    assert Pow2(8) == 0x100;
    assert Pow2(16) == 0x1_0000;
    assert Pow2(24) == 0x100_0000;
  }

  lemma {:induction false} LimitAbove(m: nat)
    ensures Limit(m) > NDADDR
  {
    Firsts(m);
  }

  lemma {:induction false} FollowStep(dev: seq<byte>, s: nat, b: nat, digits: seq<nat>)
    requires s >= 2 && AllBelow(digits, Slots(s))
    ensures b == 0 || digits == [] ==> Follow(dev, s, b, digits) == Found(b)
    ensures b != 0 && digits != [] && !Readable(dev, s, b) ==> Follow(dev, s, b, digits) == ReadError
    ensures b != 0 && digits != [] && Readable(dev, s, b) ==>
      4 * digits[0] + 4 <= Pow2(s) && AllBelow(digits[1..], Slots(s)) &&
      Follow(dev, s, b, digits) == Follow(dev, s, Word(BlockAt(dev, s, b), digits[0]), digits[1..])
  {
    SlotsInBlock(s);
  }

  lemma {:induction false} DigitsStep(m: nat, l: nat, f: nat)
    ensures l == 0 ==> Digits(m, l, f) == [f]
    ensures l > 0 ==> Mask(f, Shift(m, l)) < Span(m, l)
    ensures l > 0 ==> Digits(m, l, f) == [Shr(f, Shift(m, l))] + Digits(m, l - 1, Mask(f, Shift(m, l)))
  {
    MaskBound(f, Shift(m, l));
  }
}
