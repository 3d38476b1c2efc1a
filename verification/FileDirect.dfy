/** File-direct paging of kernel/generic/bootstrap/ext2_file_io.c: a file as an array of disk block
    addresses, read and written by device sectors. */
module FileDirect {
  import opened Bits

  const SECTOR_SHIFT: nat := 9          // DEV_BSIZE is 512

  function Min(a: nat, b: nat): nat
  {
    if a < b then a else b
  }

  function Splice<T>(s: seq<T>, at: nat, data: seq<T>): seq<T>
    requires at + |data| <= |s|
  {
    s[..at] + data + s[at + |data|..]
  }

  /** struct file_direct. A raw device has no block array: its blocks are its own. */
  datatype Direct = Direct(raw: bool, blocks: seq<nat>, bshift: nat) {

    function Size(): nat
    {
      |blocks|
    }

    /** fd_bsize */
    function Bsize(): (b: nat)
      ensures b >= 1
    {
      Pow2(bshift)
    }

    predicate Hole(k: nat)
      requires k < |blocks|
    {
      !raw && blocks[k] == 0
    }

    /** The blocks of the file are on the device. */
    predicate OnDevice(dev: seq<byte>)
    {
      && bshift >= SECTOR_SHIFT
      && (forall k :: 0 <= k < |blocks| ==> Shl(blocks[k] + 1, bshift) <= |dev|)
      && (forall k :: 0 <= k < |blocks| && raw ==> blocks[k] == k)
    }

    /** But for holes, no two blocks are the same. */
    predicate Distinct()
    {
      forall j, k :: 0 <= j < k < |blocks| ==> blocks[j] != blocks[k] || Hole(j)
    }

    predicate Fits(dev: seq<byte>)
    {
      OnDevice(dev) && Distinct()
    }

    /** The contents of block k. */
    function Block(dev: seq<byte>, k: nat): (s: seq<byte>)
      requires k < |blocks| && Shl(blocks[k] + 1, bshift) <= |dev|
      ensures |s| == Bsize()
    {
      BlockEnd(blocks[k], bshift);
      dev[Shl(blocks[k], bshift)..Shl(blocks[k] + 1, bshift)]
    }

    /** store is the contents of the file, block after block. */
    predicate Holds(dev: seq<byte>, store: seq<byte>)
    {
      && OnDevice(dev) && |store| == Shl(|blocks|, bshift)
      && forall k :: 0 <= k < |blocks| ==> HoldsBlock(dev, store, k)
    }

    predicate HoldsBlock(dev: seq<byte>, store: seq<byte>, k: nat)
    {
      && k < |blocks| && Shl(blocks[k] + 1, bshift) <= |dev| && Shl(k, bshift) <= Shl(k + 1, bshift) <= |store|
      && store[Shl(k, bshift)..Shl(k + 1, bshift)] == Block(dev, k)
    }

    /** The contents of the first n blocks. */
    function Contents(dev: seq<byte>, n: nat): (s: seq<byte>)
      requires OnDevice(dev) && n <= |blocks|
      ensures |s| == Shl(n, bshift)
    {
      if n == 0 then
        ShlZero(bshift);
        []
      else
        BlockEnd(n - 1, bshift);
        Contents(dev, n - 1) + Block(dev, n - 1)
    }

    lemma {:induction false} ContentsBlock(dev: seq<byte>, n: nat, k: nat)
      requires OnDevice(dev) && k < n <= |blocks|
      ensures Shl(k, bshift) <= Shl(k + 1, bshift) <= Shl(n, bshift)
      ensures Contents(dev, n)[Shl(k, bshift)..Shl(k + 1, bshift)] == Block(dev, k)
    {
      hide Shl, Block;
      ShlMono(k, k + 1, bshift);
      ShlMono(k + 1, n, bshift);
      var s, b := Contents(dev, n - 1), Block(dev, n - 1);
      BlockEnd(n - 1, bshift);
      assert Contents(dev, n) == s + b;
      if k < n - 1 {
        ContentsBlock(dev, n - 1, k);
        InFirst(s, b, Shl(k, bshift), Shl(k + 1, bshift));
      } else {
        assert (s + b)[|s|..|s| + |b|] == b;
      }
    }

    /** The contents of the whole file. */
    lemma {:induction false} HoldsContents(dev: seq<byte>)
      requires OnDevice(dev)
      ensures Holds(dev, Contents(dev, |blocks|))
    {
      forall k | 0 <= k < |blocks| ensures HoldsBlock(dev, Contents(dev, |blocks|), k) {
        ContentsBlock(dev, |blocks|, k);
      }
    }

    lemma {:induction false} BlockFacts(dev: seq<byte>, store: seq<byte>, k: nat)
      requires Holds(dev, store) && k < |blocks|
      ensures bshift >= SECTOR_SHIFT && (raw ==> blocks[k] == k)
    {
    }

    lemma {:induction false} StoreSize(dev: seq<byte>, store: seq<byte>)
      requires Holds(dev, store)
      ensures |store| == Shl(Size(), bshift)
    {
    }

    /** Where in the file an offset is. */
    lemma {:induction false} Locate(offset: nat, n: nat)
      requires Mask(offset, bshift) + n <= Bsize()
      ensures var k, off := Shr(offset, bshift), Mask(offset, bshift);
              offset == Shl(k, bshift) + off && offset + n <= Shl(k + 1, bshift)
    {
      Split(offset, bshift);
      BlockEnd(Shr(offset, bshift), bshift);
    }

    /** A piece that stays within one block is at the same place in that block on the device. */
    lemma {:induction false} PieceOnDevice(dev: seq<byte>, store: seq<byte>, offset: nat, n: nat)
      requires Holds(dev, store) && Shr(offset, bshift) < |blocks| && Mask(offset, bshift) + n <= Bsize()
      ensures var at := Shl(blocks[Shr(offset, bshift)], bshift) + Mask(offset, bshift);
              at + n <= |dev| && offset + n <= |store| && store[offset..offset + n] == dev[at..at + n]
    {
      hide Shl, Shr, Mask, Pow2;
      var k, off := Shr(offset, bshift), Mask(offset, bshift);
      Locate(offset, n);
      BlockEnd(k, bshift);
      BlockEnd(blocks[k], bshift);
      assert HoldsBlock(dev, store, k);
      SliceSlice(store, Shl(k, bshift), Shl(k + 1, bshift), off, n);
      SliceSlice(dev, Shl(blocks[k], bshift), Shl(blocks[k] + 1, bshift), off, n);
    }

    /** Writing such a piece to the device writes it to the file and changes no other block. */
    lemma {:induction false} WriteOnDevice(dev: seq<byte>, store: seq<byte>, offset: nat, data: seq<byte>)
      requires Holds(dev, store) && Distinct() && Shr(offset, bshift) < |blocks|
      requires Mask(offset, bshift) + |data| <= Bsize()
      requires !Hole(Shr(offset, bshift))
      ensures var at := Shl(blocks[Shr(offset, bshift)], bshift) + Mask(offset, bshift);
              at + |data| <= |dev| && offset + |data| <= |store| &&
              Holds(Splice(dev, at, data), Splice(store, offset, data))
    {
      hide Shl, Shr, Mask, Pow2, HoldsBlock;
      var k, off := Shr(offset, bshift), Mask(offset, bshift);
      var at := Shl(blocks[k], bshift) + off;
      PieceOnDevice(dev, store, offset, |data|);
      ShlMono(k + 1, |blocks|, bshift);
      var dev', store' := Splice(dev, at, data), Splice(store, offset, data);
      forall j | 0 <= j < |blocks| ensures HoldsBlock(dev', store', j) {
        assert HoldsBlock(dev, store, j);
        if j == k {
          SameBlockWritten(dev, store, k, offset, data);
        } else {
          OtherBlockWritten(dev, store, k, offset, data, j);
        }
      }
    }

    lemma {:induction false} SameBlockWritten(dev: seq<byte>, store: seq<byte>, k: nat, offset: nat, data: seq<byte>)
      requires HoldsBlock(dev, store, k) && k == Shr(offset, bshift) && Mask(offset, bshift) + |data| <= Bsize()
      ensures var at := Shl(blocks[k], bshift) + Mask(offset, bshift);
              at + |data| <= |dev| && offset + |data| <= |store| &&
              HoldsBlock(Splice(dev, at, data), Splice(store, offset, data), k)
    {
      hide Shl, Shr, Mask, Pow2;
      Locate(offset, |data|);
      BlockEnd(k, bshift);
      BlockEnd(blocks[k], bshift);
      SpliceSlice(store, Shl(k, bshift), Shl(k + 1, bshift), Mask(offset, bshift), data);
      SpliceSlice(dev, Shl(blocks[k], bshift), Shl(blocks[k] + 1, bshift), Mask(offset, bshift), data);
    }

    lemma {:induction false} OtherBlockWritten(dev: seq<byte>, store: seq<byte>, k: nat, offset: nat,
                                               data: seq<byte>, j: nat)
      requires k < |blocks| && Shl(blocks[k] + 1, bshift) <= |dev| && Shl(k + 1, bshift) <= |store|
      requires k == Shr(offset, bshift) && Mask(offset, bshift) + |data| <= Bsize()
      requires HoldsBlock(dev, store, j) && j != k && blocks[j] != blocks[k]
      ensures var at := Shl(blocks[k], bshift) + Mask(offset, bshift);
              at + |data| <= |dev| && offset + |data| <= |store| &&
              HoldsBlock(Splice(dev, at, data), Splice(store, offset, data), j)
    {
      hide Shl, Shr, Mask, Pow2;
      Locate(offset, |data|);
      BlocksApart(j, k, bshift);
      BlocksApart(blocks[j], blocks[k], bshift);
      SpliceElsewhere(store, offset, data, Shl(j, bshift), Shl(j + 1, bshift));
      var at := Shl(blocks[k], bshift) + Mask(offset, bshift);
      SpliceElsewhere(dev, at, data, Shl(blocks[j], bshift), Shl(blocks[j] + 1, bshift));
    }
  }

  lemma {:induction false} SpliceSlice<T>(s: seq<T>, a: nat, b: nat, off: nat, data: seq<T>)
    requires a <= b <= |s| && off + |data| <= b - a
    ensures Splice(s, a + off, data)[a..b] == Splice(s[a..b], off, data)
  {
    var t, u := Splice(s, a + off, data)[a..b], Splice(s[a..b], off, data);
    assert forall i :: 0 <= i < b - a ==> t[i] == u[i];
  }

  lemma {:induction false} SpliceElsewhere<T>(s: seq<T>, at: nat, data: seq<T>, a: nat, b: nat)
    requires at + |data| <= |s| && a <= b <= |s| && (b <= at || at + |data| <= a)
    ensures Splice(s, at, data)[a..b] == s[a..b]
  {
    var t, u := Splice(s, at, data)[a..b], s[a..b];
    assert forall i :: 0 <= i < b - a ==> t[i] == u[i];
  }

  lemma {:induction false} InFirst<T>(s: seq<T>, t: seq<T>, a: nat, b: nat)
    requires a <= b <= |s|
    ensures (s + t)[a..b] == s[a..b]
  {
  }

  lemma {:induction false} SliceSlice<T>(s: seq<T>, a: nat, b: nat, off: nat, n: nat)
    requires a <= b <= |s| && off + n <= b - a
    ensures s[a..b][off..off + n] == s[a + off..a + off + n]
  {
    var t, u := s[a..b][off..off + n], s[a + off..a + off + n];
    assert forall i :: 0 <= i < n ==> t[i] == u[i];
  }

  lemma {:induction false} BlocksApart(j: nat, k: nat, s: nat)
    requires j != k
    ensures Shl(j + 1, s) <= Shl(k, s) || Shl(k + 1, s) <= Shl(j, s)
    ensures Shl(j + 1, s) == Shl(j, s) + Pow2(s) && Shl(k + 1, s) == Shl(k, s) + Pow2(s)
  {
    BlockEnd(j, s);
    BlockEnd(k, s);
    if j < k { ShlMono(j + 1, k, s); } else { ShlMono(k + 1, j, s); }
  }

  lemma {:induction false} BlockEnd(k: nat, s: nat)
    ensures Shl(k + 1, s) == Shl(k, s) + Pow2(s)
  {
    ShlAdd(k, 1, s);
    ShlPow2(0, s);
  }

  // ----- reading and writing by sectors -----

  /** FS_NOT_IN_FILE, or an error of the device for sectors it does not have. */
  datatype Status = Success | OutsideFile | DeviceError

  /** The sector an offset within a block is in: fdir_fsbtodb and btodb. */
  function Sector(fd: Direct, disk_block: nat, off: nat): nat
    requires fd.bshift >= SECTOR_SHIFT
  {
    Shl(disk_block, fd.bshift - SECTOR_SHIFT) + Shr(off, SECTOR_SHIFT)
  }

  lemma {:induction false} SectorStart(fd: Direct, disk_block: nat, off: nat)
    requires fd.bshift >= SECTOR_SHIFT && Mask(off, SECTOR_SHIFT) == 0
    ensures Shl(Sector(fd, disk_block, off), SECTOR_SHIFT) == Shl(disk_block, fd.bshift) + off
  {
    hide Shl, Shr, Mask;
    ShlAdd(Shl(disk_block, fd.bshift - SECTOR_SHIFT), Shr(off, SECTOR_SHIFT), SECTOR_SHIFT);
    ShlShl(disk_block, fd.bshift - SECTOR_SHIFT, SECTOR_SHIFT);
    Split(off, SECTOR_SHIFT);
  }

  /** The offset in a block of a sector-aligned offset is sector-aligned. */
  lemma {:induction false} MaskMask(x: nat, n: nat, m: nat)
    requires m <= n
    ensures Mask(Mask(x, n), m) == Mask(x, m)
  {
    if m > 0 {
      assert Mask(x, n) == x % 2 + 2 * Mask(x / 2, n - 1);
      MaskMask(x / 2, n - 1, m - 1);
    }
  }

  /** Where on the device the byte at an offset of the file is. */
  function Address(fd: Direct, offset: nat): nat
    requires Shr(offset, fd.bshift) < fd.Size()
  {
    Shl(fd.blocks[Shr(offset, fd.bshift)], fd.bshift) + Mask(offset, fd.bshift)
  }

  /** A piece of n bytes does not leave the block it starts in. */
  predicate WithinBlock(fd: Direct, offset: nat, n: nat)
  {
    Mask(offset, fd.bshift) + n <= fd.Bsize()
  }

  predicate Outside(fd: Direct, offset: nat)
  {
    Shr(offset, fd.bshift) >= fd.Size() || fd.Hole(Shr(offset, fd.bshift))
  }

  /** ext2_page_read_file_direct: at most the size of a block, from the device. What it reads is in
      the file as long as it stays in the block. */
  method PageRead(fd: Direct, dev: seq<byte>, offset: nat, size: nat, ghost store: seq<byte>)
      returns (status: Status, data: seq<byte>)
    requires fd.Holds(dev, store) && Mask(offset, SECTOR_SHIFT) == 0
    ensures status == OutsideFile <==> Outside(fd, offset)
    ensures status == DeviceError <==> !Outside(fd, offset) && Address(fd, offset) + Min(size, fd.Bsize()) > |dev|
    ensures status == Success ==> data == dev[Address(fd, offset)..Address(fd, offset) + Min(size, fd.Bsize())]
    ensures !Outside(fd, offset) && WithinBlock(fd, offset, Min(size, fd.Bsize())) ==>
      && status == Success && offset + Min(size, fd.Bsize()) <= |store|
      && data == store[offset..offset + Min(size, fd.Bsize())]
  {
    hide Shl, Shr, Mask, Pow2, Direct.Holds, Direct.OnDevice, Direct.Distinct;
    InFile(fd, offset);
    if offset >= Shl(fd.Size(), fd.bshift) { return OutsideFile, []; }
    var off, file_block := And(offset, fd.Bsize() - 1), Shr(offset, fd.bshift);
    AndMask(offset, fd.bshift);
    fd.BlockFacts(dev, store, file_block);
    var disk_block := if fd.raw then file_block else fd.blocks[file_block];
    if !fd.raw && disk_block == 0 { return OutsideFile, []; }
    var n := if size > fd.Bsize() then fd.Bsize() else size;
    MaskMask(offset, fd.bshift, SECTOR_SHIFT);
    SectorStart(fd, disk_block, off);
    if WithinBlock(fd, offset, n) { fd.PieceOnDevice(dev, store, offset, n); }
    var at := Shl(Sector(fd, disk_block, off), SECTOR_SHIFT);
    if at + n > |dev| { return DeviceError, []; }
    status, data := Success, dev[at..at + n];
  }

  /** ext2_page_write_file_direct */
  method PageWrite(fd: Direct, dev: seq<byte>, offset: nat, data: seq<byte>, ghost store: seq<byte>)
      returns (status: Status, n: nat, dev': seq<byte>)
    requires fd.Holds(dev, store) && Mask(offset, SECTOR_SHIFT) == 0
    ensures status == OutsideFile <==> Outside(fd, offset)
    ensures status == DeviceError <==> !Outside(fd, offset) && Address(fd, offset) + Min(|data|, fd.Bsize()) > |dev|
    ensures status != Success ==> dev' == dev
    ensures status == Success ==> n == Min(|data|, fd.Bsize()) && dev' == Splice(dev, Address(fd, offset), data[..n])
    ensures !Outside(fd, offset) && WithinBlock(fd, offset, Min(|data|, fd.Bsize())) ==>
      status == Success && offset + n <= |store| && (fd.Distinct() ==> fd.Holds(dev', Splice(store, offset, data[..n])))
  {
    hide Shl, Shr, Mask, Pow2, Direct.Holds, Direct.OnDevice, Direct.Distinct;
    InFile(fd, offset);
    if offset >= Shl(fd.Size(), fd.bshift) { return OutsideFile, 0, dev; }
    var off, file_block := And(offset, fd.Bsize() - 1), Shr(offset, fd.bshift);
    AndMask(offset, fd.bshift);
    fd.BlockFacts(dev, store, file_block);
    var disk_block := if fd.raw then file_block else fd.blocks[file_block];
    if !fd.raw && disk_block == 0 { return OutsideFile, 0, dev; }
    n := if |data| > fd.Bsize() then fd.Bsize() else |data|;
    MaskMask(offset, fd.bshift, SECTOR_SHIFT);
    SectorStart(fd, disk_block, off);
    if WithinBlock(fd, offset, n) {
      fd.PieceOnDevice(dev, store, offset, n);
      if fd.Distinct() { fd.WriteOnDevice(dev, store, offset, data[..n]); }
    }
    var at := Shl(Sector(fd, disk_block, off), SECTOR_SHIFT);
    if at + n > |dev| { return DeviceError, n, dev; }
    status, dev' := Success, Splice(dev, at, data[..n]);
  }

  lemma {:induction false} InFile(fd: Direct, offset: nat)
    ensures offset < Shl(fd.Size(), fd.bshift) <==> Shr(offset, fd.bshift) < fd.Size()
  {
    hide Shl, Shr, Mask, Pow2;
    Split(offset, fd.bshift);
    MaskBound(offset, fd.bshift);
    BlockEnd(Shr(offset, fd.bshift), fd.bshift);
    ShlMono(Shr(offset, fd.bshift) + 1, fd.Size(), fd.bshift);
    ShlMono(fd.Size(), Shr(offset, fd.bshift), fd.bshift);
  }
}
