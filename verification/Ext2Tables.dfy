/** A device made of blocks, some of which hold tables of block numbers: what the block map finds there,
    and what a file with such index blocks holds. */
module Ext2Tables {
  import opened Bits
  import opened FileDirect
  import opened Ext2

  const WORD: nat := 0x1_0000_0000

  // ----- tables of numbers as bytes -----

  /** A 32-bit number, least byte first. */
  function Four(v: nat): (s: seq<byte>)
    ensures |s| == 4
  {
    [v % 256, v / 256 % 256, v / 256 / 256 % 256, v / 256 / 256 / 256 % 256]
  }

  function Encode(table: seq<nat>): (s: seq<byte>)
    ensures |s| == 4 * |table|
  {
    if table == [] then [] else Encode(table[..|table| - 1]) + Four(table[|table| - 1])
  }

  lemma {:induction false} FourBack(v: nat)
    requires v < WORD
    ensures v == v % 256 + 256 * (v / 256 % 256) + 65536 * (v / 256 / 256 % 256) +
                 16777216 * (v / 256 / 256 / 256 % 256)
  {
    var a, b, c := v / 256, v / 256 / 256, v / 256 / 256 / 256;
    assert c < 256;
  }

  /** Entry i of a block that holds a table is entry i of the table. */
  lemma {:induction false} WordBack(table: seq<nat>, i: nat)
    requires i < |table| && forall k :: 0 <= k < |table| ==> table[k] < WORD
    ensures Word(Encode(table), i) == table[i]
  {
    var n := |table| - 1;
    if i < n {
      WordBack(table[..n], i);
      assert Encode(table)[..4 * n] == Encode(table[..n]);
      var b, c := Encode(table), Encode(table[..n]);
      assert b[4 * i] == c[4 * i] && b[4 * i + 1] == c[4 * i + 1];
      assert b[4 * i + 2] == c[4 * i + 2] && b[4 * i + 3] == c[4 * i + 3];
    } else {
      FourBack(table[n]);
    }
  }

  // ----- a device as blocks -----

  function Disk(blocks: seq<seq<byte>>): seq<byte>
  {
    if blocks == [] then [] else Disk(blocks[..|blocks| - 1]) + blocks[|blocks| - 1]
  }

  predicate Whole(blocks: seq<seq<byte>>, s: nat)
  {
    forall b :: 0 <= b < |blocks| ==> |blocks[b]| == Pow2(s)
  }

  lemma {:induction false} DiskSize(blocks: seq<seq<byte>>, s: nat)
    requires Whole(blocks, s)
    ensures |Disk(blocks)| == Shl(|blocks|, s)
  {
    if blocks == [] {
      ShlZero(s);
    } else {
      DiskSize(blocks[..|blocks| - 1], s);
      BlockEnd(|blocks| - 1, s);
    }
  }

  /** Block b of the device is the b-th. */
  lemma {:induction false} DiskBlock(blocks: seq<seq<byte>>, s: nat, b: nat)
    requires Whole(blocks, s)
    ensures Readable(Disk(blocks), s, b) <==> b < |blocks|
    ensures b < |blocks| ==> BlockAt(Disk(blocks), s, b) == blocks[b]
  {
    hide Shl, Pow2;
    DiskSize(blocks, s);
    ShlMono(b + 1, |blocks|, s);
    if b < |blocks| {
      var n := |blocks| - 1;
      var front := Disk(blocks[..n]);
      DiskSize(blocks[..n], s);
      BlockEnd(b, s);
      if b < n {
        DiskBlock(blocks[..n], s, b);
        assert Disk(blocks)[Shl(b, s)..Shl(b + 1, s)] == front[Shl(b, s)..Shl(b + 1, s)];
      } else {
        assert Disk(blocks)[|front|..] == blocks[n];
      }
    }
  }

  // ----- index blocks -----

  /** These blocks of the device hold these tables. */
  predicate Indexed(blocks: seq<seq<byte>>, s: nat, tables: map<nat, seq<nat>>)
    requires s >= 2
  {
    Whole(blocks, s) && forall b :: b in tables ==> TableIn(blocks, s, tables, b)
  }

  predicate TableIn(blocks: seq<seq<byte>>, s: nat, tables: map<nat, seq<nat>>, b: nat)
    requires s >= 2 && b in tables
  {
    && b < |blocks| && |tables[b]| == Slots(s) && blocks[b] == Encode(tables[b])
    && forall i :: 0 <= i < |tables[b]| ==> tables[b][i] < WORD
  }

  /** Block b is a hole or holds a table of n numbers. */
  predicate Has(tables: map<nat, seq<nat>>, n: nat, b: nat)
  {
    b == 0 || (b in tables && |tables[b]| == n)
  }

  /** Entry i of the table in block b; a hole stands for a table of holes. */
  function Entry(tables: map<nat, seq<nat>>, b: nat, i: nat): nat
  {
    if b != 0 && b in tables && i < |tables[b]| then tables[b][i] else 0
  }

  /** Following one index. */
  lemma {:induction false} FollowEntry(blocks: seq<seq<byte>>, s: nat, tables: map<nat, seq<nat>>, b: nat, i: nat,
                                       more: seq<nat>)
    requires s >= 2 && Indexed(blocks, s, tables) && Has(tables, Slots(s), b) && AllBelow([i] + more, Slots(s))
    ensures AllBelow(more, Slots(s))
    ensures Follow(Disk(blocks), s, b, [i] + more) ==
            Follow(Disk(blocks), s, Entry(tables, b, i), more)
  {
    hide Slots, Word, Disk, Encode;
    assert ([i] + more)[0] == i && ([i] + more)[1..] == more;
    assert forall k :: 0 <= k < |more| ==> more[k] == ([i] + more)[k + 1];
    if b != 0 {
      assert TableIn(blocks, s, tables, b);
      DiskBlock(blocks, s, b);
      SlotsInBlock(s);
      WordBack(tables[b], i);
    }
  }

  /** An index block that is not on the device. */
  lemma {:induction false} FollowMissing(blocks: seq<seq<byte>>, s: nat, b: nat, digits: seq<nat>)
    requires s >= 2 && Whole(blocks, s) && AllBelow(digits, Slots(s)) && digits != [] && b != 0 && b >= |blocks|
    ensures Follow(Disk(blocks), s, b, digits) == ReadError
  {
    hide Slots, Word, Disk;
    DiskBlock(blocks, s, b);
  }

  lemma {:induction false} FollowEnd(dev: seq<byte>, s: nat, b: nat)
    requires s >= 2
    ensures Follow(dev, s, b, []) == Found(b)
  {
  }

  /** N, N^2 and N^3. */
  lemma {:induction false} Sizes(m: nat)
    ensures var n := Pow2(m);
      && Shift(m, 1) == m && Pow2(Shift(m, 2)) == n * n && First(m, 1) == n && First(m, 2) == n + n * n
      && Limit(m) == NDADDR + n + n * n + n * (n * n)
  {
    hide Pow2;
    var n := Pow2(m);
    assert Shift(m, 1) == m;
    assert Shift(m, 2) == m + m;
    assert Shift(m, 3) == m + m + m;
    ShlPow2(m, m);
    ShlMul(n, m);
    ShlPow2(m + m, m);
    ShlMul(Pow2(m + m), m);
    Firsts(m);
  }

  /** Every list of indices below N is that of the block it leads to. */
  lemma {:induction false} NumberDigits(m: nat, digits: seq<nat>)
    requires digits != [] && AllBelow(digits, Pow2(m))
    ensures Number(m, digits) < Span(m, |digits|) && Digits(m, |digits| - 1, Number(m, digits)) == digits
    decreases |digits|
  {
    hide Pow2, Shl, Shr, Mask, Shift;
    var l, d, rest := |digits| - 1, digits[0], digits[1..];
    assert digits == [d] + rest;
    if l == 0 {
      NumberOne(m, d);
    } else {
      NumberDigits(m, rest);
      NumberStep(m, l, d, Number(m, rest));
    }
  }

  lemma {:induction false} NumberOne(m: nat, d: nat)
    ensures Number(m, [d]) == d && Digits(m, 0, d) == [d] && Shift(m, 1) == m
  {
    assert [d][1..] == [];
    assert Shl(d, 0) == d;
    assert Number(m, [d]) == Shl(d, 0) + Number(m, []);
  }

  lemma {:induction false} NumberStep(m: nat, l: nat, d: nat, f: nat)
    requires l > 0 && d < Pow2(m) && f < Span(m, l)
    ensures var g := Shl(d, Shift(m, l)) + f; g < Span(m, l + 1) && Digits(m, l, g) == [d] + Digits(m, l - 1, f)
  {
    hide Pow2, Shl, Shr, Mask;
    var s := Shift(m, l);
    SplitUnique(d, f, s);
    ShlMono(d + 1, Pow2(m), s);
    BlockEnd(d, s);
    ShlPow2(m, s);
    assert Shift(m, l + 1) == m + s;
  }

  lemma {:induction false} NumberTwo(m: nat, i: nat, j: nat)
    ensures Number(m, [i, j]) == i * Pow2(m) + j
  {
    hide Pow2;
    assert [i, j][1..] == [j] && [j][1..] == [];
    assert Number(m, [j]) == Shl(j, 0) + Number(m, []);
    assert Shift(m, 1) == m;
    ShlMul(i, m);
  }

  lemma {:induction false} NumberThree(m: nat, i: nat, j: nat, k: nat)
    ensures Number(m, [i, j, k]) == i * (Pow2(m) * Pow2(m)) + (j * Pow2(m) + k)
  {
    hide Pow2;
    assert [i, j, k][1..] == [j, k];
    NumberTwo(m, j, k);
    ShlMul(i, Shift(m, 2));
    Sizes(m);
  }

  lemma {:induction false} BlockThree(m: nat, i: nat, j: nat, k: nat)
    ensures var n := Pow2(m);
      NDADDR + n + n * n + (i * (n * n) + (j * n + k)) == NDADDR + First(m, 2) + Number(m, [i, j, k])
  {
    hide Number, First, Limit, Pow2;
    NumberThree(m, i, j, k);
    Sizes(m);
  }

  /** The path of the block that a list of indices leads to. */
  lemma {:induction false} PathUnder(m: nat, digits: seq<nat>)
    requires 1 <= |digits| <= NIADDR && AllBelow(digits, Pow2(m))
    ensures var fb := NDADDR + First(m, |digits| - 1) + Number(m, digits);
      fb < Limit(m) && PathOf(m, fb) == Index(|digits| - 1, digits)
  {
    hide Digits, Span, Number, Pow2;
    NumberDigits(m, digits);
    Firsts(m);
  }

  lemma {:induction false} WalkUnder(dev: seq<byte>, s: nat, inode: seq<nat>, fb: nat, digits: seq<nat>)
    requires s >= 2 && |inode| == NDADDR + NIADDR && 1 <= |digits| <= NIADDR && AllBelow(digits, Slots(s))
    requires fb == NDADDR + First(s - 2, |digits| - 1) + Number(s - 2, digits)
    ensures Walk(dev, s, inode, fb) == Follow(dev, s, inode[NDADDR + |digits| - 1], digits)
  {
    hide Pow2, Follow, PathOf, Number, First, Limit;
    PathUnder(s - 2, digits);
    PathBelow(s - 2, fb);
  }

  /** The direct blocks of a file, and where it ends. */
  lemma {:induction false} WalkDirect(dev: seq<byte>, s: nat, inode: seq<nat>, fb: nat)
    requires s >= 2 && |inode| == NDADDR + NIADDR
    ensures var n := Pow2(s - 2);
      && (fb < NDADDR ==> Walk(dev, s, inode, fb) == Found(inode[fb]))
      && (fb >= NDADDR + n + n * n + n * (n * n) ==> Walk(dev, s, inode, fb) == NotInFile)
  {
    hide Pow2, Follow;
    Sizes(s - 2);
    if fb < Limit(s - 2) { PathBelow(s - 2, fb); }
  }

  /** A block under the single index block: one entry. */
  lemma {:induction false} WalkSingle(blocks: seq<seq<byte>>, s: nat, inode: seq<nat>, tables: map<nat, seq<nat>>,
                                      i: nat)
    requires s >= 2 && |inode| == NDADDR + NIADDR && Indexed(blocks, s, tables) && i < Pow2(s - 2)
    requires Has(tables, Pow2(s - 2), inode[NDADDR])
    ensures Walk(Disk(blocks), s, inode, NDADDR + i) == Found(Entry(tables, inode[NDADDR], i))
  {
    hide Pow2, Follow, Disk, Indexed, Walk, Number;
    NumberOne(s - 2, i);
    WalkUnder(Disk(blocks), s, inode, NDADDR + i, [i]);
    assert [i] == [i] + [];
    FollowEntry(blocks, s, tables, inode[NDADDR], i, []);
    FollowEnd(Disk(blocks), s, Entry(tables, inode[NDADDR], i));
  }

  /** Block i * N + j under the double one: entry j of the table that entry i leads to. */
  lemma {:induction false} WalkDouble(blocks: seq<seq<byte>>, s: nat, inode: seq<nat>, tables: map<nat, seq<nat>>,
                                      fb: nat, i: nat, j: nat)
    requires s >= 2 && |inode| == NDADDR + NIADDR && Indexed(blocks, s, tables) && i < Pow2(s - 2) && j < Pow2(s - 2)
    requires fb == NDADDR + Pow2(s - 2) + (i * Pow2(s - 2) + j)
    requires var n, b := Pow2(s - 2), inode[NDADDR + 1]; Has(tables, n, b) && Has(tables, n, Entry(tables, b, i))
    ensures Walk(Disk(blocks), s, inode, fb) == Found(Entry(tables, Entry(tables, inode[NDADDR + 1], i), j))
  {
    hide Pow2, Follow, Disk, Indexed, Walk, Number, First;
    var b := inode[NDADDR + 1];
    var b1 := Entry(tables, b, i);
    NumberTwo(s - 2, i, j);
    Sizes(s - 2);
    WalkUnder(Disk(blocks), s, inode, fb, [i, j]);
    assert [i, j] == [i] + [j] && [j] == [j] + [];
    FollowEntry(blocks, s, tables, b, i, [j]);
    FollowEntry(blocks, s, tables, b1, j, []);
    FollowEnd(Disk(blocks), s, Entry(tables, b1, j));
  }

  /** And under the triple one, one table further. */
  lemma {:induction false} WalkTriple(blocks: seq<seq<byte>>, s: nat, inode: seq<nat>, tables: map<nat, seq<nat>>,
                                      fb: nat, i: nat, j: nat, k: nat)
    requires s >= 2 && |inode| == NDADDR + NIADDR && Indexed(blocks, s, tables)
    requires i < Pow2(s - 2) && j < Pow2(s - 2) && k < Pow2(s - 2)
    requires var n := Pow2(s - 2); fb == NDADDR + n + n * n + (i * (n * n) + (j * n + k))
    requires var n, b := Pow2(s - 2), inode[NDADDR + 2];
      Has(tables, n, b) && Has(tables, n, Entry(tables, b, i)) && Has(tables, n, Entry(tables, Entry(tables, b, i), j))
    ensures Walk(Disk(blocks), s, inode, fb) ==
            Found(Entry(tables, Entry(tables, Entry(tables, inode[NDADDR + 2], i), j), k))
  {
    hide Pow2, Follow, Disk, Indexed, Walk, Number, First, Limit, Entry, Has;
    BlockThree(s - 2, i, j, k);
    WalkUnder(Disk(blocks), s, inode, fb, [i, j, k]);
    FollowThree(blocks, s, tables, inode[NDADDR + 2], i, j, k);
  }

  lemma {:induction false} FollowThree(blocks: seq<seq<byte>>, s: nat, tables: map<nat, seq<nat>>, b: nat,
                                       i: nat, j: nat, k: nat)
    requires s >= 2 && Indexed(blocks, s, tables) && AllBelow([i, j, k], Slots(s))
    requires Has(tables, Slots(s), b) && Has(tables, Slots(s), Entry(tables, b, i))
    requires Has(tables, Slots(s), Entry(tables, Entry(tables, b, i), j))
    ensures Follow(Disk(blocks), s, b, [i, j, k]) == Found(Entry(tables, Entry(tables, Entry(tables, b, i), j), k))
  {
    hide Pow2, Follow, Disk, Indexed, Slots, Has;
    var b1 := Entry(tables, b, i);
    var b2 := Entry(tables, b1, j);
    assert [i, j, k] == [i] + [j, k] && [j, k] == [j] + [k] && [k] == [k] + [];
    FollowEntry(blocks, s, tables, b, i, [j, k]);
    FollowEntry(blocks, s, tables, b1, j, [k]);
    FollowEntry(blocks, s, tables, b2, k, []);
    FollowEnd(Disk(blocks), s, Entry(tables, b2, k));
  }

  // ----- the file -----

  /** A byte of a file is that of the block of the device that its block is found at, or zero in a hole. */
  lemma {:induction false} FileByte(f: File, blocks: seq<seq<byte>>, o: nat)
    requires f.bshift >= 2 && |f.inode| == NDADDR + NIADDR && f.dev == Disk(blocks) && Whole(blocks, f.bshift)
    ensures var n := Pow2(f.bshift); var r := Walk(f.dev, f.bshift, f.inode, o / n);
      && (f.Available(o) <==> o < f.isize && r.Found? && (r.block == 0 || r.block < |blocks|))
      && (f.Available(o) ==> f.ByteAt(o) == if r.block == 0 then 0 else blocks[r.block][o % n])
  {
    hide Pow2, Walk, Disk, Shr, Mask;
    ShrDiv(o, f.bshift);
    var r := Walk(f.dev, f.bshift, f.inode, Shr(o, f.bshift));
    if r.Found? { DiskBlock(blocks, f.bshift, r.block); }
  }

  // ----- the array for direct paging -----

  /** The blocks of the device that an array lists, in its order. */
  function Picked(blocks: seq<seq<byte>>, list: seq<nat>): seq<seq<byte>>
    requires forall k :: 0 <= k < |list| ==> list[k] < |blocks|
  {
    seq(|list|, k requires 0 <= k < |list| => blocks[list[k]])
  }

  /** What is paged through an array is the blocks of the device it lists, one after another. */
  lemma {:induction false} DirectContents(fd: Direct, blocks: seq<seq<byte>>, n: nat)
    requires Whole(blocks, fd.bshift) && fd.OnDevice(Disk(blocks)) && n <= |fd.blocks|
    ensures forall k :: 0 <= k < |fd.blocks| ==> fd.blocks[k] < |blocks|
    ensures fd.Contents(Disk(blocks), n) == Disk(Picked(blocks, fd.blocks[..n]))
    decreases n
  {
    hide Shl, Pow2;
    forall k | 0 <= k < |fd.blocks| ensures fd.blocks[k] < |blocks| {
      DiskBlock(blocks, fd.bshift, fd.blocks[k]);
    }
    if n > 0 {
      DirectContents(fd, blocks, n - 1);
      DiskBlock(blocks, fd.bshift, fd.blocks[n - 1]);
      var picked := Picked(blocks, fd.blocks[..n]);
      assert picked[..n - 1] == Picked(blocks, fd.blocks[..n - 1]);
      assert fd.Block(Disk(blocks), n - 1) == blocks[fd.blocks[n - 1]];
    }
  }
}
