/** Runs of the default pager that lose data or blocks: the inputs at which properties that might be
    expected of it fail. */
module PagerLosses {
  import opened Bits
  import opened BlockMap
  import opened FileDirect
  import opened Partition
  import opened PageMap
  import opened PageBytes
  import opened Departure
  import opened Pager

  const TWO_PAGES: nat := 8192

  function Filled(n: nat, x: byte): (s: seq<byte>)
    ensures |s| == n
  {
    seq(n, _ => x)
  }

  /** A device of two pages, with blocks of 1024 bytes or of a page. */
  function RawDisk(small: bool): Direct
  {
    if small then Direct.Direct(true, seq(8, k => k), 10) else Direct.Direct(true, seq(2, k => k), 12)
  }

  lemma {:induction false} Shifts()
    ensures Shl(8, 10) == TWO_PAGES && Shl(2, 12) == TWO_PAGES && Pow2(10) == 1024 && Pow2(12) == 4096
  {
    PageShl(2);
    assert Shl(8, 5) == 256;
    assert Shl(256, 5) == 8192;
    ShlShl(8, 5, 5);
    assert Pow2(5) == 32;
    assert Shl(32, 5) == 1024;
    ShlPow2(5, 5);
  }

  /** A fresh device can be made a paging partition. */
  lemma {:induction false} FreshDisk(small: bool)
    ensures RawDisk(small).Fits(Filled(TWO_PAGES, 0)) && RawDisk(small).Bsize() == (if small then 1024 else 4096)
    ensures Shl(RawDisk(small).Size(), RawDisk(small).bshift) == TWO_PAGES
    ensures forall k :: 0 <= k < |RawDisk(small).blocks| ==> !RawDisk(small).Hole(k)
    ensures RawDisk(small).Contents(Filled(TWO_PAGES, 0), |RawDisk(small).blocks|) == Filled(TWO_PAGES, 0)
  {
    hide Shl, Pow2;
    Shifts();
    var fd := RawDisk(small);
    forall k | 0 <= k < |fd.blocks| ensures Shl(fd.blocks[k] + 1, fd.bshift) <= TWO_PAGES {
      ShlMono(fd.blocks[k] + 1, |fd.blocks|, fd.bshift);
    }
    AllZero(fd, Filled(TWO_PAGES, 0), |fd.blocks|);
    assert fd.Contents(Filled(TWO_PAGES, 0), |fd.blocks|) == Filled(TWO_PAGES, 0);
  }

  lemma {:induction false} AllZero(fd: Direct, dev: seq<byte>, n: nat)
    requires fd.OnDevice(dev) && n <= |fd.blocks| && forall x :: 0 <= x < |dev| ==> dev[x] == 0
    ensures forall x :: 0 <= x < |fd.Contents(dev, n)| ==> fd.Contents(dev, n)[x] == 0
  {
    hide Shl;
    if n > 0 {
      AllZero(fd, dev, n - 1);
      var b := fd.Block(dev, n - 1);
      BlockEnd(fd.blocks[n - 1], fd.bshift);
      forall x | 0 <= x < |b| ensures b[x] == 0 {
        assert b[x] == dev[Shl(fd.blocks[n - 1], fd.bshift) + x];
      }
    }
  }

  /** No object has a page. */
  ghost predicate Bare(led: Ledger)
  {
    forall j: nat, q: nat :: led.SlotOf(j, q) == None
  }

  lemma {:induction false} BareSame(led: Ledger, now: Ledger)
    requires Bare(led) && now.slots == led.slots
    ensures Bare(now)
  {
    forall j: nat, q: nat ensures now.SlotOf(j, q) == None {
      assert led.SlotOf(j, q) == None;
    }
  }

  /** Two fresh partitions, called 0 and 1, and one object without pages. */
  ghost predicate Set(pg: Pager, small: bool, k0: nat, k1: nat)
    reads pg, pg.parts, pg.Bitmaps(), pg.objects
  {
    && pg.Valid() && pg.departing == NO_PART && |pg.objects| == 1 && pg.listed == [true]
    && |pg.led.slots| == 1 == |pg.led.slots[0]| && Bare(pg.led)
    && pg.led.loose == {}
    && Pair(pg, small, k0, k1)
    && |pg.disk| == |pg.parts| && pg.disk[k0] == pg.disk[k1] == Filled(TWO_PAGES, 0)
  }

  ghost predicate Pair(pg: Pager, small: bool, k0: nat, k1: nat)
    reads pg`parts
  {
    && k0 != k1 && pg.Live(k0) && pg.Live(k1) && (forall k: nat :: pg.Live(k) ==> k == k0 || k == k1)
    && pg.parts[k0].id == 0 && pg.parts[k1].id == 1 && pg.parts[k0].total == pg.parts[k1].total == 2
    && pg.parts[k0].bsize == pg.parts[k1].bsize == if small then 1024 else 4096
  }

  /** The partitions are those at k0 and k1, with different names. */
  ghost predicate Two(pg: Pager, k0: nat, k1: nat)
    reads pg`parts
  {
    && k0 != k1 && pg.Live(k0) && pg.Live(k1) && (forall k: nat :: pg.Live(k) ==> k == k0 || k == k1)
    && pg.parts[k0].id != pg.parts[k1].id && pg.parts[k0].total > 0 && pg.parts[k1].total > 0
  }

  method SetUp(small: bool) returns (pg: Pager, k0: nat, k1: nat)
    ensures Set(pg, small, k0, k1) && fresh(pg)
    ensures fresh(pg.objects[0])
    ensures forall k: nat :: k < |pg.parts| && pg.parts[k] != null ==> fresh(pg.parts[k]) && fresh(pg.parts[k].bitmap)
  {
    hide Pager.Wf, Ledger.Consistent, Sound, BytesOf, RawDisk, Direct.Fits, Shl, Direct.Contents, Filled,
      Ledger.Allocated;
    FreshDisk(small);
    pg := new Pager();
    pg.Sizes();
    assert !pg.Live(0) && !pg.Live(1);
    k0 := pg.AddPartition(TWO_PAGES, 0, RawDisk(small), Filled(TWO_PAGES, 0));
    ghost var k :| k in {0, 1} && k != k0;
    assert !pg.Live(k);
    k1 := pg.AddPartition(TWO_PAGES, 1, RawDisk(small), Filled(TWO_PAGES, 0));
    assert pg.Live(k0);
    pg.Sizes();
    var part := pg.ChooseFor(PAGE);
    pg.AddObject(PAGE, part);
    NoSlots(pg.led);
  }

  lemma {:induction false} NoSlots(led: Ledger)
    requires |led.slots| == 1 && led.slots[0] == Nones(|led.slots[0]|)
    ensures Bare(led)
  {
  }

  /** Page 0 of object 0 is the only page, and it is in block b. */
  ghost predicate OnlyAt(led: Ledger, b: Block)
  {
    && led.loose == {} && |led.slots| == 1
    && forall j: nat, q: nat :: led.SlotOf(j, q) == if j == 0 && q == 0 then Some(b) else None
  }

  lemma {:induction false} OnlyAssigned(led: Ledger, v: Slot, now: Ledger)
    requires |led.slots| == 1 && led.loose == {} && Bare(led)
    requires led.Assigned(0, 0, v, now) && v.Some?
    ensures OnlyAt(now, v.value)
  {
  }

  lemma {:induction false} Below(pg: Pager, k: nat)
    requires pg.Wf() && pg.Live(k)
    ensures k < NO_PART
  {
    assert pg.PartOK(k);
  }

  /** A partition without pages has room. */
  lemma {:induction false} Roomy(pg: Pager, k: nat)
    requires pg.Wf() && pg.led.Consistent() && k != pg.departing && pg.Live(k) && pg.parts[k].total > 0
    requires pg.led.NoLoose(k) && forall i: nat :: pg.led.Avoids(i, k)
    ensures pg.HasRoom(k)
  {
    hide Ledger.Consistent;
    assert pg.PartOK(k);
    pg.led.AllAvoid(k);
  }

  lemma {:induction false} OnlyMoved(led: Ledger, now: Ledger, disk: seq<seq<byte>>, d: nat, ms: seq<Move>, b: Block)
    requires OnlyAt(led, b) && Moved(led, now, disk, d, ms)
    ensures now.SlotOf(0, 0).Some? && OnlyAt(now, now.SlotOf(0, 0).value)
    ensures now.SlotOf(0, 0) != Some(b) ==> ms != [] && ms[0] == Move(0, 0, b, now.SlotOf(0, 0).value)
  {
    forall n | 0 <= n < |ms|
      ensures ms[n].i == 0 && ms[n].p == 0 && ms[n].from == b && now.SlotOf(0, 0) == Some(ms[n].to)
    {
      assert SlotMoved(led, now, ms[n]);
    }
    assert led.SlotOf(0, 0) == Some(b) && SlotKept(led, now, ms, 0, 0);
    if n :| 0 <= n < |ms| && ms[n].i == 0 && ms[n].p == 0 {
      assert SlotMoved(led, now, ms[n]) && SlotMoved(led, now, ms[0]);
    }
    forall j: nat, q: nat | j != 0 || q != 0 ensures now.SlotOf(j, q) == None {
      assert SlotKept(led, now, ms, j, q) && led.SlotOf(j, q) == None;
    }
  }

  lemma {:induction false} EmptyAvoids(led: Ledger, k: nat)
    requires Bare(led)
    ensures forall i: nat :: led.Avoids(i, k)
  {
  }

  lemma {:induction false} OnlyAvoids(led: Ledger, b: Block, k: nat)
    requires OnlyAt(led, b) && k != b.part
    ensures forall i: nat :: led.Avoids(i, k)
  {
  }

  /** The lookup half of writing page 0: the page is in block b, and the other partition is empty. */
  method LookUp(small: bool) returns (pg: Pager, b: Block, other: nat)
    ensures pg.Valid() && pg.departing == NO_PART && |pg.objects| == 1 && pg.listed == [true]
    ensures OnlyAt(pg.led, b) && (Pair(pg, small, b.part, other) || Pair(pg, small, other, b.part)) && pg.Exists(b)
    ensures |pg.disk| == |pg.parts| && pg.disk[b.part] == pg.disk[other] == Filled(TWO_PAGES, 0)
    ensures fresh(pg) && fresh(pg.objects[0])
    ensures forall k: nat :: k < |pg.parts| && pg.parts[k] != null ==> fresh(pg.parts[k]) && fresh(pg.parts[k].bitmap)
  {
    hide Pager.Wf, Ledger.Consistent, Sound, Ledger.Assigned, Filled, Ledger.Avoids;
    var k0: nat, k1: nat;
    pg, k0, k1 := SetUp(small);
    ghost var led := pg.led;
    EmptyAvoids(led, k0);
    Below(pg, k0);
    Roomy(pg, k0);
    var v := pg.WriteOffset(0, 0);
    OnlyAssigned(led, v, pg.led);
    b := v.value;
    pg.led.SlotHeld(0, 0);
    pg.AllocatedLive(b);
    other := if b.part == k0 then k1 else k0;
  }

  /** Marking the partition of the page. */
  method Begin(pg: Pager, b: Block, other: nat, small: bool)
    requires pg.Valid() && pg.departing == NO_PART && pg.Live(b.part)
    requires Pair(pg, small, b.part, other) || Pair(pg, small, other, b.part)
    modifies pg`departing, pg`scanned, pg.parts
    ensures pg.Valid() && pg.departing == b.part != NO_PART && pg.scanned == 0
  {
    hide Pager.Wf, Ledger.Consistent, Sound;
    Below(pg, b.part);
    var k := pg.DestroyBegin(pg.parts[b.part].id);
    assert pg.Live(b.part);
    assert k != NO_PART && pg.Live(k);
  }

  /** A partition is removed between the two steps of an object's end: the object is off the list, so
      the scan does not see its page. The partition goes with the block still allocated, and the page
      refers to a partition that is not there. */
  method StrayBlock() returns (pg: Pager, b: Block)
    ensures !pg.Valid() && pg.listed == [false]
    ensures pg.led.SlotOf(0, 0) == Some(b) && !pg.Live(b.part)
  {
    hide Pager.Wf, Ledger.Consistent, Sound, Moved, AfterMoves, Ledger.Avoids, NoStrays;
    var other: nat;
    pg, b, other := LookUp(false);
    assert pg.led.SlotOf(0, 0) == Some(b);
    pg.ListDelete(0);
    Begin(pg, b, other, false);
    MovedNone(pg.led, pg.disk, b.part);
    NoMoves(pg.disk, Bsizes(pg.parts));
    ghost var led, disk := pg.led, pg.disk;
    ghost var ms;
    var ok;
    ok, ms := pg.DestroyScan(0, b.part, led, disk, []);
    pg.DestroyEnd(b.part);
    assert !NoStrays(pg.led, pg.listed, b.part) by { Strays(pg.led, pg.listed, b); }
  }

  lemma {:induction false} Strays(led: Ledger, listed: seq<bool>, b: Block)
    requires led.SlotOf(0, 0) == Some(b) && listed == [false]
    ensures !NoStrays(led, listed, b.part)
  {
    assert !led.Avoids(0, b.part);
  }

  /** A partition is removed between the two halves of a release: the slot is empty, so the scan does
      not see the block. Every object is on the list, none has a page, and the partition goes with the
      block that is about to be given back. */
  method HalfReleased() returns (pg: Pager, b: Block)
    ensures !pg.Valid() && pg.listed == [true] && Bare(pg.led)
    ensures b in pg.led.loose && !pg.Live(b.part)
  {
    hide Pager.Wf, Ledger.Consistent, Sound, Moved, AfterMoves, NoStrays, Ledger.Avoids, Bare, OnlyAt;
    var other: nat;
    pg, b, other := LookUp(false);
    HeldThere(pg.led, b);
    ghost var was := pg.led;
    var c := pg.ClearSlot(0, 0);
    LeftBare(was, pg.led, b);
    Begin(pg, b, other, false);
    MovedNone(pg.led, pg.disk, b.part);
    NoMoves(pg.disk, Bsizes(pg.parts));
    ghost var led, disk := pg.led, pg.disk;
    ghost var ms;
    var ok;
    ok, ms := pg.DestroyScan(0, b.part, led, disk, []);
    StillEmpty(led, pg.led, disk, b.part, ms);
    EmptyAvoids(pg.led, b.part);
    assert ok;
    ghost var last := pg.led;
    pg.DestroyEnd(b.part);
    BareSame(last, pg.led);
    assert !pg.led.NoLoose(b.part);
  }

  lemma {:induction false} HeldThere(led: Ledger, b: Block)
    requires OnlyAt(led, b)
    ensures led.SlotOf(0, 0) == Some(b) && |led.slots| == 1 && led.loose == {}
  {
  }

  lemma {:induction false} LeftBare(was: Ledger, led: Ledger, b: Block)
    requires OnlyAt(was, b) && led == was.Loosened(0, 0)
    ensures b in led.loose && Bare(led)
  {
    assert was.SlotOf(0, 0) == Some(b);
    forall j: nat, q: nat ensures led.SlotOf(j, q) == None {
      assert j != 0 || q != 0 ==> led.SlotOf(j, q) == was.SlotOf(j, q);
    }
  }

  lemma {:induction false} NoneMoved(led: Ledger, now: Ledger, ms: seq<Move>)
    requires Bare(led) && forall n :: 0 <= n < |ms| ==> SlotMoved(led, now, ms[n])
    ensures ms == []
  {
    assert ms != [] ==> led.SlotOf(ms[0].i, ms[0].p) == None;
  }

  lemma {:induction false} StillEmpty(led: Ledger, now: Ledger, disk: seq<seq<byte>>, d: nat, ms: seq<Move>)
    requires Moved(led, now, disk, d, ms) && Bare(led)
    ensures now.loose == led.loose && Bare(now)
  {
    forall j: nat, q: nat ensures now.SlotOf(j, q) == None {
      assert SlotKept(led, now, ms, j, q) && led.SlotOf(j, q) == None;
      NoneMoved(led, now, ms);
    }
  }

  /** Two writers, for pages 4000 and 3000 of an object of one page, both see that it is too small. One
      extends it and gets its block; then the other extends it to less, and page 4000 is dropped with
      its block allocated. */
  method ShrunkMap() returns (pg: Pager, b: Block)
    ensures !pg.Valid() && pg.led.Allocated(b) && Bare(pg.led)
  {
    hide Pager.Wf, Ledger.Consistent, Sound, Ledger.Assigned, Filled, Ledger.Avoids;
    var k0: nat, k1: nat;
    pg, k0, k1 := SetUp(false);
    ghost var led := pg.led;
    EmptyAvoids(led, k0);
    Below(pg, k0);
    Roomy(pg, k0);
    pg.ExtendMap(0, 4000);
    assert RoundUp(4001) == 4032 && RoundUp(3001) == 3008;
    ghost var led1 := pg.led;
    EmptySized(led, 4032);
    var v := pg.FindBlock(0, 4000);
    b := v.value;
    ghost var led2 := pg.led;
    OnePage(led1, v, led2);
    led2.SlotHeld(0, 4000);
    pg.ExtendMap(0, 3000);
    EmptyCut(led2, 3008);
  }

  lemma {:induction false} EmptySized(led: Ledger, n: nat)
    requires |led.slots| == 1 == |led.slots[0]| && n >= 1 && Bare(led)
    ensures var now := Sized(led, 0, n); |now.slots| == 1 && |now.slots[0]| == n && Bare(now)
  {
    assert led.slots[0][0] == led.SlotOf(0, 0);
  }

  lemma {:induction false} OnePage(led: Ledger, v: Slot, now: Ledger)
    requires led.Assigned(0, 4000, v, now) && |led.slots| == 1 && Bare(led)
    ensures |now.slots| == 1 && now.SlotOf(0, 4000) == v
    ensures forall j: nat, q: nat :: j != 0 || q != 4000 ==> now.SlotOf(j, q) == None
  {
  }

  lemma {:induction false} EmptyCut(led: Ledger, n: nat)
    requires |led.slots| == 1 && n <= 4000 && n <= |led.slots[0]|
    requires forall j: nat, q: nat :: j != 0 || q != 4000 ==> led.SlotOf(j, q) == None
    ensures Bare(Sized(led, 0, n))
  {
    forall j: nat, q: nat ensures Sized(led, 0, n).SlotOf(j, q) == None {
      assert j == 0 && q < n ==> Sized(led, 0, n).SlotOf(j, q) == led.SlotOf(j, q);
    }
  }

  /** The page can leave its partition while the other one is empty. */
  lemma {:induction false} CanMove(pg: Pager, c: Block, k: nat, other: nat)
    requires pg.Wf() && pg.led.Consistent() && OnlyAt(pg.led, c) && pg.Live(other) && pg.parts[other].total > 0
    requires other != k && other != pg.departing && !pg.led.Avoids(0, k)
    ensures pg.HasRoom(other)
  {
    hide Pager.Wf, Ledger.Consistent;
    var p: nat :| pg.led.SlotOf(0, p).Some? && pg.led.SlotOf(0, p).value.part == k;
    OnlyAvoids(pg.led, c, other);
    Roomy(pg, other);
  }

  lemma {:induction false} ZeroBlock(disk: seq<seq<byte>>, b: Block)
    requires InRange(disk, b) && disk[b.part] == Filled(TWO_PAGES, 0)
    ensures BlockBytes(disk, b) == Filled(PAGE, 0)
  {
  }

  /** A scan moves the page between the lookup and the transfer of a write: the write is to the block
      the page has left, and the page holds the zeros it held before. */
  method LostWrite(data: seq<byte>) returns (pg: Pager)
    requires |data| == PAGE
    ensures pg.Valid() && BytesOf(pg.led, pg.disk, 0, 0) == Filled(PAGE, 0)
  {
    hide Pager.Wf, Ledger.Consistent, Sound, Moved, AfterMoves, Ledger.Avoids, BlockBytes, Written, InRange, Filled;
    var b, other: nat;
    pg, b, other := LookUp(false);
    Begin(pg, b, other, false);
    MovedNone(pg.led, pg.disk, b.part);
    NoMoves(pg.disk, Bsizes(pg.parts));
    ghost var led, disk := pg.led, pg.disk;
    ghost var ms;
    var ok;
    ok, ms := pg.DestroyScan(0, b.part, led, disk, []);
    OnlyMoved(led, pg.led, disk, b.part, ms, b);
    ghost var c := pg.led.SlotOf(0, 0).value;
    if !ok { CanMove(pg, c, b.part, other); }
    LeftIt(pg.led, b);
    pg.led.SlotHeld(0, 0);
    pg.AllocatedLive(c);
    ZeroMoved(led, pg.led, disk, Bsizes(pg.parts), b, other, ms);
    ghost var disk1 := pg.disk;
    pg.WriteBlock(b, data);
    WrittenBlock(disk1, b, data, c);
  }

  lemma {:induction false} LeftIt(led: Ledger, b: Block)
    requires led.Avoids(0, b.part)
    ensures led.SlotOf(0, 0).Some? ==> led.SlotOf(0, 0).value.part != b.part
  {
  }

  /** A page of zeros moved onto zeros. */
  lemma {:induction false} ZeroMoved(led: Ledger, now: Ledger, disk: seq<seq<byte>>, bs: seq<nat>, b: Block,
                                     other: nat, ms: seq<Move>)
    requires Moved(led, now, disk, b.part, ms) && now.Consistent() && ms != [] && ms[0] == Move(0, 0, b, ms[0].to)
    requires ms[0].to.part == other && other < |disk| && b.part < |disk|
    requires disk[b.part] == disk[other] == Filled(TWO_PAGES, 0)
    ensures BytesOf(now, AfterMoves(disk, bs, ms), 0, 0) == Filled(PAGE, 0)
  {
    hide Ledger.Consistent, AfterMoves, BlockBytes, InRange;
    assert MoveOK(disk, b.part, ms[0]);
    MovedPage(led, now, disk, bs, b.part, ms, 0, 0);
    ZeroBlock(disk, b);
    ZeroBlock(disk, ms[0].to);
  }

  /** With one object, on the list, and the other partition empty, a removal succeeds. */
  method Remove(pg: Pager, b: Block, other: nat) returns (ghost c: Block, ghost ms: seq<Move>)
    requires pg.Valid() && pg.departing == NO_PART && |pg.objects| == 1 && pg.listed == [true] && pg.Live(b.part)
    requires OnlyAt(pg.led, b) && Two(pg, b.part, other)
    modifies pg, pg.parts, pg.Bitmaps(), pg.objects
    ensures pg.Valid() && OnlyAt(pg.led, c) && c.part == other && |pg.objects| == 1 && pg.listed == [true]
    ensures pg.departing == NO_PART && b.part < |old(pg.parts)| && pg.parts == old(pg.parts)[b.part := null]
    ensures Moved(old(pg.led), pg.led, old(pg.disk), b.part, ms) && ms != [] && ms[0] == Move(0, 0, b, c)
    ensures pg.disk == AfterMoves(old(pg.disk), Bsizes(old(pg.parts)), ms)
    ensures pg.objects == old(pg.objects)
    ensures forall j: nat :: j < |pg.parts| && pg.parts[j] != null ==> pg.parts[j] in old(pg.parts)
  {
    hide Pager.Wf, Ledger.Consistent, Sound, Moved, AfterMoves, Ledger.Avoids, NoStrays, Bsizes;
    ghost var led, disk := pg.led, pg.disk;
    Below(pg, other);
    ghost var parts := pg.parts;
    forall j: nat | j < |parts| && parts[j] != null ensures j == b.part || j == other {
      assert pg.Live(j);
    }
    var k: nat, out;
    out, k, ms := pg.Destroy(pg.parts[b.part].id);
    OnlyMoved(led, pg.led, disk, k, ms, b);
    c := pg.led.SlotOf(0, 0).value;
    assert pg.parts == parts ==> pg.Live(b.part);
    assert out != InvalidArgument && k == b.part;
    if out == Failure { CanMove(pg, c, k, other); }
    AllListed(pg.led, k);
    LeftIt(pg.led, b);
    pg.led.SlotHeld(0, 0);
    pg.AllocatedLive(c);
  }

  lemma {:induction false} AllListed(led: Ledger, k: nat)
    ensures NoStrays(led, [true], k)
  {
  }

  function Quarter(): seq<byte>
  {
    Filled(1024, 1) + Filled(3072, 0)
  }

  /** A page of ones moved onto zeros between partitions with blocks of 1024 bytes. */
  lemma {:induction false} QuarterMoved(disk0: seq<seq<byte>>, bs: seq<nat>, b: Block, c: Block)
    requires InRange(disk0, b) && InRange(disk0, c) && b.part != c.part && disk0[c.part] == Filled(TWO_PAGES, 0)
    requires SizeAt(bs, b.part) == SizeAt(bs, c.part) == 1024
    ensures var disk := Written(disk0, b, Filled(PAGE, 1));
            InRange(disk, b) && InRange(disk, c) && MovedTo(disk, bs, Move(0, 0, b, c)) == Quarter()
  {
    hide BlockBytes, Written;
    var ones := Filled(PAGE, 1);
    var disk := Written(disk0, b, ones);
    RangeKept(disk0, b, ones, b);
    RangeKept(disk0, b, ones, c);
    WrittenBlock(disk0, b, ones, b);
    WrittenBlock(disk0, b, ones, c);
    assert ones + BlockBytes(disk0, b)[PAGE..] == ones;
    ZeroBlock(disk0, c);
    assert ones[..1024] == Filled(1024, 1) && Filled(PAGE, 0)[1024..] == Filled(3072, 0);
  }

  lemma {:induction false} RangeKept(disk: seq<seq<byte>>, b: Block, data: seq<byte>, c: Block)
    requires InRange(disk, b) && |data| <= PAGE
    ensures InRange(Written(disk, b, data), c) <==> InRange(disk, c)
  {
  }

  /** Two partitions with blocks of 1024 bytes: a page of ones is written, its partition is removed,
      and the page is read back with only its first quarter. */
  method LostBytes() returns (pg: Pager, r: ReadResult)
    ensures pg.Valid() && r == Data(Quarter()) && Quarter() != Filled(PAGE, 1)
  {
    hide Pager.Wf, Ledger.Consistent, Sound, Moved, AfterMoves, BlockBytes, Written, InRange, Filled, MovedTo, Quarter;
    var b, other: nat;
    pg, b, other := LookUp(true);
    ghost var disk0, bs := pg.disk, Bsizes(pg.parts);
    pg.WriteBlock(b, Filled(PAGE, 1));
    ghost var led, disk, c, ms := pg.led, pg.disk, b, [];
    c, ms := Remove(pg, b, other);
    MovedPage(led, pg.led, disk, bs, b.part, ms, 0, 0);
    FirstInRange(led, pg.led, disk, b.part, ms);
    RangeKept(disk0, b, Filled(PAGE, 1), c);
    QuarterMoved(disk0, bs, b, c);
    r := pg.DefaultRead(0, 0, false);
    assert Quarter()[PAGE - 1] != Filled(PAGE, 1)[PAGE - 1] by { Ends(); }
  }

  lemma {:induction false} Ends()
    ensures |Quarter()| == |Filled(PAGE, 1)| == PAGE && Quarter()[PAGE - 1] == 0 && Filled(PAGE, 1)[PAGE - 1] == 1
  {
  }

  lemma {:induction false} FirstInRange(led: Ledger, now: Ledger, disk: seq<seq<byte>>, d: nat, ms: seq<Move>)
    requires Moved(led, now, disk, d, ms) && ms != []
    ensures InRange(disk, ms[0].from) && InRange(disk, ms[0].to)
  {
    assert MoveOK(disk, d, ms[0]);
  }

  // ----- a request whose partition has been replaced -----

  /** One partition of two pages at place 0, and page 0 of object 0 in its first block. */
  method FirstPage() returns (pg: Pager)
    ensures pg.Valid() && pg.departing == NO_PART && |pg.objects| == 1 && pg.listed == [true]
    ensures OnlyAt(pg.led, Block(0, 0))
    ensures pg.Live(0) && pg.parts[0].id == 0 && pg.parts[0].total == 2 && forall k: nat :: pg.Live(k) ==> k == 0
    ensures fresh(pg) && fresh(pg.objects[0])
    ensures forall k: nat :: k < |pg.parts| && pg.parts[k] != null ==> fresh(pg.parts[k]) && fresh(pg.parts[k].bitmap)
  {
    hide Pager.Wf, Ledger.Consistent, Sound, BytesOf, RawDisk, Direct.Fits, Shl, Direct.Contents, Filled, Ledger.Avoids,
         Ledger.Assigned, OnlyAt, Bare;
    FreshDisk(false);
    pg := new Pager();
    pg.Sizes();
    assert !pg.Live(0);
    var k := pg.AddPartition(TWO_PAGES, 0, RawDisk(false), Filled(TWO_PAGES, 0));
    assert k == 0;
    pg.Sizes();
    pg.AddObject(PAGE, NO_PART);
    NoSlots(pg.led);
    ghost var led := pg.led;
    EmptyAvoids(led, 0);
    Roomy(pg, 0);
    EmptyUsed(pg, 0);
    var v := pg.WriteOffset(0, 0);
    OnlyAssigned(led, v, pg.led);
    assert pg.Live(v.value.part);
    Lowest(led.used[0], v.value.off);
  }

  lemma {:induction false} EmptyUsed(pg: Pager, k: nat)
    requires pg.Wf() && pg.led.Consistent() && pg.Live(k) && pg.led.NoLoose(k) && forall i: nat :: pg.led.Avoids(i, k)
    ensures k < |pg.led.used| && pg.led.used[k] == {}
  {
    hide Ledger.Consistent;
    assert pg.PartOK(k);
    pg.led.AllAvoid(k);
  }

  lemma {:induction false} Lowest(used: set<nat>, off: nat)
    requires used == {} && LowestFree(used, off)
    ensures off == 0
  {
    assert off > 0 ==> 0 in used;
  }

  /** A second partition of one page is added, the first removed, so that the page moves, and a third
      added, which takes the place of the first. */
  method Replace(pg: Pager)
    requires pg.Valid() && pg.departing == NO_PART && |pg.objects| == 1 && pg.listed == [true]
    requires OnlyAt(pg.led, Block(0, 0))
    requires pg.Live(0) && pg.parts[0].id == 0 && pg.parts[0].total == 2 && forall k: nat :: pg.Live(k) ==> k == 0
    modifies pg, pg.parts, pg.Bitmaps(), pg.objects
    ensures pg.Valid() && pg.departing == NO_PART && |pg.objects| == 1 && OnlyAt(pg.led, Block(1, 0))
    ensures pg.Live(0) && pg.Live(1) && pg.parts[0].total == 2 && pg.parts[1].total == 1
    ensures (forall k: nat :: pg.Live(k) ==> k == 0 || k == 1) && pg.objects == old(pg.objects)
    ensures forall k: nat :: k < |pg.parts| && pg.parts[k] != null && pg.parts[k] !in old(pg.parts) ==>
      fresh(pg.parts[k]) && fresh(pg.parts[k].bitmap)
  {
    hide Pager.Wf, Ledger.Consistent, Sound, BytesOf, RawDisk, Direct.Fits, Shl, Direct.Contents, Filled, Ledger.Avoids,
         OnlyAt, Moved, AfterMoves, Ledger.Allocated;
    FreshDisk(false);
    assert !pg.Live(1);
    ghost var led := pg.led;
    var k := pg.AddPartition(PAGE, 1, RawDisk(false), Filled(TWO_PAGES, 0));
    assert k == 1 && pg.Live(0);
    OnlySame(led, pg.led, Block(0, 0));
    ghost var c, ms;
    c, ms := Remove(pg, Block(0, 0), 1);
    HeldThere(pg.led, c);
    OneBlockOnly(pg, c);
    ghost var led1 := pg.led;
    assert pg.Live(1) && !pg.Live(0);
    k := pg.AddPartition(TWO_PAGES, 2, RawDisk(false), Filled(TWO_PAGES, 0));
    assert k == 0 && pg.Live(1);
    OnlySame(led1, pg.led, Block(1, 0));
  }

  lemma {:induction false} OnlySame(led: Ledger, now: Ledger, b: Block)
    requires OnlyAt(led, b) && now.slots == led.slots && now.loose == led.loose
    ensures OnlyAt(now, b)
  {
    forall j: nat, q: nat ensures now.SlotOf(j, q) == if j == 0 && q == 0 then Some(b) else None {
      assert led.SlotOf(j, q) == if j == 0 && q == 0 then Some(b) else None;
    }
  }

  /** In a partition of one block the page is in that block, and there is no room. */
  lemma {:induction false} OneBlockOnly(pg: Pager, c: Block)
    requires pg.Wf() && pg.led.Consistent() && pg.led.SlotOf(0, 0) == Some(c) && pg.Live(c.part)
    requires pg.parts[c.part].total == 1
    ensures c.off == 0 && !pg.HasRoom(c.part)
  {
    hide Ledger.Consistent;
    pg.led.SlotHeld(0, 0);
    pg.AllocatedLive(c);
    FullPart(pg, c);
  }

  lemma {:induction false} FullPart(pg: Pager, c: Block)
    requires pg.Wf() && pg.Live(c.part) && pg.parts[c.part].total == 1 && pg.led.Allocated(c) && c.off == 0
    ensures !pg.HasRoom(c.part)
  {
    assert pg.PartOK(c.part);
    assert pg.parts[c.part].used == {0} + (pg.parts[c.part].used - {0});
  }

  /** A write looks up the block of page 0 of object 0. Before its transfer its partition is replaced,
      and page 0 of a new object gets the same block of the new one: the write changes that page, and
      not its own. */
  method WrongPage(data: seq<byte>) returns (pg: Pager)
    requires |data| == PAGE
    ensures pg.Valid() && BytesOf(pg.led, pg.disk, 1, 0) == data && pg.led.SlotOf(0, 0) == Some(Block(1, 0))
  {
    hide Pager.Wf, Ledger.Consistent, Sound, BlockBytes, Written, InRange, Ledger.Assigned, OnlyAt, Ledger.Avoids;
    pg := FirstPage();
    var b := Block(0, 0);
    Replace(pg);
    HeldThere(pg.led, Block(1, 0));
    OneBlockOnly(pg, Block(1, 0));
    pg.Sizes();
    ghost var was := pg.led;
    pg.AddObject(PAGE, NO_PART);
    ghost var led := pg.led;
    assert led.(slots := led.slots[..1]) == was;
    NewBare(led, Block(1, 0));
    Roomy(pg, 0);
    EmptyUsed(pg, 0);
    assert !pg.HasRoom(1);
    var v := pg.WriteOffset(1, 0);
    assert pg.Live(v.value.part) && v.value.part == 0;
    Lowest(led.used[0], v.value.off);
    AssignedThere(led, v, pg.led, Block(1, 0));
    pg.led.SlotHeld(1, 0);
    pg.AllocatedLive(b);
    ghost var disk := pg.disk;
    pg.WriteBlock(b, data);
    WrittenBlock(disk, b, data, b);
    assert data + BlockBytes(disk, b)[|data|..] == data;
  }

  lemma {:induction false} NewBare(led: Ledger, c: Block)
    requires led.loose == {} && |led.slots| == 2 && led.slots[1] == Nones(|led.slots[1]|) && c.part != 0
    requires OnlyAt(led.(slots := led.slots[..1]), c)
    ensures led.SlotOf(0, 0) == Some(c) && led.SlotOf(1, 0) == None && led.NoLoose(0)
    ensures forall i: nat :: led.Avoids(i, 0)
  {
    var was := led.(slots := led.slots[..1]);
    forall i: nat ensures led.Avoids(i, 0) {
      assert forall p: nat :: i == 0 ==> led.SlotOf(i, p) == was.SlotOf(i, p);
    }
    assert was.SlotOf(0, 0) == Some(c);
  }

  lemma {:induction false} AssignedThere(led: Ledger, v: Slot, now: Ledger, c: Block)
    requires led.Assigned(1, 0, v, now) && led.SlotOf(0, 0) == Some(c)
    ensures now.SlotOf(1, 0) == v && now.SlotOf(0, 0) == Some(c)
  {
  }
}
