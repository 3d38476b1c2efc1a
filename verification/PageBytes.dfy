/** The bytes of pages, and what moving pages between partitions does to them. */
module PageBytes {
  import opened Bits
  import opened BlockMap
  import opened FileDirect
  import opened Partition

  function BlockBytes(disk: seq<seq<byte>>, b: Block): seq<byte>
  {
    if b.part < |disk| && PAGE * (b.off + 1) <= |disk[b.part]| then PageAt(disk[b.part], b.off) else []
  }

  /** The bytes of page p of object i, none when the page has no block. */
  function BytesOf(led: Ledger, disk: seq<seq<byte>>, i: nat, p: nat): seq<byte>
  {
    match led.SlotOf(i, p)
    case None => []
    case Some(b) => BlockBytes(disk, b)
  }

  predicate InRange(disk: seq<seq<byte>>, b: Block)
  {
    b.part < |disk| && PAGE * (b.off + 1) <= |disk[b.part]|
  }

  /** Writing at the start of a block. */
  function Written(disk: seq<seq<byte>>, b: Block, data: seq<byte>): seq<seq<byte>>
    requires InRange(disk, b) && |data| <= PAGE
  {
    disk[b.part := Splice(disk[b.part], PAGE * b.off, data)]
  }

  lemma {:induction false} WrittenBlock(disk: seq<seq<byte>>, b: Block, data: seq<byte>, c: Block)
    requires InRange(disk, b) && |data| <= PAGE
    ensures |BlockBytes(disk, b)| == PAGE
    ensures BlockBytes(Written(disk, b, data), c) ==
            if c == b then data + BlockBytes(disk, b)[|data|..] else BlockBytes(disk, c)
  {
    if c.part == b.part && c.off != b.off && InRange(disk, c) {
      SpliceOther(disk[b.part], b.off, PAGE * b.off, data, c.off);
    }
  }

  /** Writing to the block of one page changes no other page. */
  lemma {:induction false} WrittenPages(led: Ledger, disk: seq<seq<byte>>, i: nat, p: nat, b: Block, data: seq<byte>)
    requires led.Consistent() && led.Holds(i, p, b) && InRange(disk, b) && |data| <= PAGE
    ensures |BlockBytes(disk, b)| == PAGE
    ensures BytesOf(led, Written(disk, b, data), i, p) == data + BlockBytes(disk, b)[|data|..]
    ensures SameBytes(led, disk, led, Written(disk, b, data), i, p)
  {
    hide Written, BlockBytes;
    WrittenBlock(disk, b, data, b);
    forall j: nat, q: nat | j != i || q != p
      ensures BytesOf(led, Written(disk, b, data), j, q) == BytesOf(led, disk, j, q)
    {
      assert led.SameOwner(j, q, i, p);
      if led.SlotOf(j, q).Some? { WrittenBlock(disk, b, data, led.SlotOf(j, q).value); }
    }
  }

  /** Every page but (i, p) keeps its bytes. */
  ghost predicate SameBytes(led: Ledger, disk: seq<seq<byte>>, led': Ledger, disk': seq<seq<byte>>, i: nat, p: nat)
  {
    forall j, q :: (j != i || q != p) ==> BytesOf(led', disk', j, q) == BytesOf(led, disk, j, q)
  }

  lemma {:induction false} AssignedBytes(led: Ledger, disk: seq<seq<byte>>, i: nat, p: nat, v: Slot, now: Ledger)
    requires led.Assigned(i, p, v, now)
    ensures now.SlotOf(i, p) == v && SameBytes(led, disk, now, disk, i, p)
  {
    forall j: nat, q: nat | j != i || q != p ensures BytesOf(now, disk, j, q) == BytesOf(led, disk, j, q) {
      assert now.SlotOf(j, q) == led.SlotOf(j, q);
    }
  }

  /** How much pager_move_page moves between partitions of these block sizes. */
  function MoveSize(from: nat, to: nat): (n: nat)
    ensures n <= PAGE
  {
    Min(Min(PAGE, from), to)
  }

  /** A list of partitions with one more partition at place i. */
  lemma {:induction false} PartitionAdded(led: Ledger, disk: seq<seq<byte>>, now: Ledger, disk': seq<seq<byte>>, i: nat)
    requires led.Consistent() && |led.used| == |disk| <= |disk'| == |now.used| && now.slots == led.slots
    requires now.loose == led.loose
    requires i < |led.used| ==> led.used[i] == {}
    requires forall k :: 0 <= k < |now.used| ==> now.used[k] == if k < |led.used| then led.used[k] else {}
    requires forall k :: 0 <= k < |disk| && k != i ==> disk'[k] == disk[k]
    ensures now.Consistent() && forall b :: now.Allocated(b) <==> led.Allocated(b)
    ensures forall j, q :: BytesOf(now, disk', j, q) == BytesOf(led, disk, j, q)
  {
    hide Ledger.Consistent;
    led.Repartition(now.used);
    assert now == led.(used := now.used);
    forall j: nat, q: nat ensures BytesOf(now, disk', j, q) == BytesOf(led, disk, j, q) {
      if led.SlotOf(j, q).Some? { led.SlotHeld(j, q); }
    }
  }

  /** What the new block holds after pager_move_page: the page, over what the block held. */
  function Landed(page: seq<byte>, was: seq<byte>, from: nat, to: nat): seq<byte>
    requires |page| == |was| == PAGE
  {
    page[..MoveSize(from, to)] + was[MoveSize(from, to)..]
  }

  lemma {:induction false} MovedBytes(disk: seq<seq<byte>>, b: Block, c: Block, from: nat, to: nat)
    requires InRange(disk, b) && InRange(disk, c)
    ensures |BlockBytes(disk, b)| == |BlockBytes(disk, c)| == PAGE
    ensures var data := BlockBytes(disk, b)[..Min(PAGE, from)];
            data[..Min(|data|, to)] == BlockBytes(disk, b)[..MoveSize(from, to)]
    ensures BlockBytes(Written(disk, c, BlockBytes(disk, b)[..MoveSize(from, to)]), c) ==
            Landed(BlockBytes(disk, b), BlockBytes(disk, c), from, to)
  {
    hide Written, BlockBytes;
    WrittenBlock(disk, b, [], b);
    WrittenBlock(disk, c, BlockBytes(disk, b)[..MoveSize(from, to)], c);
  }

  // ----- moves -----

  /** Page p of object i goes from one block to another. */
  datatype Move = Move(i: nat, p: nat, from: Block, to: Block)

  /** The block size of partition k, from the list of block sizes. */
  function SizeAt(bs: seq<nat>, k: nat): nat
  {
    if k < |bs| then bs[k] else 0
  }

  function AfterMove(disk: seq<seq<byte>>, bs: seq<nat>, m: Move): seq<seq<byte>>
  {
    if InRange(disk, m.from) && InRange(disk, m.to) then
      Written(disk, m.to, BlockBytes(disk, m.from)[..MoveSize(SizeAt(bs, m.from.part), SizeAt(bs, m.to.part))])
    else disk
  }

  /** The disks after a number of moves. */
  function AfterMoves(disk: seq<seq<byte>>, bs: seq<nat>, ms: seq<Move>): seq<seq<byte>>
  {
    if ms == [] then disk else AfterMove(AfterMoves(disk, bs, ms[..|ms| - 1]), bs, ms[|ms| - 1])
  }

  predicate SameShape(disk: seq<seq<byte>>, disk': seq<seq<byte>>)
  {
    |disk'| == |disk| && forall k :: 0 <= k < |disk| ==> |disk'[k]| == |disk[k]|
  }

  /** A move out of partition d between blocks that exist. */
  predicate MoveOK(disk: seq<seq<byte>>, d: nat, m: Move)
  {
    m.from.part == d && m.to.part != d && InRange(disk, m.from) && InRange(disk, m.to)
  }

  ghost predicate MovesOK(disk: seq<seq<byte>>, d: nat, ms: seq<Move>)
  {
    && (forall n :: 0 <= n < |ms| ==> MoveOK(disk, d, ms[n]))
    && (forall a, b :: 0 <= a < b < |ms| ==> ms[a].to != ms[b].to)
  }

  lemma {:induction false} ShapeKept(disk: seq<seq<byte>>, bs: seq<nat>, ms: seq<Move>)
    ensures SameShape(disk, AfterMoves(disk, bs, ms))
  {
    hide BlockBytes;
    if ms != [] {
      var disk1, m := AfterMoves(disk, bs, ms[..|ms| - 1]), ms[|ms| - 1];
      ShapeKept(disk, bs, ms[..|ms| - 1]);
      if InRange(disk1, m.from) && InRange(disk1, m.to) { WrittenBlock(disk1, m.from, [], m.from); }
    }
  }

  /** What moves leave in block x: the page that was moved to it, over what it held. */
  function MovedTo(disk: seq<seq<byte>>, bs: seq<nat>, m: Move): seq<byte>
    requires InRange(disk, m.from) && InRange(disk, m.to)
  {
    MovedBytes(disk, m.from, m.to, 0, 0);
    Landed(BlockBytes(disk, m.from), BlockBytes(disk, m.to), SizeAt(bs, m.from.part), SizeAt(bs, m.to.part))
  }

  lemma {:induction false} AfterMovesAt(disk: seq<seq<byte>>, bs: seq<nat>, d: nat, ms: seq<Move>, x: Block)
    requires MovesOK(disk, d, ms)
    ensures (forall n :: 0 <= n < |ms| ==> ms[n].to != x) ==>
      BlockBytes(AfterMoves(disk, bs, ms), x) == BlockBytes(disk, x)
    ensures forall n :: 0 <= n < |ms| && ms[n].to == x ==>
      BlockBytes(AfterMoves(disk, bs, ms), x) == MovedTo(disk, bs, ms[n])
  {
    hide BlockBytes, Written, Landed;
    if ms != [] {
      var k := |ms| - 1;
      var ms1, m := ms[..k], ms[k];
      var disk1 := AfterMoves(disk, bs, ms1);
      ShapeKept(disk, bs, ms1);
      AfterMovesAt(disk, bs, d, ms1, x);
      AfterMovesAt(disk, bs, d, ms1, m.from);
      AfterMovesAt(disk, bs, d, ms1, m.to);
      assert InRange(disk1, m.from) && InRange(disk1, m.to) && MoveOK(disk, d, m);
      assert forall n :: 0 <= n < k ==> MoveOK(disk, d, ms1[n]) && ms1[n].to != m.to && ms1[n].to != m.from;
      MovedBytes(disk1, m.from, m.to, SizeAt(bs, m.from.part), SizeAt(bs, m.to.part));
      var n := MoveSize(SizeAt(bs, m.from.part), SizeAt(bs, m.to.part));
      WrittenBlock(disk1, m.to, BlockBytes(disk1, m.from)[..n], x);
    }
  }

  predicate IsMoved(ms: seq<Move>, j: nat, q: nat)
  {
    exists n :: 0 <= n < |ms| && ms[n].i == j && ms[n].p == q
  }

  predicate SlotMoved(led: Ledger, now: Ledger, m: Move)
  {
    led.SlotOf(m.i, m.p) == Some(m.from) && now.SlotOf(m.i, m.p) == Some(m.to)
  }

  ghost predicate SlotKept(led: Ledger, now: Ledger, ms: seq<Move>, j: nat, q: nat)
  {
    (now.IsSlot(j, q) <==> led.IsSlot(j, q)) && (now.SlotOf(j, q) == led.SlotOf(j, q) || IsMoved(ms, j, q))
  }

  /** Blocks are taken outside partition d and given back in it. */
  ghost predicate UsedMoved(led: Ledger, now: Ledger, d: nat)
  {
    |now.used| == |led.used| &&
    forall k :: 0 <= k < |led.used| ==> if k == d then now.used[k] <= led.used[k] else led.used[k] <= now.used[k]
  }

  /** From led to now exactly the pages in ms have moved, each out of partition d. */
  ghost predicate Moved(led: Ledger, now: Ledger, disk: seq<seq<byte>>, d: nat, ms: seq<Move>)
  {
    && |now.slots| == |led.slots| && now.loose == led.loose && UsedMoved(led, now, d) && MovesOK(disk, d, ms)
    && (forall n :: 0 <= n < |ms| ==> SlotMoved(led, now, ms[n]))
    && (forall j: nat, q: nat :: SlotKept(led, now, ms, j, q))
  }

  lemma {:induction false} MovedNone(led: Ledger, disk: seq<seq<byte>>, d: nat)
    ensures Moved(led, led, disk, d, [])
  {
    forall j: nat, q: nat ensures SlotKept(led, led, [], j, q) {
    }
  }

  lemma {:induction false} NoMoves(disk: seq<seq<byte>>, bs: seq<nat>)
    ensures AfterMoves(disk, bs, []) == disk
  {
  }

  lemma {:induction false} OneMoreMove(disk: seq<seq<byte>>, bs: seq<nat>, ms: seq<Move>, m: Move)
    ensures AfterMoves(disk, bs, ms + [m]) == AfterMove(AfterMoves(disk, bs, ms), bs, m)
  {
    assert (ms + [m])[..|ms|] == ms;
  }

  /** Taking partition d out changes no slot. */
  lemma {:induction false} MovedOut(led: Ledger, now: Ledger, disk: seq<seq<byte>>, d: nat, ms: seq<Move>)
    requires Moved(led, now, disk, d, ms) && d < |now.used|
    ensures Moved(led, now.(used := now.used[d := {}]), disk, d, ms)
  {
    var now' := now.(used := now.used[d := {}]);
    forall n | 0 <= n < |ms| ensures SlotMoved(led, now', ms[n]) {
      assert SlotMoved(led, now, ms[n]);
    }
    forall j: nat, q: nat ensures SlotKept(led, now', ms, j, q) {
      assert SlotKept(led, now, ms, j, q);
    }
  }

  /** One more page moves. */
  lemma {:induction false} MovedOn(led: Ledger, now: Ledger, disk: seq<seq<byte>>, d: nat, ms: seq<Move>, i: nat,
                                   p: nat, c: Block)
    requires Moved(led, now, disk, d, ms) && now.Consistent()
    requires now.SlotOf(i, p).Some? && now.SlotOf(i, p).value.part == d && c.part != d
    requires c.part < |now.used| && !now.Allocated(c) && InRange(disk, now.SlotOf(i, p).value) && InRange(disk, c)
    ensures Moved(led, now.Relocated(i, p, c), disk, d, ms + [Move(i, p, now.SlotOf(i, p).value, c)])
  {
    hide Ledger.Consistent, InRange;
    var b := now.SlotOf(i, p).value;
    var m := Move(i, p, b, c);
    var ms', now' := ms + [m], now.Relocated(i, p, c);
    now.SlotHeld(i, p);
    assert SlotKept(led, now, ms, i, p);
    forall n | 0 <= n < |ms| ensures SlotMoved(led, now', ms'[n]) && ms[n].to != c && (ms[n].i != i || ms[n].p != p) {
      assert SlotMoved(led, now, ms[n]) && MoveOK(disk, d, ms[n]);
      now.SlotHeld(ms[n].i, ms[n].p);
      assert now'.SlotOf(ms[n].i, ms[n].p) == now.SlotOf(ms[n].i, ms[n].p);
    }
    forall j: nat, q: nat ensures SlotKept(led, now', ms', j, q) {
      assert SlotKept(led, now, ms, j, q);
      if j == i && q == p {
        assert ms'[|ms|] == m;
      } else {
        assert now'.SlotOf(j, q) == now.SlotOf(j, q);
        if n :| 0 <= n < |ms| && ms[n].i == j && ms[n].p == q { assert ms'[n] == ms[n]; }
      }
    }
  }

  /** Every page that did not move keeps its bytes, and every page that did holds what moves leave. */
  lemma {:induction false} MovedPage(led: Ledger, now: Ledger, disk: seq<seq<byte>>, bs: seq<nat>, d: nat,
                                     ms: seq<Move>, j: nat, q: nat)
    requires Moved(led, now, disk, d, ms) && now.Consistent()
    ensures !IsMoved(ms, j, q) ==> BytesOf(now, AfterMoves(disk, bs, ms), j, q) == BytesOf(led, disk, j, q)
    ensures forall n :: 0 <= n < |ms| && ms[n].i == j && ms[n].p == q ==>
      BytesOf(now, AfterMoves(disk, bs, ms), j, q) == MovedTo(disk, bs, ms[n])
  {
    hide BlockBytes, MovedTo, AfterMoves;
    assert SlotKept(led, now, ms, j, q);
    if now.SlotOf(j, q).Some? {
      var x := now.SlotOf(j, q).value;
      AfterMovesAt(disk, bs, d, ms, x);
      if !IsMoved(ms, j, q) {
        forall n | 0 <= n < |ms| ensures ms[n].to != x {
          assert SlotMoved(led, now, ms[n]);
          assert now.SameOwner(j, q, ms[n].i, ms[n].p);
        }
      }
    }
    forall n | 0 <= n < |ms| && ms[n].i == j && ms[n].p == q
      ensures BytesOf(now, AfterMoves(disk, bs, ms), j, q) == MovedTo(disk, bs, ms[n])
    {
      assert SlotMoved(led, now, ms[n]);
    }
  }

  /** Every page keeps all its bytes, with these contents of the disks. */
  ghost predicate AllKept(led: Ledger, now: Ledger, disk: seq<seq<byte>>, bs: seq<nat>, ms: seq<Move>)
  {
    forall j, q :: BytesOf(now, AfterMoves(disk, bs, ms), j, q) == BytesOf(led, disk, j, q)
  }

  /** The departing partition and those its pages go to move a page in one piece. */
  predicate WholeMoves(bs: seq<nat>, ms: seq<Move>)
  {
    forall n :: 0 <= n < |ms| ==> SizeAt(bs, ms[n].from.part) >= PAGE && SizeAt(bs, ms[n].to.part) >= PAGE
  }

  lemma {:induction false} WholeMovesKeep(led: Ledger, now: Ledger, disk: seq<seq<byte>>, bs: seq<nat>, d: nat,
                                          ms: seq<Move>)
    requires Moved(led, now, disk, d, ms) && now.Consistent() && WholeMoves(bs, ms)
    ensures AllKept(led, now, disk, bs, ms)
  {
    hide BlockBytes, Ledger.Consistent, AfterMoves;
    forall j: nat, q: nat ensures BytesOf(now, AfterMoves(disk, bs, ms), j, q) == BytesOf(led, disk, j, q) {
      MovedPage(led, now, disk, bs, d, ms, j, q);
      if n :| 0 <= n < |ms| && ms[n].i == j && ms[n].p == q {
        assert SlotMoved(led, now, ms[n]) && MoveOK(disk, d, ms[n]);
        MovedBytes(disk, ms[n].from, ms[n].to, 0, 0);
        var page := BlockBytes(disk, ms[n].from);
        assert page[..PAGE] == page;
      }
    }
  }

  /** Disks with all bytes zero but those of block b, which are one. */
  function OneBlock(disk: seq<seq<byte>>, b: Block): (r: seq<seq<byte>>)
    requires InRange(disk, b)
    ensures SameShape(disk, r)
  {
    seq(|disk|, k requires 0 <= k < |disk| =>
      seq(|disk[k]|, x => if k == b.part && PAGE * b.off <= x < PAGE * (b.off + 1) then 1 else 0))
  }

  /** pager_realloc and the removal of a partition preserve every page, whatever the disks hold, if
      and only if the departing partition and every partition its pages went to move a page in one
      piece. */
  lemma {:induction false} MovesKeepIff(led: Ledger, now: Ledger, disk: seq<seq<byte>>, bs: seq<nat>, d: nat,
                                        ms: seq<Move>)
    requires Moved(led, now, disk, d, ms) && now.Consistent()
    ensures WholeMoves(bs, ms) <==> forall disk' :: SameShape(disk, disk') ==> AllKept(led, now, disk', bs, ms)
  {
    hide BlockBytes, Ledger.Consistent, AfterMoves, OneBlock, Landed;
    forall disk' | SameShape(disk, disk') ensures Moved(led, now, disk', d, ms) {
      forall n | 0 <= n < |ms| ensures MoveOK(disk', d, ms[n]) {
        assert MoveOK(disk, d, ms[n]);
      }
    }
    if WholeMoves(bs, ms) {
      forall disk' | SameShape(disk, disk') ensures AllKept(led, now, disk', bs, ms) {
        WholeMovesKeep(led, now, disk', bs, d, ms);
      }
    } else {
      var n :| 0 <= n < |ms| && !(SizeAt(bs, ms[n].from.part) >= PAGE && SizeAt(bs, ms[n].to.part) >= PAGE);
      var m := ms[n];
      assert MoveOK(disk, d, m) && SlotMoved(led, now, m);
      var disk' := OneBlock(disk, m.from);
      assert MoveOK(disk', d, m);
      MovedPage(led, now, disk', bs, d, ms, m.i, m.p);
      OneBlockMoved(disk, bs, m);
      assert BytesOf(led, disk', m.i, m.p) == BlockBytes(disk', m.from);
    }
  }

  lemma {:induction false} OneBlockMoved(disk: seq<seq<byte>>, bs: seq<nat>, m: Move)
    requires InRange(disk, m.from) && InRange(disk, m.to) && m.from.part != m.to.part
    requires !(SizeAt(bs, m.from.part) >= PAGE && SizeAt(bs, m.to.part) >= PAGE)
    ensures MovedTo(OneBlock(disk, m.from), bs, m) != BlockBytes(OneBlock(disk, m.from), m.from)
  {
    var disk' := OneBlock(disk, m.from);
    var page, was := BlockBytes(disk', m.from), BlockBytes(disk', m.to);
    assert page[PAGE - 1] == 1 && was[PAGE - 1] == 0;
    assert MovedTo(disk', bs, m)[PAGE - 1] == 0;
  }
}
