/** What a run of the default pager may do, as seen from outside: where each page is, what the disks
    hold, and how far requests are. Every place where a request drops a lock is a step. The runs of the
    pager are shown to be such runs in PagerRuns; here is what follows for the pages. */
module PageStore {
  import opened Bits
  import opened BlockMap
  import opened FileDirect
  import opened Partition
  import opened PageMap
  import opened PageBytes

  /** A paging partition: its name, how much it moves in one call, its blocks. */
  datatype Vol = Vol(id: nat, bsize: nat, total: nat)

  datatype Abs = Abs(
    at: seq<map<int, Block>>,   // where the pages of each object are
    sizes: seq<nat>,            // the pages each object has room for in its map
    loose: set<Block>,          // blocks between the two halves of a release
    disk: seq<seq<byte>>,
    listed: seq<bool>,          // objects that have not ended
    vols: map<nat, Vol>,        // the partitions by place
    rooms: set<nat>,            // those where a page can be allocated
    departing: nat,
    scanned: nat)
  {
    /** The bytes of page p of object i. */
    function Bytes(i: nat, p: nat): seq<byte>
    {
      if i < |at| && p in at[i] then BlockBytes(disk, at[i][p]) else []
    }

    predicate Has(i: nat, p: nat)
    {
      i < |at| && p in at[i]
    }

    predicate Serving(i: nat)
    {
      i < |at| && i < |listed| && listed[i]
    }

    predicate Exists(b: Block)
    {
      b.part in vols && b.off < vols[b.part].total && InRange(disk, b)
    }

    ghost predicate PageSane(i: nat, p: nat)
    {
      Has(i, p) ==> Exists(at[i][p]) && at[i][p] !in loose && i < |sizes| && p < sizes[i]
    }

    ghost predicate OneOwner(i: nat, p: nat, j: nat, q: nat)
    {
      Has(i, p) && Has(j, q) && at[i][p] == at[j][q] ==> i == j && p == q
    }

    /** Pages are in blocks that exist, no two in the same one and none in a loose one. */
    ghost predicate Sane()
    {
      && |listed| == |sizes| == |at|
      && (forall i: nat, p: nat :: PageSane(i, p))
      && (forall i: nat, p: nat, j: nat, q: nat :: OneOwner(i, p, j, q))
      && (forall b :: b in loose ==> Exists(b)) && (forall b :: OnDisk(b))
    }

    ghost predicate OnDisk(b: Block)
    {
      b.part in vols && b.off < vols[b.part].total ==> InRange(disk, b)
    }

    function Put(i: nat, p: nat, b: Block): Abs
      requires i < |at|
    {
      this.(at := at[i := at[i][p := b]])
    }

    /** Emptying the slot of page p. */
    function Loosen(i: nat, p: nat): Abs
      requires Has(i, p)
    {
      this.(at := at[i := at[i] - {p}], loose := loose + {at[i][p]})
    }

    function GiveBack(b: Block): Abs
    {
      this.(loose := loose - {b}, rooms := if b.part != departing then rooms + {b.part} else rooms)
    }

    function Drop(i: nat, p: nat): Abs
      requires Has(i, p)
    {
      Loosen(i, p).GiveBack(at[i][p])
    }
  }

  /** How far a request is. */
  datatype Pending =
    | Idle
    | Extending(i: nat, p: nat, data: seq<byte>)             // has seen a size that is too small
    | Extended(i: nat, p: nat, data: seq<byte>)              // about to look at the size again
    | Found(i: nat, p: nat, b: Block, data: seq<byte>)       // default_write knows the block
    | Writing(i: nat, p: nat, b: Block, data: seq<byte>)     // and its partition
    | Sought(i: nat, p: nat, b: Block, deallocate: bool)     // default_read knows the block
    | Reading(i: nat, p: nat, b: Block, deallocate: bool)    // and its partition
    | Releasing(i: nat, p: nat)                              // about to empty the slot
    | Freeing(i: nat, p: nat, b: Block)                      // about to give back the block
    | Orphan(i: nat, p: nat)                                 // its partition is gone
  {
    predicate On(o: nat)
    {
      !Idle? && i == o
    }

    predicate Uses(o: nat, q: nat)
    {
      On(o) && p == q
    }

    /** It waits for a page that is there. */
    predicate Located()
    {
      Found? || Writing? || Sought? || Reading? || Releasing? || Orphan?
    }

    predicate Bound()
    {
      Writing? || Reading?
    }

    /** It has looked up a block and not made its transfer. */
    predicate HasBlock()
    {
      Found? || Writing? || Sought? || Reading?
    }

    predicate At(k: nat)
    {
      Bound() && b.part == k
    }

    predicate SizeOK()
    {
      Extending? || Extended? || Found? || Writing? ==> |data| == PAGE
    }
  }

  datatype State = State(a: Abs, pend: seq<Pending>) {
    predicate Busy(i: nat)
    {
      exists n :: 0 <= n < |pend| && pend[n].On(i)
    }

    predicate BusyPage(i: nat, p: nat)
    {
      exists n :: 0 <= n < |pend| && pend[n].Uses(i, p)
    }

    ghost predicate PendOK(n: nat)
    {
      n < |pend| && !pend[n].Idle? ==>
        && a.Serving(pend[n].i) && (a.Has(pend[n].i, pend[n].p) <==> pend[n].Located())
        && (pend[n].Bound() ==> a.Exists(pend[n].b)) && (pend[n].Freeing? ==> pend[n].b in a.loose) && pend[n].SizeOK()
    }

    ghost predicate Apart(m: nat, n: nat)
    {
      m < n < |pend| && !pend[m].Idle? ==>
        && !pend[n].Uses(pend[m].i, pend[m].p)
        && (pend[m].Freeing? && pend[n].Freeing? ==> pend[m].b != pend[n].b)
    }

    ghost predicate FreedBy(b: Block)
    {
      b in a.loose ==> exists n: nat :: n < |pend| && pend[n].Freeing? && pend[n].b == b
    }

    /** Requests wait for pages that are there, each for its own, and loose blocks are those that
        requests are about to give back. */
    ghost predicate Good()
    {
      && a.Sane() && (forall n: nat :: PendOK(n)) && (forall m: nat, n: nat :: Apart(m, n))
      && (forall b :: FreedBy(b))
    }
  }

  datatype Op =
    | AddPartition(bytes: nat, id: nat, fd: Direct, dev: seq<byte>)
    | AddObject(bytes: nat, part: nat)                // with the partition chosen for it before
    | ListDelete(i: nat)                              // no_senders: off the list
    | FreePage(i: nat, p: nat)                        // no_senders: pager_dealloc, one page
    | HasPage(i: nat, p: nat)
    | WritePage(i: nat, p: nat, data: seq<byte>)      // default_write, up to its first unlock
    | ReadPage(i: nat, p: nat, deallocate: bool)      // default_read: the lookup
    | Finish(n: nat)                                  // the next step of pending request n
    | DestroyBegin(id: nat)
    | DestroyStep
    | DestroyRestart

  datatype Reply =
    | Refused                 // not a request that a client or the kernel makes
    | Done
    | Failed
    | Begun
    | Growing                 // the object is to be extended
    | Missing
    | Present(yes: bool)
    | Page(bytes: seq<byte>)
    | Crash                   // a transfer to a partition that is gone
    | Scanned
    | Aborted
    | Gone
    | Dangling                // the partition is gone with blocks that are still in use
    | Shrunk                  // an object has been made smaller

  predicate GoodFile(bytes: nat, fd: Direct, dev: seq<byte>)
  {
    && bytes < 0x1_0000_0000 && fd.Fits(dev) && PAGE * (bytes / PAGE) <= Shl(fd.Size(), fd.bshift)
    && forall k :: 0 <= k < |fd.blocks| ==> !fd.Hole(k)
  }

  /** Requests that the pager is not sent: higher levels keep requests for one page apart, and send
      none to an object that has ended or, but for writes, for a page past its end. */
  predicate Refusal(st: State, op: Op)
  {
    match op
    case AddPartition(bytes, id, fd, dev) =>
      !GoodFile(bytes, fd, dev) || forall k: nat :: k < NO_PART ==> k in st.a.vols
    case AddObject(_, part) => part > NO_PART
    case ListDelete(i) => !st.a.Serving(i) || st.Busy(i)
    case FreePage(i, p) => i >= |st.a.listed| || st.a.listed[i] || !st.a.Has(i, p)
    case HasPage(i, p) => !st.a.Serving(i) || st.BusyPage(i, p) || i >= |st.a.sizes| || p >= st.a.sizes[i]
    case WritePage(i, p, data) => !st.a.Serving(i) || st.BusyPage(i, p) || |data| != PAGE
    case ReadPage(i, p, _) => !st.a.Serving(i) || st.BusyPage(i, p) || i >= |st.a.sizes| || p >= st.a.sizes[i]
    case Finish(n) => n >= |st.pend| || st.pend[n].Idle?
    case DestroyBegin(_) => st.a.departing != NO_PART
    case _ => st.a.departing == NO_PART
  }

  /** A place that may never have had a partition. */
  predicate NoPlace(a: Abs, op: Op)
  {
    op.AddObject? && op.part != NO_PART && op.part !in a.vols
  }

  /** The blocks of all partitions hold what they held. */
  ghost predicate SameBlocks(a: Abs, a': Abs)
  {
    forall b: Block :: b.part in a.vols ==> BlockBytes(a'.disk, b) == BlockBytes(a.disk, b)
  }

  ghost predicate PartitionAt(a: Abs, k: nat, v: Vol, a': Abs)
  {
    && k < NO_PART && k !in a.vols && SameBlocks(a, a')
    && a' == a.(vols := a.vols[k := v], rooms := if v.total > 0 then a.rooms + {k} else a.rooms, disk := a'.disk)
  }

  ghost predicate ObjectAdded(a: Abs, bytes: nat, a': Abs)
  {
    && |a'.sizes| == |a.sizes| + 1 && a'.sizes[|a.sizes|] >= bytes / PAGE
    && a' == a.(at := a.at + [map[]], sizes := a.sizes + [a'.sizes[|a.sizes|]], listed := a.listed + [true],
                scanned := if a.scanned == |a.at| then a.scanned + 1 else a.scanned)
  }

  /** A page without a block gets one where there is room. */
  ghost predicate Assigned(a: Abs, i: nat, p: nat, b: Block, a': Abs)
  {
    if a.Has(i, p) then a' == a && b == a.at[i][p]
    else && i < |a.at| && b.part in a.rooms && a.rooms - {b.part} <= a'.rooms <= a.rooms
         && a' == a.Put(i, p, b).(rooms := a'.rooms)
  }

  /** pager_write_offset under its lock: it is to extend the object, fails, or has the block. */
  ghost predicate Looked(a: Abs, i: nat, p: nat, data: seq<byte>, r: Reply, a': Abs, q: Pending)
  {
    && i < |a.sizes|
    && if p >= a.sizes[i] then r == Growing && a' == a && q == Extending(i, p, data)
       else if !a.Has(i, p) && a.rooms == {} then r == Failed && a' == a && q == Idle
       else r == Begun && q.Found? && q == Found(i, p, q.b, data) && Assigned(a, i, p, q.b, a')
  }

  /** Finding the partition of a block: it may have gone since, and another may have its place. */
  ghost predicate Binds(a: Abs, q: Pending, bound: Pending, r: Reply, a': Abs, q': Pending)
    requires q.HasBlock()
  {
    a' == a &&
    if q.b.part !in a.vols then r == Crash && q' == q
    else if q.b.off >= a.vols[q.b.part].total then r == Failed && q' == Idle
    else r == Begun && q' == bound
  }

  /** The next step of a pending request. */
  ghost predicate Finished(a: Abs, q: Pending, r: Reply, a': Abs, q': Pending)
  {
    match q
    case Idle => false
    case Extending(i, p, data) =>
      && i < |a.sizes| == |a'.sizes| && !Shrinks(a.sizes[i], p + 1) && r == Growing && q' == Extended(i, p, data)
      && p < a'.sizes[i] && a.sizes[i] <= a'.sizes[i] && a' == a.(sizes := a.sizes[i := a'.sizes[i]])
    case Extended(i, p, data) => Looked(a, i, p, data, r, a', q')
    case Found(i, p, b, data) => Binds(a, q, Writing(i, p, b, data), r, a', q')
    case Writing(i, p, b, data) =>
      r == Done && q' == Idle && InRange(a.disk, b) && |data| == PAGE && a' == a.(disk := Written(a.disk, b, data))
    case Sought(i, p, b, deallocate) => Binds(a, q, Reading(i, p, b, deallocate), r, a', q')
    case Reading(i, p, b, deallocate) =>
      r == Page(BlockBytes(a.disk, b)) && q' == (if deallocate then Releasing(i, p) else Idle) && a' == a
    case Releasing(i, p) => a.Has(i, p) && r == Begun && a' == a.Loosen(i, p) && q' == Freeing(i, p, a.at[i][p])
    case Freeing(i, p, b) => r == Done && q' == Idle && a' == a.GiveBack(b)
    case Orphan(_, _) => r == Crash && q' == q && a' == a
  }

  /** Some partition is called id. */
  predicate Named(a: Abs, id: nat)
  {
    exists k :: k in a.vols && a.vols[k].id == id
  }

  ghost predicate Marked(a: Abs, id: nat, a': Abs)
  {
    && a'.departing in a.vols && a'.departing < NO_PART && a.vols[a'.departing].id == id
    && (forall k :: k in a.vols && a.vols[k].id == id ==> a'.departing <= k)
    && a' == a.(departing := a'.departing, scanned := 0, rooms := a.rooms - {a'.departing})
  }

  predicate MovesWhole(a: Abs, k: nat)
  {
    k in a.vols && a.vols[k].bsize >= PAGE
  }

  /** A scan moves only pages of the scanned object out of the departing partition. A page keeps its
      bytes if it is not moved, or if both partitions move a page in one piece. */
  ghost predicate PageScanned(a: Abs, a': Abs, j: nat, q: nat)
  {
    && (a'.Has(j, q) <==> a.Has(j, q))
    && (a.Has(j, q) && a'.at[j][q] == a.at[j][q] ==> a'.Bytes(j, q) == a.Bytes(j, q))
    && (a.Has(j, q) && a'.at[j][q] != a.at[j][q] ==>
         && j == a.scanned && a.Serving(j) && a.at[j][q].part == a.departing != a'.at[j][q].part
         && (MovesWhole(a, a.departing) && MovesWhole(a, a'.at[j][q].part) ==> a'.Bytes(j, q) == a.Bytes(j, q)))
  }

  ghost predicate PagesScanned(a: Abs, a': Abs)
  {
    && |a'.at| == |a.at| && SameShape(a.disk, a'.disk)
    && (forall j: nat, q: nat :: PageScanned(a, a', j, q))
    && (forall b: Block :: b.part == a.departing ==> BlockBytes(a'.disk, b) == BlockBytes(a.disk, b))
  }

  predicate InPlaceOf(a: Abs, j: nat, q: nat, k: nat)
  {
    a.Has(j, q) && a.at[j][q].part == k
  }

  /** The next object of the scan. */
  ghost predicate ScanStep(a: Abs, r: Reply, a': Abs)
  {
    && PagesScanned(a, a')
    && if r == Scanned then
         && a' == a.(at := a'.at, disk := a'.disk, rooms := a'.rooms, scanned := a.scanned + 1) && a'.rooms <= a.rooms
         && (a.Serving(a.scanned) ==> forall q: nat :: !InPlaceOf(a', a.scanned, q, a.departing))
       else
         && r == Aborted && a'.rooms <= {a.departing}
         && (exists q: nat :: InPlaceOf(a', a.scanned, q, a.departing))
         && a' == a.(at := a'.at, disk := a'.disk, rooms := a'.rooms, departing := NO_PART)
  }

  /** An object off the list still has a page in partition k, or the release of a block of it is half
      done. */
  ghost predicate Stray(a: Abs, k: nat)
  {
    (exists j: nat, q: nat :: InPlaceOf(a, j, q, k) && !a.Serving(j)) || exists b :: b in a.loose && b.part == k
  }

  /** What the end of a partition does to requests that know it. */
  function Orphaned(pend: seq<Pending>, k: nat): (r: seq<Pending>)
    ensures |r| == |pend|
  {
    seq(|pend|, n requires 0 <= n < |pend| => if pend[n].At(k) then Orphan(pend[n].i, pend[n].p) else pend[n])
  }

  ghost predicate DestroyStepped(st: State, r: Reply, st': State)
  {
    var a, a' := st.a, st'.a;
    if a.scanned < |a.at| then st'.pend == st.pend && ScanStep(a, r, a')
    else
      && r == (if Stray(a, a.departing) then Dangling else Gone)
      && (r == Gone ==>
            st' == State(a.(vols := a.vols - {a.departing}, departing := NO_PART), Orphaned(st.pend, a.departing)))
  }

  /** The replies a request may get, and what each means. */
  ghost predicate Possible(st: State, op: Op, r: Reply, st': State)
  {
    var a, a', pend, pend' := st.a, st'.a, st.pend, st'.pend;
    if r == Refused then st' == st && (Refusal(st, op) || NoPlace(a, op))
    else
      && !Refusal(st, op)
      && match op
         case AddPartition(bytes, id, fd, dev) =>
           r == Done && pend' == pend && exists k: nat :: PartitionAt(a, k, Vol(id, fd.Bsize(), bytes / PAGE), a')
         case AddObject(bytes, _) => r == Done && pend' == pend && ObjectAdded(a, bytes, a')
         case ListDelete(i) => r == Done && i < |a.listed| && st' == State(a.(listed := a.listed[i := false]), pend)
         case FreePage(i, p) => r == Done && a.Has(i, p) && st' == State(a.Drop(i, p), pend)
         case HasPage(i, p) => r == Present(a.Has(i, p)) && st' == st
         case WritePage(i, p, data) =>
           || (r == Failed && !a.Has(i, p) && a.rooms == {} && st' == st)
           || (r != Failed && |pend'| == |pend| + 1 && pend' == pend + [pend'[|pend|]]
               && Looked(a, i, p, data, r, a', pend'[|pend|]))
         case ReadPage(i, p, deallocate) =>
           && a' == a
           && if a.Has(i, p) then r == Begun && pend' == pend + [Sought(i, p, a.at[i][p], deallocate)]
              else r == Missing && pend' == pend
         case Finish(n) =>
           && n < |pend| == |pend'| && pend' == pend[n := pend'[n]]
           && Finished(a, pend[n], r, a', pend'[n])
         case DestroyBegin(id) =>
           pend' == pend && if Named(a, id) then r == Done && Marked(a, id, a') else r == Failed && a' == a
         case DestroyStep => DestroyStepped(st, r, st')
         case DestroyRestart => r == Done && st' == State(a.(scanned := 0), pend)
  }

  /** The next step of request n extends an object that has grown beyond what it asks for. */
  predicate Shrinking(st: State, op: Op)
  {
    && op.Finish? && op.n < |st.pend| && st.pend[op.n].Extending?
    && st.pend[op.n].i < |st.a.sizes| && Shrinks(st.a.sizes[st.pend[op.n].i], st.pend[op.n].p + 1)
  }

  /** And the object has a page beyond that. */
  ghost predicate Drops(st: State, op: Op)
  {
    && op.Finish? && op.n < |st.pend| && st.pend[op.n].Extending?
    && exists q: nat :: q >= RoundUp(st.pend[op.n].p + 1) && st.a.Has(st.pend[op.n].i, q)
  }

  // ----- pending requests -----

  lemma {:induction false} RangeIs(disk: seq<seq<byte>>, b: Block)
    ensures InRange(disk, b) <==> |BlockBytes(disk, b)| == PAGE
  {
  }

  /** A page that is there stays there, where it was unless a scan has moved it; one that is not does
      not come. */
  ghost predicate Stays(a: Abs, op: Op, a': Abs, i: nat, p: nat)
  {
    && (a'.Has(i, p) <==> a.Has(i, p)) && a'.Serving(i)
    && (a.Has(i, p) ==> a'.at[i][p] == a.at[i][p] || (op.DestroyStep? && a.at[i][p].part == a.departing))
  }

  /** A step that leaves a request waiting leaves its page where it is, unless it is a scan that
      moves the page out of the departing partition. */
  lemma {:induction false} PageStays(st: State, op: Op, r: Reply, st': State, n: nat)
    requires st.Good() && Possible(st, op, r, st') && r != Dangling
    requires n < |st.pend| && !st.pend[n].Idle? && op != Finish(n)
    ensures Stays(st.a, op, st'.a, st.pend[n].i, st.pend[n].p)
  {
    hide BlockBytes, InRange, Written, GoodFile, Abs.Sane, Shrinks, State.FreedBy, Finished, DestroyStepped;
    var q := st.pend[n];
    assert st.PendOK(n);
    match op {
      case Finish(m) =>
        if r != Refused {
          assert st.Apart(m, n) && st.Apart(n, m) && st.PendOK(m);
          FinishStays(st.a, st.pend[m], r, st'.a, st'.pend[m], q.i, q.p);
        }
      case DestroyStep => if r != Refused { DestroyStays(st, r, st', q.i, q.p); }
      case _ =>
    }
  }

  lemma {:induction false} DestroyStays(st: State, r: Reply, st': State, i: nat, p: nat)
    requires DestroyStepped(st, r, st') && r != Dangling && st.a.Serving(i)
    ensures Stays(st.a, DestroyStep, st'.a, i, p)
  {
    hide BlockBytes, InRange;
    if st.a.scanned < |st.a.at| { assert PageScanned(st.a, st'.a, i, p); }
  }

  /** The steps of other requests. */
  lemma {:induction false} FinishStays(a: Abs, q: Pending, r: Reply, a': Abs, q': Pending, i: nat, p: nat)
    requires Finished(a, q, r, a', q') && !q.Uses(i, p) && a.Serving(i)
    ensures Stays(a, Finish(0), a', i, p)
  {
    hide BlockBytes, InRange, Written, Shrinks;
  }

  /** Blocks of partitions that stay are there. */
  lemma {:induction false} BlockStays(st: State, op: Op, r: Reply, st': State, b: Block)
    requires Possible(st, op, r, st') && r != Dangling && st.a.Exists(b)
    ensures st'.a.Exists(b) || (r == Gone && b.part == st.a.departing)
  {
    hide BlockBytes, Written, GoodFile, Abs.Sane, InRange, Shrinks;
    RangeIs(st.a.disk, b);
    RangeIs(st'.a.disk, b);
    match op {
      case Finish(n) =>
        if r != Refused && st.pend[n].Writing? {
          var q := st.pend[n];
          WrittenBlock(st.a.disk, q.b, q.data, b);
        }
      case DestroyStep =>
        if st.a.scanned < |st.a.at| && r != Refused { ShapeRange(st.a.disk, st'.a.disk, b); }
      case _ =>
    }
  }

  lemma {:induction false} ShapeRange(disk: seq<seq<byte>>, disk': seq<seq<byte>>, b: Block)
    requires SameShape(disk, disk')
    ensures InRange(disk, b) <==> InRange(disk', b)
  {
  }

  lemma {:induction false} Placed(a: Abs, i: nat, p: nat)
    requires a.Sane() && a.Has(i, p)
    ensures a.Exists(a.at[i][p]) && a.at[i][p] !in a.loose
  {
    assert a.PageSane(i, p);
  }

  /** Loose blocks of other requests stay loose. */
  lemma {:induction false} LooseStays(st: State, op: Op, r: Reply, st': State, n: nat)
    requires st.Good() && Possible(st, op, r, st') && r != Dangling
    requires n < |st.pend| && st.pend[n].Freeing? && op != Finish(n)
    ensures st.pend[n].b in st'.a.loose
  {
    hide BlockBytes, Written, GoodFile, InRange, Shrinks, ScanStep, Abs.OneOwner, Abs.Exists;
    assert st.PendOK(n);
    match op {
      case FreePage(i, p) => if r != Refused { Placed(st.a, i, p); }
      case Finish(m) =>
        if r != Refused {
          assert st.Apart(m, n) && st.Apart(n, m);
          FinishLoose(st.a, st.pend[m], r, st'.a, st'.pend[m], st.pend[n].b);
        }
      case DestroyStep => if st.a.scanned < |st.a.at| && r != Refused { ScanLoose(st.a, r, st'.a); }
      case _ =>
    }
  }

  lemma {:induction false} ScanLoose(a: Abs, r: Reply, a': Abs)
    requires ScanStep(a, r, a')
    ensures a'.loose == a.loose && r in {Scanned, Aborted}
  {
    hide PagesScanned;
  }

  lemma {:induction false} FinishLoose(a: Abs, q: Pending, r: Reply, a': Abs, q': Pending, b: Block)
    requires Finished(a, q, r, a', q') && b in a.loose && (q.Freeing? ==> q.b != b)
    ensures b in a'.loose
  {
    hide BlockBytes, InRange, Written, Shrinks;
  }

  /** A request after its own step. */
  lemma {:induction false} OwnStep(a: Abs, q: Pending, r: Reply, a': Abs, q': Pending)
    requires a.Sane() && a'.Sane() && Finished(a, q, r, a', q') && a.Serving(q.i) && q.SizeOK()
    requires (a.Has(q.i, q.p) <==> q.Located()) && (q.Bound() ==> a.Exists(q.b))
    ensures q'.Idle? || (q'.i == q.i && q'.p == q.p && a'.Serving(q.i) && q'.SizeOK())
    ensures !q'.Idle? ==> (a'.Has(q'.i, q'.p) <==> q'.Located())
    ensures (q'.Bound() ==> a'.Exists(q'.b)) && (q'.Freeing? ==> q'.b in a'.loose)
  {
    hide BlockBytes, Written, Shrinks, Abs.PageSane, Abs.OneOwner;
    match q {
      case Found(i, p, b, data) => Stored(a, b);
      case Sought(i, p, b, _) => Stored(a, b);
      case _ =>
    }
  }

  /** A block below the size of its partition is on its disk. */
  lemma {:induction false} Stored(a: Abs, b: Block)
    requires a.Sane()
    ensures b.part in a.vols && b.off < a.vols[b.part].total ==> a.Exists(b)
  {
    assert a.OnDisk(b);
  }

  lemma {:induction false} PendKept(st: State, op: Op, r: Reply, st': State, n: nat)
    requires st.Good() && Possible(st, op, r, st') && r != Dangling && st'.a.Sane()
    ensures st'.PendOK(n)
  {
    hide BlockBytes, Written, GoodFile, Abs.Sane, InRange, Shrinks, Looked, ScanStep, State.FreedBy, PartitionAt;
    if n < |st.pend| && !st.pend[n].Idle? {
      var q := st.pend[n];
      assert st.PendOK(n);
      if op != Finish(n) {
        SamePend(st, op, r, st', n);
        PageStays(st, op, r, st', n);
        if q.Bound() { BlockStays(st, op, r, st', q.b); }
        if q.Freeing? { LooseStays(st, op, r, st', n); }
      } else if r != Refused {
        OwnStep(st.a, q, r, st'.a, st'.pend[n]);
      }
    } else if n == |st.pend| && n < |st'.pend| {
      NewRequest(st, op, r, st');
    }
  }

  lemma {:induction false} NewRequest(st: State, op: Op, r: Reply, st': State)
    requires st.Good() && Possible(st, op, r, st') && |st'.pend| > |st.pend| && r != Dangling
    ensures st'.PendOK(|st.pend|)
  {
    hide BlockBytes, Written, GoodFile, InRange, Shrinks, ScanStep, State.FreedBy, Abs.OneOwner;
    if op.WritePage? && st.a.Has(op.i, op.p) { assert st.a.PageSane(op.i, op.p); }
  }

  /** What becomes of request n in one step. */
  ghost predicate Evolves(a: Abs, q: Pending, q': Pending)
  {
    && (q'.Idle? || (!q.Idle? && q'.i == q.i && q'.p == q.p))
    && (q'.Freeing? ==> q == q' || (q.Releasing? && a.Has(q.i, q.p) && q'.b == a.at[q.i][q.p]))
  }

  lemma {:induction false} SamePend(st: State, op: Op, r: Reply, st': State, n: nat)
    requires Possible(st, op, r, st') && r != Dangling && n < |st.pend|
    ensures n < |st'.pend| && Evolves(st.a, st.pend[n], st'.pend[n])
    ensures op != Finish(n) ==> st'.pend[n] == if r == Gone && st.pend[n].At(st.a.departing)
                                               then Orphan(st.pend[n].i, st.pend[n].p) else st.pend[n]
  {
    hide BlockBytes, Written, GoodFile, InRange, Shrinks, Assigned, ScanStep;
    if op.DestroyStep? && r != Refused && st.a.scanned < |st.a.at| { ScanLoose(st.a, r, st'.a); }
  }

  lemma {:induction false} ApartKept(st: State, op: Op, r: Reply, st': State, m: nat, n: nat)
    requires st.Good() && Possible(st, op, r, st') && r != Dangling
    ensures st'.Apart(m, n)
  {
    hide BlockBytes, Written, GoodFile, Abs.Sane, InRange, Shrinks, Assigned, ScanStep, State.FreedBy;
    assert st.Apart(m, n);
    if m < n < |st.pend| {
      assert st.PendOK(m) && st.PendOK(n);
      SamePend(st, op, r, st', m);
      SamePend(st, op, r, st', n);
      if st.pend[m].Releasing? { Placed(st.a, st.pend[m].i, st.pend[m].p); }
      if st.pend[n].Releasing? { Placed(st.a, st.pend[n].i, st.pend[n].p); }
      TwoReleases(st, op, r, st', m, n);
    } else if m < |st.pend| == n < |st'.pend| {
      SamePend(st, op, r, st', m);
    }
  }

  /** Two requests do not both take a step. */
  lemma {:induction false} TwoReleases(st: State, op: Op, r: Reply, st': State, m: nat, n: nat)
    requires Possible(st, op, r, st') && r != Dangling && m < n < |st.pend|
    ensures |st'.pend| >= |st.pend|
    ensures st'.pend[m].Freeing? && st'.pend[n].Freeing? ==> st.pend[m] == st'.pend[m] || st.pend[n] == st'.pend[n]
  {
    hide BlockBytes, Written, GoodFile, InRange, Shrinks, Assigned, ScanStep;
    SamePend(st, op, r, st', m);
    SamePend(st, op, r, st', n);
  }

  lemma {:induction false} FreedKept(st: State, op: Op, r: Reply, st': State, b: Block)
    requires st.Good() && Possible(st, op, r, st') && r != Dangling
    ensures st'.FreedBy(b)
  {
    hide BlockBytes, Written, GoodFile, Abs.Sane, InRange, Shrinks, Assigned, ScanStep, State.Apart, Looked;
    assert st.FreedBy(b);
    if b in st'.a.loose {
      if b in st.a.loose {
        var n: nat :| n < |st.pend| && st.pend[n].Freeing? && st.pend[n].b == b;
        SamePend(st, op, r, st', n);
        if op == Finish(n) && r != Refused { assert false; }
        assert st'.pend[n].Freeing? && st'.pend[n].b == b;
      } else {
        NewLoose(st, op, r, st', b);
      }
    }
  }

  lemma {:induction false} NewLoose(st: State, op: Op, r: Reply, st': State, b: Block)
    requires Possible(st, op, r, st') && r != Dangling && b in st'.a.loose && b !in st.a.loose
    ensures op.Finish? && op.n < |st'.pend| && st'.pend[op.n].Freeing? && st'.pend[op.n].b == b
  {
    hide BlockBytes, Written, GoodFile, InRange, Shrinks, ScanStep;
    if op.DestroyStep? && r != Refused && st.a.scanned < |st.a.at| { ScanLoose(st.a, r, st'.a); }
  }

  /** Every step keeps requests in order. */
  lemma {:induction false} GoodNext(st: State, op: Op, r: Reply, st': State)
    requires st.Good() && Possible(st, op, r, st') && r != Dangling && st'.a.Sane()
    ensures st'.Good()
  {
    hide Possible, State.PendOK, State.Apart, Abs.Sane, State.FreedBy;
    forall n: nat ensures st'.PendOK(n) {
      PendKept(st, op, r, st', n);
    }
    forall m: nat, n: nat ensures st'.Apart(m, n) {
      ApartKept(st, op, r, st', m, n);
    }
    forall b ensures st'.FreedBy(b) {
      FreedKept(st, op, r, st', b);
    }
  }

  // ----- one transfer -----

  /** A write through block b leaves the page holding the data, whatever the data, if and only if the
      page is still in that block. */
  lemma {:induction false} WriteLandsIff(a: Abs, i: nat, p: nat, b: Block)
    requires a.Has(i, p) && InRange(a.disk, b) && InRange(a.disk, a.at[i][p])
    ensures (forall data: seq<byte> :: |data| == PAGE ==> a.(disk := Written(a.disk, b, data)).Bytes(i, p) == data)
            <==> a.at[i][p] == b
  {
    hide BlockBytes, Written, InRange;
    var c := a.at[i][p];
    forall data: seq<byte> | |data| == PAGE
      ensures BlockBytes(Written(a.disk, b, data), c) == if c == b then data else BlockBytes(a.disk, c)
    {
      WrittenBlock(a.disk, b, data, c);
      assert data + BlockBytes(a.disk, b)[|data|..] == data;
    }
    if c != b {
      var data: seq<byte> := seq(PAGE, _ => if BlockBytes(a.disk, c) == seq(PAGE, _ => 0) then 1 else 0);
      assert data[0] == 1 ==> seq(PAGE, _ => 0 as byte)[0] != data[0];
      assert a.(disk := Written(a.disk, b, data)).Bytes(i, p) != data;
    }
  }

  /** Page (i, p) holds the data and no other page has changed. */
  ghost predicate OnlyWritten(a: Abs, i: nat, p: nat, data: seq<byte>, a': Abs)
  {
    a'.at == a.at && forall j: nat, q: nat :: a'.Bytes(j, q) == if j == i && q == p then data else a.Bytes(j, q)
  }

  lemma {:induction false} WriteMeets(a: Abs, i: nat, p: nat, data: seq<byte>)
    requires a.Sane() && a.Has(i, p) && |data| == PAGE
    ensures InRange(a.disk, a.at[i][p])
    ensures OnlyWritten(a, i, p, data, a.(disk := Written(a.disk, a.at[i][p], data)))
  {
    hide BlockBytes, Written, InRange, Abs.PageSane;
    Placed(a, i, p);
    var a' := a.(disk := Written(a.disk, a.at[i][p], data));
    forall j: nat, q: nat ensures a'.Bytes(j, q) == if j == i && q == p then data else a.Bytes(j, q) {
      if a.Has(j, q) {
        assert a.OneOwner(j, q, i, p);
        WrittenBlock(a.disk, a.at[i][p], data, a.at[j][q]);
        assert data + BlockBytes(a.disk, a.at[i][p])[|data|..] == data;
      }
    }
  }

  /** A write through a block that the page has left changes nothing about the page. */
  lemma {:induction false} WriteMisses(a: Abs, i: nat, p: nat, b: Block, data: seq<byte>)
    requires InRange(a.disk, b) && |data| == PAGE && a.Has(i, p) && a.at[i][p] != b
    ensures a.(disk := Written(a.disk, b, data)).Bytes(i, p) == a.Bytes(i, p)
  {
    hide BlockBytes, Written, InRange;
    WrittenBlock(a.disk, b, data, a.at[i][p]);
  }

  // ----- runs -----

  ghost predicate Trace(ops: seq<Op>, rs: seq<Reply>, tr: seq<State>)
  {
    && |rs| <= |ops| && |tr| == |rs| + 1
    && (forall n :: 0 <= n < |tr| ==> tr[n].Good())
    && (forall n :: 0 <= n < |rs| ==> Possible(tr[n], ops[n], rs[n], tr[n + 1]) && rs[n] != Dangling)
  }

  predicate MovedAt(tr: seq<State>, u: nat, i: nat, p: nat)
  {
    u + 1 < |tr| && tr[u].a.Has(i, p) && tr[u + 1].a.Has(i, p) && tr[u + 1].a.at[i][p] != tr[u].a.at[i][p]
  }

  /** How often page (i, p) changes its place from state s to state t. */
  function Moves(tr: seq<State>, s: nat, t: nat, i: nat, p: nat): nat
    requires s <= t
    decreases t
  {
    if t == s then 0 else Moves(tr, s, t - 1, i, p) + if MovedAt(tr, t - 1, i, p) then 1 else 0
  }

  /** The request once it knows the partition. */
  function BoundOf(q: Pending): Pending
  {
    match q
    case Found(i, p, b, data) => Writing(i, p, b, data)
    case Sought(i, p, b, deallocate) => Reading(i, p, b, deallocate)
    case _ => q
  }

  /** q is what was q0, before its transfer. */
  predicate Still(q0: Pending, q: Pending)
    requires !q0.Idle?
  {
    q == q0 || q == BoundOf(q0) || q == Orphan(q0.i, q0.p)
  }

  predicate Over(q: Pending)
  {
    q.Idle? || q.Releasing? || q.Freeing?
  }

  /** A request that has looked up its block goes on to its transfer, and does not come back. */
  lemma {:induction false} StillNext(st: State, op: Op, r: Reply, st': State, n: nat, q0: Pending)
    requires Possible(st, op, r, st') && r != Dangling && n < |st.pend| && q0.HasBlock()
    requires Still(q0, st.pend[n]) || Over(st.pend[n])
    ensures n < |st'.pend| && (Still(q0, st'.pend[n]) || Over(st'.pend[n]))
    ensures Over(st.pend[n]) ==> Over(st'.pend[n])
    ensures op == Finish(n) && Still(q0, st'.pend[n]) && !Over(st.pend[n]) ==>
      st'.a == st.a && st'.pend[n].HasBlock() == st.pend[n].HasBlock()
  {
    hide Possible, Still, Over, Pending.HasBlock;
    SamePend(st, op, r, st', n);
    if op == Finish(n) && st'.pend[n] != st.pend[n] {
      OwnFinish(st, r, st', n);
      StillFinish(st.a, st.pend[n], r, st'.a, st'.pend[n], q0);
    } else {
      StillSame(st, op, r, st', n, q0);
    }
  }

  lemma {:induction false} OwnFinish(st: State, r: Reply, st': State, n: nat)
    requires Possible(st, Finish(n), r, st') && n < |st.pend| && n < |st'.pend| && st'.pend[n] != st.pend[n]
    ensures Finished(st.a, st.pend[n], r, st'.a, st'.pend[n])
  {
    hide Finished;
  }

  lemma {:induction false} StillFinish(a: Abs, q: Pending, r: Reply, a': Abs, q': Pending, q0: Pending)
    requires Finished(a, q, r, a', q') && q0.HasBlock() && (Still(q0, q) || Over(q))
    ensures (Still(q0, q') || Over(q')) && (Over(q) ==> Over(q'))
    ensures Still(q0, q') && !Over(q) ==> a' == a && q'.HasBlock() == q.HasBlock()
  {
    hide BlockBytes, Written, InRange, Shrinks, Looked;
  }

  lemma {:induction false} StillSame(st: State, op: Op, r: Reply, st': State, n: nat, q0: Pending)
    requires Possible(st, op, r, st') && r != Dangling && n < |st.pend| && n < |st'.pend| && q0.HasBlock()
    requires op != Finish(n) || st'.pend[n] == st.pend[n]
    requires Still(q0, st.pend[n]) || Over(st.pend[n])
    ensures (Still(q0, st'.pend[n]) || Over(st'.pend[n])) && (Over(st.pend[n]) ==> Over(st'.pend[n]))
    ensures op == Finish(n) && !Over(st.pend[n]) ==> st'.a == st.a
  {
    hide BlockBytes, Written, InRange, Shrinks, Looked, GoodFile, ScanStep, PartitionAt;
    SamePend(st, op, r, st', n);
  }

  lemma {:induction false} StillLine(ops: seq<Op>, rs: seq<Reply>, tr: seq<State>, s: nat, t: nat, n: nat)
    requires Trace(ops, rs, tr) && s <= t <= |rs| && n < |tr[s].pend| && tr[s].pend[n].HasBlock()
    ensures n < |tr[t].pend| && (Still(tr[s].pend[n], tr[t].pend[n]) || Over(tr[t].pend[n]))
    decreases t
  {
    hide Possible, State.Good, Still, Over;
    if t == s {
      StillSelf(tr[s].pend[n]);
    } else {
      StillLine(ops, rs, tr, s, t - 1, n);
      StillNext(tr[t - 1], ops[t - 1], rs[t - 1], tr[t], n, tr[s].pend[n]);
    }
  }

  lemma {:induction false} StillSelf(q: Pending)
    requires q.HasBlock()
    ensures Still(q, q)
  {
  }

  /** Request n has looked up a block by state s and not made its transfer by state t. */
  ghost predicate Waits(tr: seq<State>, s: nat, t: nat, n: nat)
  {
    && s <= t < |tr| && n < |tr[s].pend| && n < |tr[t].pend| && tr[s].pend[n].HasBlock()
    && Still(tr[s].pend[n], tr[t].pend[n])
  }

  lemma {:induction false} WaitedBefore(ops: seq<Op>, rs: seq<Reply>, tr: seq<State>, s: nat, t: nat, n: nat)
    requires Trace(ops, rs, tr) && Waits(tr, s, t, n) && s < t
    ensures Waits(tr, s, t - 1, n)
  {
    hide Possible, State.Good;
    StillLine(ops, rs, tr, s, t - 1, n);
    StillNext(tr[t - 1], ops[t - 1], rs[t - 1], tr[t], n, tr[s].pend[n]);
  }

  /** While a request waits, its page is there. It is where it was if no scan moves it; if just one
      scan does, it is not. */
  lemma {:induction false} WaitingPage(ops: seq<Op>, rs: seq<Reply>, tr: seq<State>, s: nat, t: nat, n: nat)
    requires Trace(ops, rs, tr) && Waits(tr, s, t, n)
    ensures var q := tr[s].pend[n];
      && tr[s].a.Has(q.i, q.p) && tr[t].a.Has(q.i, q.p)
      && (Moves(tr, s, t, q.i, q.p) == 0 ==> tr[t].a.at[q.i][q.p] == tr[s].a.at[q.i][q.p])
      && (Moves(tr, s, t, q.i, q.p) == 1 ==> tr[t].a.at[q.i][q.p] != tr[s].a.at[q.i][q.p])
    decreases t
  {
    hide Possible, Abs.Sane, State.Apart, State.FreedBy;
    assert tr[s].PendOK(n);
    if t > s {
      WaitedBefore(ops, rs, tr, s, t, n);
      WaitingPage(ops, rs, tr, s, t - 1, n);
      OneStep(ops, rs, tr, s, t - 1, n);
    }
  }

  lemma {:induction false} OneStep(ops: seq<Op>, rs: seq<Reply>, tr: seq<State>, s: nat, u: nat, n: nat)
    requires Trace(ops, rs, tr) && u < |rs| && Waits(tr, s, u, n) && Waits(tr, s, u + 1, n)
    ensures tr[u].a.Has(tr[s].pend[n].i, tr[s].pend[n].p) && tr[u + 1].a.Has(tr[s].pend[n].i, tr[s].pend[n].p)
  {
    hide Possible, Abs.Sane, State.Apart, State.FreedBy;
    assert tr[u].PendOK(n) && tr[u + 1].PendOK(n);
  }

  /** A request whose page no scan moves meanwhile keeps its partition. */
  lemma {:induction false} WaitingBlock(ops: seq<Op>, rs: seq<Reply>, tr: seq<State>, s: nat, t: nat, n: nat)
    requires Trace(ops, rs, tr) && Waits(tr, s, t, n)
    requires var q := tr[s].pend[n];
      tr[s].a.Has(q.i, q.p) && tr[s].a.at[q.i][q.p] == q.b && Moves(tr, s, t, q.i, q.p) == 0
    ensures tr[t].pend[n].HasBlock() && tr[t].a.Exists(tr[s].pend[n].b)
    decreases t
  {
    hide Possible, State.PendOK, State.Apart, State.FreedBy, Abs.Exists;
    var q := tr[s].pend[n];
    WaitingPage(ops, rs, tr, s, t, n);
    Placed(tr[t].a, q.i, q.p);
    if t > s {
      WaitedBefore(ops, rs, tr, s, t, n);
      WaitingBlock(ops, rs, tr, s, t - 1, n);
      SamePend(tr[t - 1], ops[t - 1], rs[t - 1], tr[t], n);
      StillNext(tr[t - 1], ops[t - 1], rs[t - 1], tr[t], n, q);
      if rs[t - 1] == Gone { GoneVol(tr[t - 1], ops[t - 1], tr[t]); }
    }
  }

  lemma {:induction false} GoneVol(st: State, op: Op, st': State)
    requires Possible(st, op, Gone, st')
    ensures forall b: Block :: b.part == st.a.departing ==> !st'.a.Exists(b)
  {
    hide BlockBytes, Written, GoodFile, InRange, Shrinks, Assigned, PagesScanned, PartitionAt;
  }

  /** A lookup finds the block the page is in. */
  lemma {:induction false} LooksUp(st: State, op: Op, r: Reply, st': State, n: nat)
    requires st.Good() && Possible(st, op, r, st') && r != Dangling && n < |st'.pend| && st'.pend[n].HasBlock()
    requires n < |st.pend| ==> !st.pend[n].HasBlock()
    ensures var q := st'.pend[n]; st'.a.Has(q.i, q.p) && st'.a.at[q.i][q.p] == q.b
  {
    hide BlockBytes, Written, GoodFile, InRange, Shrinks, ScanStep, State.FreedBy, Abs.Sane, State.Apart;
    if n < |st.pend| { SamePend(st, op, r, st', n); }
  }

  /** The block of page (i, p), while request n waits, is the one it looked up at s. */
  ghost predicate LookedUp(tr: seq<State>, s: nat, n: nat)
  {
    && s < |tr| && n < |tr[s].pend| && tr[s].pend[n].HasBlock() && tr[s].a.Has(tr[s].pend[n].i, tr[s].pend[n].p)
    && tr[s].a.at[tr[s].pend[n].i][tr[s].pend[n].p] == tr[s].pend[n].b
  }

  /** A page write, from its lookup by state s to its transfer at step t. If no scan in between moves
      the page, the page then holds the data and no other page has changed. If just one does, the
      page has not changed: the data is lost, or the transfer goes to a partition that is gone. */
  lemma {:induction false} Write(ops: seq<Op>, rs: seq<Reply>, tr: seq<State>, s: nat, t: nat, n: nat)
    requires Trace(ops, rs, tr) && LookedUp(tr, s, n) && tr[s].pend[n].Found?
    requires Waits(tr, s, t, n) && t < |rs| && ops[t] == Finish(n) && !tr[t].pend[n].Found?
    ensures var q := tr[s].pend[n];
      && (Moves(tr, s, t, q.i, q.p) == 0 ==> rs[t] == Done && OnlyWritten(tr[t].a, q.i, q.p, q.data, tr[t + 1].a))
      && (Moves(tr, s, t, q.i, q.p) == 1 ==>
            rs[t] in {Done, Crash} && tr[t + 1].a.Bytes(q.i, q.p) == tr[t].a.Bytes(q.i, q.p))
  {
    hide Possible, Abs.Sane, State.PendOK, State.Apart, Abs.Bytes, OnlyWritten, State.FreedBy;
    var q := tr[s].pend[n];
    WaitingPage(ops, rs, tr, s, t, n);
    if Moves(tr, s, t, q.i, q.p) == 0 { WaitingBlock(ops, rs, tr, s, t, n); }
    Transfer(tr[t], rs[t], tr[t + 1], n);
    if tr[t].pend[n].Writing? {
      if tr[t].a.at[q.i][q.p] == q.b { WriteMeets(tr[t].a, q.i, q.p, q.data); }
      else { WriteMisses(tr[t].a, q.i, q.p, q.b, q.data); }
    }
  }

  lemma {:induction false} Transfer(st: State, r: Reply, st': State, n: nat)
    requires Possible(st, Finish(n), r, st') && n < |st.pend|
    ensures var q := st.pend[n];
      && (q.Writing? ==> r == Done && InRange(st.a.disk, q.b) && |q.data| == PAGE)
      && (q.Writing? ==> st'.a == st.a.(disk := Written(st.a.disk, q.b, q.data)))
      && (q.Reading? ==> r == Page(BlockBytes(st.a.disk, q.b)) && st'.a == st.a)
      && (q.Orphan? ==> r == Crash && st'.a == st.a)
  {
    hide BlockBytes, Written, InRange, Shrinks, Looked;
  }

  /** A page read. If no scan in between moves the page, the reply is the page. */
  lemma {:induction false} Read(ops: seq<Op>, rs: seq<Reply>, tr: seq<State>, s: nat, t: nat, n: nat)
    requires Trace(ops, rs, tr) && LookedUp(tr, s, n) && tr[s].pend[n].Sought?
    requires Waits(tr, s, t, n) && t < |rs| && ops[t] == Finish(n) && !tr[t].pend[n].Sought?
    ensures var q := tr[s].pend[n]; Moves(tr, s, t, q.i, q.p) == 0 ==> rs[t] == Page(tr[t].a.Bytes(q.i, q.p))
  {
    hide Possible, Abs.Sane, State.PendOK, State.Apart, State.FreedBy, BlockBytes;
    var q := tr[s].pend[n];
    WaitingPage(ops, rs, tr, s, t, n);
    if Moves(tr, s, t, q.i, q.p) == 0 {
      WaitingBlock(ops, rs, tr, s, t, n);
      Transfer(tr[t], rs[t], tr[t + 1], n);
    }
  }

  // ----- what a read does to its page -----

  /** What a read that was q0 may have become: only one with deallocate gets to release its page. */
  predicate ReadPhase(q0: Pending, q: Pending)
    requires q0.Sought?
  {
    q.Idle? || Still(q0, q) || (q0.deallocate && (q.Releasing? || q.Freeing?) && q.Uses(q0.i, q0.p))
  }

  lemma {:induction false} PhaseFinish(a: Abs, q: Pending, r: Reply, a': Abs, q': Pending, q0: Pending)
    requires Finished(a, q, r, a', q') && q0.Sought? && ReadPhase(q0, q)
    ensures ReadPhase(q0, q') && (q'.Idle? ==> r == Failed || q.Freeing? || !q0.deallocate)
  {
    hide BlockBytes, Written, InRange, Shrinks, Looked;
  }

  lemma {:induction false} PhaseNext(st: State, op: Op, r: Reply, st': State, n: nat, q0: Pending)
    requires Possible(st, op, r, st') && r != Dangling && n < |st.pend| && q0.Sought? && ReadPhase(q0, st.pend[n])
    ensures n < |st'.pend| && ReadPhase(q0, st'.pend[n])
    ensures st'.pend[n].Idle? && !st.pend[n].Idle? ==>
      op == Finish(n) && (r == Failed || st.pend[n].Freeing? || !q0.deallocate)
  {
    hide Possible;
    SamePend(st, op, r, st', n);
    if op == Finish(n) && st'.pend[n] != st.pend[n] {
      OwnFinish(st, r, st', n);
      PhaseFinish(st.a, st.pend[n], r, st'.a, st'.pend[n], q0);
    }
  }

  lemma {:induction false} PhaseLine(ops: seq<Op>, rs: seq<Reply>, tr: seq<State>, s: nat, t: nat, n: nat)
    requires Trace(ops, rs, tr) && s <= t <= |rs| && n < |tr[s].pend| && tr[s].pend[n].Sought?
    ensures n < |tr[t].pend| && ReadPhase(tr[s].pend[n], tr[t].pend[n])
    decreases t
  {
    hide Possible, State.Good, ReadPhase;
    if t == s {
      assert ReadPhase(tr[s].pend[n], tr[s].pend[n]) by { PhaseSelf(tr[s].pend[n]); }
    } else {
      PhaseLine(ops, rs, tr, s, t - 1, n);
      PhaseNext(tr[t - 1], ops[t - 1], rs[t - 1], tr[t], n, tr[s].pend[n]);
    }
  }

  lemma {:induction false} PhaseSelf(q: Pending)
    requires q.Sought?
    ensures ReadPhase(q, q)
  {
  }

  /** A read for writing that is over, and has not failed, has released its page; one that is not never
      does. */
  lemma {:induction false} ReadReleases(ops: seq<Op>, rs: seq<Reply>, tr: seq<State>, s: nat, t: nat, n: nat)
    returns (u: nat)
    requires Trace(ops, rs, tr) && s <= t <= |rs| && n < |tr[s].pend| && tr[s].pend[n].Sought?
    requires forall v :: s <= v < t && ops[v] == Finish(n) ==> rs[v] != Failed
    ensures n < |tr[t].pend| && !tr[s].pend[n].deallocate ==> !tr[t].pend[n].Releasing? && !tr[t].pend[n].Freeing?
    ensures n < |tr[t].pend| && tr[s].pend[n].deallocate && tr[t].pend[n].Idle? ==>
      s < u < t && !tr[u].a.Has(tr[s].pend[n].i, tr[s].pend[n].p)
    decreases t
  {
    hide Possible, Abs.Sane, State.Apart, State.FreedBy;
    PhaseLine(ops, rs, tr, s, t, n);
    u := s;
    if tr[s].pend[n].deallocate && tr[t].pend[n].Idle? {
      PhaseLine(ops, rs, tr, s, t - 1, n);
      if tr[t - 1].pend[n].Idle? {
        u := ReadReleases(ops, rs, tr, s, t - 1, n);
      } else {
        u := t - 1;
        PhaseNext(tr[u], ops[u], rs[u], tr[t], n, tr[s].pend[n]);
        assert tr[u].PendOK(n);
      }
    }
  }

  // ----- blocks that keep their contents -----

  /** A transfer aimed at block b, or a scan that empties another partition. */
  predicate Disturbs(st: State, op: Op, b: Block)
  {
    match op
    case Finish(n) => n < |st.pend| && st.pend[n].Writing? && st.pend[n].b == b
    case DestroyStep => st.a.departing != b.part
    case _ => false
  }

  lemma {:induction false} BlockKept(st: State, op: Op, r: Reply, st': State, b: Block)
    requires Possible(st, op, r, st') && r != Dangling && b.part in st.a.vols && !Disturbs(st, op, b)
    ensures BlockBytes(st'.a.disk, b) == BlockBytes(st.a.disk, b)
  {
    hide BlockBytes, Written, GoodFile, InRange, Shrinks;
    if op.Finish? && r != Refused && st.pend[op.n].Writing? {
      var q := st.pend[op.n];
      WrittenBlock(st.a.disk, q.b, q.data, b);
    }
  }

  /** From s to t nothing disturbs block b, and its partition is there. */
  ghost predicate Undisturbed(ops: seq<Op>, tr: seq<State>, s: nat, t: nat, b: Block)
  {
    t < |tr| && t <= |ops| && forall u :: s <= u < t ==> b.part in tr[u].a.vols && !Disturbs(tr[u], ops[u], b)
  }

  lemma {:induction false} BlockSame(ops: seq<Op>, rs: seq<Reply>, tr: seq<State>, s: nat, t: nat, b: Block)
    requires Trace(ops, rs, tr) && s <= t <= |rs| && Undisturbed(ops, tr, s, t, b)
    ensures BlockBytes(tr[t].a.disk, b) == BlockBytes(tr[s].a.disk, b)
    decreases t
  {
    hide Possible, State.Good, BlockBytes, Disturbs;
    if t > s {
      BlockSame(ops, rs, tr, s, t - 1, b);
      BlockKept(tr[t - 1], ops[t - 1], rs[t - 1], tr[t], b);
    }
  }

  /** Scans between the lookup and the transfer of a read do no harm while they empty the partition
      of the block: the block the page has left still holds it, until another transfer is aimed at
      it. */
  lemma {:induction false} ReadAcrossScans(ops: seq<Op>, rs: seq<Reply>, tr: seq<State>, s: nat, t: nat, n: nat)
    requires Trace(ops, rs, tr) && LookedUp(tr, s, n) && tr[s].pend[n].Sought? && Waits(tr, s, t, n)
    requires t < |rs| && ops[t] == Finish(n) && tr[t].pend[n].Reading? && Undisturbed(ops, tr, s, t, tr[s].pend[n].b)
    ensures rs[t] == Page(tr[s].a.Bytes(tr[s].pend[n].i, tr[s].pend[n].p))
  {
    hide Possible, State.Good, BlockBytes, Disturbs, Undisturbed;
    BlockSame(ops, rs, tr, s, t, tr[s].pend[n].b);
    Transfer(tr[t], rs[t], tr[t + 1], n);
  }

  // ----- what a read returns -----

  /** The steps that can change or drop page (i, p): a transfer aimed at its block, its release, and
      a scan that moves it from or to a partition with blocks smaller than a page. */
  predicate Touches(st: State, op: Op, st': State, i: nat, p: nat)
    requires st.a.Has(i, p)
  {
    match op
    case FreePage(j, q) => j == i && q == p
    case Finish(n) =>
      && n < |st.pend|
      && ((st.pend[n].Writing? && st.pend[n].b == st.a.at[i][p]) || (st.pend[n].Releasing? && st.pend[n].Uses(i, p)))
    case DestroyStep =>
      st'.a.Has(i, p) && st'.a.at[i][p] != st.a.at[i][p] &&
      !(MovesWhole(st.a, st.a.at[i][p].part) && MovesWhole(st.a, st'.a.at[i][p].part))
    case _ => false
  }

  lemma {:induction false} Untouched(st: State, op: Op, r: Reply, st': State, i: nat, p: nat)
    requires st.Good() && Possible(st, op, r, st') && r != Dangling && st.a.Has(i, p) && !Touches(st, op, st', i, p)
    ensures st'.a.Has(i, p) && st'.a.Bytes(i, p) == st.a.Bytes(i, p)
  {
    hide BlockBytes, Written, GoodFile, InRange, State.PendOK, State.Apart, State.FreedBy, Abs.OneOwner, Finished,
      DestroyStepped;
    Placed(st.a, i, p);
    match op {
      case Finish(n) => if r != Refused { UntouchedFinish(st.a, st.pend[n], r, st'.a, st'.pend[n], i, p); }
      case DestroyStep => if r != Refused { UntouchedScan(st, r, st', i, p); }
      case _ =>
    }
  }

  lemma {:induction false} UntouchedFinish(a: Abs, q: Pending, r: Reply, a': Abs, q': Pending, i: nat, p: nat)
    requires Finished(a, q, r, a', q') && a.Has(i, p) && !(q.Writing? && q.b == a.at[i][p])
    requires !(q.Releasing? && q.Uses(i, p))
    ensures a'.Has(i, p) && a'.Bytes(i, p) == a.Bytes(i, p)
  {
    hide BlockBytes, Written, InRange, Shrinks;
    if q.Writing? { WriteMisses(a, i, p, q.b, q.data); }
  }

  lemma {:induction false} UntouchedScan(st: State, r: Reply, st': State, i: nat, p: nat)
    requires DestroyStepped(st, r, st') && r != Dangling && st.a.Has(i, p) && !Touches(st, DestroyStep, st', i, p)
    ensures st'.a.Has(i, p) && st'.a.Bytes(i, p) == st.a.Bytes(i, p)
  {
    hide BlockBytes, InRange;
    if st.a.scanned < |st.a.at| { assert PageScanned(st.a, st'.a, i, p); }
  }

  /** No step from s to t touches page (i, p). */
  ghost predicate Quiet(ops: seq<Op>, tr: seq<State>, s: nat, t: nat, i: nat, p: nat)
  {
    t < |tr| && t <= |ops| && forall u :: s <= u < t ==> tr[u].a.Has(i, p) ==> !Touches(tr[u], ops[u], tr[u + 1], i, p)
  }

  lemma {:induction false} QuietPage(ops: seq<Op>, rs: seq<Reply>, tr: seq<State>, s: nat, t: nat, i: nat, p: nat)
    requires Trace(ops, rs, tr) && s <= t <= |rs| && Quiet(ops, tr, s, t, i, p) && tr[s].a.Has(i, p)
    ensures tr[t].a.Has(i, p) && tr[t].a.Bytes(i, p) == tr[s].a.Bytes(i, p)
    decreases t
  {
    hide Possible, State.Good, Abs.Bytes, Touches;
    if t > s {
      QuietPage(ops, rs, tr, s, t - 1, i, p);
      Untouched(tr[t - 1], ops[t - 1], rs[t - 1], tr[t], i, p);
    }
  }

  /** A read returns the last write. The write has its lookup by s and its transfer at t, the read by
      s' and at t'; no scan moves the page between the halves of either, and nothing in between touches
      the page. */
  lemma {:induction false} ReadsLastWrite(ops: seq<Op>, rs: seq<Reply>, tr: seq<State>, s: nat, t: nat, n: nat,
                                          s': nat, t': nat, n': nat)
    requires Trace(ops, rs, tr) && LookedUp(tr, s, n) && tr[s].pend[n].Found? && Waits(tr, s, t, n)
    requires t < |rs| && ops[t] == Finish(n) && !tr[t].pend[n].Found?
    requires LookedUp(tr, s', n') && tr[s'].pend[n'].Sought? && Waits(tr, s', t', n') && t < t' < |rs|
    requires ops[t'] == Finish(n') && !tr[t'].pend[n'].Sought?
    requires var q, q' := tr[s].pend[n], tr[s'].pend[n'];
      && q.i == q'.i && q.p == q'.p && Moves(tr, s, t, q.i, q.p) == 0 && Moves(tr, s', t', q.i, q.p) == 0
      && Quiet(ops, tr, t + 1, t', q.i, q.p)
    ensures rs[t'] == Page(tr[s].pend[n].data)
  {
    hide Possible, State.Good, Abs.Bytes, Touches;
    var q := tr[s].pend[n];
    Write(ops, rs, tr, s, t, n);
    Read(ops, rs, tr, s', t', n');
    WaitingPage(ops, rs, tr, s, t, n);
    QuietPage(ops, rs, tr, t + 1, t', q.i, q.p);
  }
}
