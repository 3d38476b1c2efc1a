/** The paging partitions and paging objects of the default pager, and the operations on them. */
module Pager {
  import opened Bits
  import opened BlockMap
  import opened FileDirect
  import opened Partition
  import opened PageMap
  import opened PageBytes
  import opened Departure

  ghost predicate Separate(parts: seq<Part?>)
  {
    forall j, k :: 0 <= j < |parts| && 0 <= k < |parts| && j != k && parts[j] != null && parts[k] != null ==>
      parts[j] != parts[k] && parts[j].bitmap != parts[k].bitmap
  }

  ghost predicate Distinct(objects: seq<Dpager>)
  {
    forall i, j :: 0 <= i < j < |objects| ==> objects[i] != objects[j]
  }

  /** The block sizes of the partitions. */
  function Bsizes(parts: seq<Part?>): (bs: seq<nat>)
    ensures |bs| == |parts| && forall k :: 0 <= k < |parts| && parts[k] != null ==> bs[k] == parts[k].bsize
  {
    seq(|parts|, k requires 0 <= k < |parts| => if parts[k] == null then 0 else parts[k].bsize)
  }

  predicate InPart(v: Slot, k: nat)
  {
    v.Some? && v.value.part == k
  }

  datatype Outcome = Removed | Failure | InvalidArgument

  datatype ReadResult = Absent | Data(bytes: seq<byte>)

  class Pager {
    var parts: seq<Part?>         // all_partitions
    var objects: seq<Dpager>      // every object ever made; a freed one has no pages
    var listed: seq<bool>         // which of them are on the list all_pagers
    ghost var led: Ledger         // who owns which block
    ghost var curs: seq<nat>      // the current partition of each object
    ghost var disk: seq<seq<byte>>
    var departing: nat            // the partition destroy_paging_partition works on, or NO_PART
    var scanned: nat              // how many objects it has dealt with

    ghost function Bitmaps(): set<object>
      reads this
    {
      set k | 0 <= k < |parts| && parts[k] != null :: parts[k].bitmap
    }

    predicate Live(k: nat)
      reads this`parts
    {
      k < |parts| && parts[k] != null
    }

    ghost predicate PartOK(k: nat)
      reads this, parts, Bitmaps()
    {
      k < |parts| ==> (
        && k < |led.used| && k < |disk|
        && (parts[k] == null ==> led.used[k] == {})
        && (parts[k] != null ==>
              && k < NO_PART && parts[k].Valid()
              && led.used[k] == parts[k].used && disk[k] == parts[k].store
              && (parts[k].goingAway <==> k == departing)))
    }

    ghost predicate ObjectOK(i: nat)
      reads this, objects
    {
      i < |objects| ==> (
        && i < |led.slots| && i < |curs| && objects[i].Valid()
        && led.slots[i] == objects[i].slots && curs[i] == objects[i].cur
        && (curs[i] < |parts| || curs[i] == NO_PART))
    }

    /** The structures are well formed and led and disk describe them. */
    ghost predicate Wf()
      reads this, parts, Bitmaps(), objects
    {
      && |led.used| == |disk| == |parts| && |led.slots| == |curs| == |listed| == |objects|
      && (forall k :: PartOK(k)) && Separate(parts)
      && (forall i :: ObjectOK(i)) && Distinct(objects)
    }

    lemma {:induction false} Sizes()
      requires Wf()
      ensures |led.used| == |disk| == |parts| && |led.slots| == |curs| == |listed| == |objects|
    {
    }

    lemma {:induction false} ObjectFacts(i: nat)
      requires Wf() && (i < |objects| || i < |led.slots|)
      ensures |led.used| == |disk| == |parts| && |led.slots| == |curs| == |listed| == |objects|
      ensures objects[i].Valid() && led.slots[i] == objects[i].slots && curs[i] == objects[i].cur
      ensures curs[i] < |parts| || curs[i] == NO_PART
    {
      assert ObjectOK(i);
    }

    predicate Candidate(k: nat, bytes: nat, avoid: nat)
      reads this`parts, parts
    {
      Live(k) && k != avoid && !parts[k].goingAway && PAGE * parts[k].free >= bytes
    }

    /** k is the first suitable partition, or none is suitable. */
    ghost predicate Chosen(k: nat, bytes: nat, avoid: nat)
      reads this`parts, parts
    {
      && (k == NO_PART || Candidate(k, bytes, avoid))
      && k <= NO_PART && forall j: nat :: Candidate(j, bytes, avoid) ==> k <= j < NO_PART
    }

    /** k is the first partition with so much space, or with the lesser amount if there is none. */
    ghost predicate FirstFit(k: nat, bytes: nat, least: nat)
      reads this`parts, parts
    {
      if exists j: nat :: Candidate(j, bytes, NO_PART) then k != NO_PART && Chosen(k, bytes, NO_PART)
      else Chosen(k, least, NO_PART)
    }

    /** A page can be allocated in partition k. */
    predicate HasRoom(k: nat)
      reads this`parts, parts
    {
      k != NO_PART && Live(k) && !parts[k].goingAway && parts[k].free > 0
    }

    /** A new page of an object whose current partition is c goes to partition k: to c if it has room,
        else to the first other one that has. */
    ghost predicate Picked(k: nat, c: nat)
      reads this`parts, parts
    {
      HasRoom(k) && if HasRoom(c) then k == c else forall j: nat :: HasRoom(j) ==> k <= j
    }

    /** The partition that object i allocates from, once it has been looked for: its current one, or
        the first with space for all of the object up to page p, or with space for a page. */
    ghost predicate From(i: nat, p: nat, c: nat)
      requires i < |curs| && i < |led.slots|
      reads this`parts, parts, this`curs, this`led
    {
      if curs[i] != NO_PART then c == curs[i]
      else FirstFit(c, PAGE * if p > |led.slots[i]| then p else |led.slots[i]|, PAGE)
    }

    ghost predicate Valid()
      reads this, parts, Bitmaps(), objects
    {
      && Wf() && led.Consistent() && Sound(led, curs, listed, departing, scanned)
      && (departing == NO_PART || Live(departing))
    }

    /** choose_partition: the first suitable partition, or none when none is. */
    method Choose(bytes: nat, avoid: nat) returns (k: nat)
      requires Wf()
      ensures Wf()
      ensures Chosen(k, bytes, avoid)
    {
      k := 0;
      while k < |parts|
        invariant 0 <= k <= |parts|
        invariant forall j: nat :: j < k ==> !Candidate(j, bytes, avoid)
      {
        assert PartOK(k);
        forall j: nat | Candidate(j, bytes, avoid) ensures k <= j < NO_PART {
          assert PartOK(j);
        }
        if k != avoid && parts[k] != null && !parts[k].goingAway && PAGE * parts[k].free >= bytes { return; }
        k := k + 1;
      }
      k := NO_PART;
    }

    /** pager_alloc_page */
    method AllocPage(k: nat) returns (v: Slot)
      requires Wf() && (k < |parts| || k == NO_PART)
      modifies this`led, parts, Bitmaps()
      ensures Wf()
      ensures v.Some? <==> old(HasRoom(k))
      ensures v == None ==> led == old(led) && forall j: nat :: HasRoom(j) == old(HasRoom(j))
      ensures v.Some? ==> v.value.part == k != departing && led == old(led).Take(v.value)
      ensures v.Some? ==> LowestFree(old(led.used[k]), v.value.off)
      ensures forall j: nat :: (HasRoom(j) ==> old(HasRoom(j))) && (j != k ==> HasRoom(j) == old(HasRoom(j)))
    {
      hide Part.Valid;
      if k == NO_PART { return None; }
      assert PartOK(k);
      if parts[k] == null || parts[k].goingAway || parts[k].free == 0 { return None; }
      var off := parts[k].Alloc();
      led := led.Take(Block(k, off));
      v := Some(Block(k, off));
      forall j: nat ensures PartOK(j) {
        assert old(PartOK(j));
      }
      forall j: nat ensures ObjectOK(j) {
        assert old(ObjectOK(j));
      }
    }

    /** pager_dealloc_page */
    method DeallocPage(b: Block)
      requires Wf() && led.Allocated(b)
      modifies this`led, parts, Bitmaps()
      ensures Wf() && led == old(led).Free(b)
      ensures forall j: nat :: j != b.part ==> HasRoom(j) == old(HasRoom(j))
      ensures HasRoom(b.part) <==> b.part != departing
    {
      hide Part.Valid;
      assert PartOK(b.part);
      parts[b.part].Dealloc(b.off);
      led := led.Free(b);
      forall j: nat ensures PartOK(j) {
        assert old(PartOK(j));
      }
      forall j: nat ensures ObjectOK(j) {
        assert old(ObjectOK(j));
      }
    }

    /** Storing into the map entry of page p of object i. */
    method PutSlot(i: nat, p: nat, v: Slot)
      requires Wf() && led.IsSlot(i, p)
      modifies this`led, objects
      ensures Wf() && led == old(led).Put(i, p, v)
      ensures forall k: nat :: HasRoom(k) == old(HasRoom(k))
    {
      hide Part.Valid;
      assert ObjectOK(i);
      var ob := objects[i];
      ob.NeedTable(p);
      ob.Put(p, v);
      led := led.Put(i, p, v);
      forall j: nat ensures PartOK(j) {
        assert old(PartOK(j));
      }
      forall j: nat ensures ObjectOK(j) {
        assert old(ObjectOK(j));
      }
    }

    method SetCur(i: nat, k: nat)
      requires Wf() && i < |objects| && (k < |parts| || k == NO_PART) && k <= NO_PART
      modifies this`curs, objects
      ensures Wf() && curs == old(curs)[i := k]
      ensures forall k: nat :: HasRoom(k) == old(HasRoom(k))
    {
      hide Part.Valid;
      objects[i].cur := k;
      curs := curs[i := k];
      forall j: nat ensures PartOK(j) {
        assert old(PartOK(j));
      }
      forall j: nat ensures ObjectOK(j) {
        assert old(ObjectOK(j)) && old(ObjectOK(i));
      }
    }

    /** The extension loop of pager_write_offset. */
    method Cover(i: nat, p: nat)
      requires Wf() && i < |objects|
      modifies this`led, objects
      ensures Wf() && led.IsSlot(i, p)
      ensures forall k: nat :: HasRoom(k) == old(HasRoom(k))
      ensures |led.slots[i]| >= |old(led.slots[i])|
      ensures led == old(led).Grown(i, |led.slots[i]| - |old(led.slots[i])|)
    {
      hide Part.Valid;
      assert ObjectOK(i);
      var ob := objects[i];
      while p >= ob.size
        invariant ob.Valid() && ob.cur == old(ob.cur) && ob.size >= old(ob.size)
        invariant ob.slots == old(ob.slots) + Nones(ob.size - old(ob.size))
        decreases p - ob.size
        modifies ob
      {
        var _ := ob.Extend(p + 1);
      }
      led := led.Grown(i, ob.size - |led.slots[i]|);
      forall j: nat ensures PartOK(j) {
        assert old(PartOK(j));
      }
      forall j: nat ensures ObjectOK(j) {
        assert old(ObjectOK(j));
      }
    }

    /** The first partition with room, when partition c has none. */
    method Elsewhere(c: nat) returns (k: nat)
      requires Wf() && !HasRoom(c)
      ensures k == NO_PART <==> forall j: nat :: !HasRoom(j)
      ensures k <= NO_PART && (k != NO_PART ==> Picked(k, c) && k < |parts|)
    {
      hide Wf;
      k := Choose(PAGE, c);
      assert k != NO_PART ==> HasRoom(k);
      forall j: nat | HasRoom(j) ensures k <= j < NO_PART {
        assert Candidate(j, PAGE, c);
      }
    }

    /** Finding a block for a page of object i: its current partition, else any other one. */
    method Room(i: nat) returns (v: Slot)
      requires Wf() && i < |objects|
      modifies this`led, this`curs, parts, Bitmaps(), objects
      ensures Wf()
      ensures v == None <==> forall k: nat :: !old(HasRoom(k))
      ensures v == None ==> led == old(led) && curs == old(curs)
      ensures v.Some? ==> old(Picked(v.value.part, curs[i]))
      ensures v.Some? ==> LowestFree(old(led.used[v.value.part]), v.value.off)
      ensures v.Some? ==> led == old(led).Take(v.value) && curs == old(curs)[i := v.value.part]
      ensures v.Some? ==> v.value.part != departing
      ensures forall k: nat :: (HasRoom(k) ==> old(HasRoom(k))) && (!InPart(v, k) ==> HasRoom(k) == old(HasRoom(k)))
    {
      hide Wf;
      ObjectFacts(i);
      var c := objects[i].cur;
      v := AllocPage(c);
      if v == None {
        var k := Elsewhere(c);
        assert forall j: nat :: HasRoom(j) == old(HasRoom(j));
        if k != NO_PART {
          assert old(Picked(k, c));
          SetCur(i, k);
          v := AllocPage(k);
        }
      }
    }

    /** The choice of a partition for an object that has none. */
    method FindCur(i: nat, p: nat) returns (ok: bool)
      requires Wf() && i < |objects|
      modifies this`curs, objects
      ensures Wf() && |curs| == |old(curs)|
      ensures forall k: nat :: HasRoom(k) == old(HasRoom(k))
      ensures if ok then curs[i] != NO_PART else curs[i] == NO_PART && forall k: nat :: !HasRoom(k)
      ensures curs == old(curs) || (ok && curs == old(curs)[i := curs[i]])
      ensures old(curs)[i] != NO_PART ==> curs == old(curs)
      ensures old(curs)[i] == NO_PART ==>
        FirstFit(curs[i], PAGE * if p > |led.slots[i]| then p else |led.slots[i]|, PAGE)
    {
      hide Wf;
      ObjectFacts(i);
      ok := true;
      if objects[i].cur == NO_PART {
        var k := Choose(PAGE * if p > objects[i].size then p else objects[i].size, NO_PART);
        if k == NO_PART { k := Choose(PAGE, NO_PART); }
        if k == NO_PART {
          forall j: nat ensures !HasRoom(j) {
            assert !Candidate(j, PAGE, NO_PART);
          }
          return false;
        }
        Staying(k);
        SetCur(i, k);
      }
    }

    lemma {:induction false} Staying(k: nat)
      requires Wf() && Live(k)
      ensures parts[k].goingAway <==> k == departing
    {
      assert PartOK(k);
    }

    /** pager_write_offset up to its test of the size: whether the object has a partition or could
        be given one. */
    method Ready(i: nat, p: nat) returns (ok: bool)
      requires Valid() && i < |objects|
      modifies this`curs, objects
      ensures Valid() && forall k: nat :: HasRoom(k) == old(HasRoom(k))
      ensures !ok ==> led.SlotOf(i, p) == None && forall k: nat :: !HasRoom(k)
      ensures |curs| == |old(curs)| && curs == old(curs)[i := curs[i]]
      ensures var c := curs[i]; old(From(i, p, c))
    {
      hide Wf, Ledger.Consistent, Sound, FirstFit;
      ObjectFacts(i);
      ok := FindCur(i, p);
      Sizes();
      if !ok { NoPages(led, old(curs), listed, departing, scanned, i, p); }
      assert curs == old(curs)[i := curs[i]];
      led.GrownAssigned(i, 0, p);
      SoundAssigned(led, old(curs), listed, departing, scanned, i, p, led.SlotOf(i, p), led, curs[i]);
    }

    /** pager_extend for page p, whatever has become of the object since its size was looked at.
        Ownership stays exact if and only if no page that is dropped has a block. */
    method ExtendMap(i: nat, p: nat)
      requires Valid() && i < |objects|
      modifies this`led, objects
      ensures Wf() && i < |led.slots| == |old(led).slots| && p < |led.slots[i]|
      ensures forall k: nat :: HasRoom(k) == old(HasRoom(k))
      ensures led == Sized(old(led), i, |led.slots[i]|)
      ensures |led.slots[i]| < |old(led).slots[i]| <==> Shrinks(|old(led).slots[i]|, p + 1)
      ensures p + 1 > MAX_DOUBLED ==> |led.slots[i]| == RoundUp(p + 1)
      ensures Valid() <==> forall q: nat :: q >= |led.slots[i]| ==> old(led).SlotOf(i, q) == None
    {
      hide Part.Valid, Ledger.Consistent, Sound, RoundUp;
      ObjectFacts(i);
      var ob := objects[i];
      var overrun := ob.Extend(p + 1);
      ghost var was := led;
      led := Sized(led, i, ob.size);
      forall j: nat ensures PartOK(j) {
        assert old(PartOK(j));
      }
      forall j: nat ensures ObjectOK(j) {
        assert old(ObjectOK(j));
      }
      SizedIff(was, i, ob.size);
      SoundSized(was, curs, listed, departing, scanned, i, ob.size);
    }

    /** The rest of pager_write_offset, for a page within the object: its block, allocated when it has
        none. */
    method FindBlock(i: nat, p: nat) returns (v: Slot)
      requires Valid() && led.IsSlot(i, p)
      modifies this`led, this`curs, parts, Bitmaps(), objects
      ensures Valid()
      ensures v == None <==> old(led.SlotOf(i, p)) == None && forall k: nat :: !old(HasRoom(k))
      ensures old(led).Assigned(i, p, v, led)
      ensures forall j: nat :: j < |led.slots| ==> |led.slots[j]| == |old(led).slots[j]|
      ensures |curs| == |old(curs)| && i < |curs| && curs == old(curs)[i := curs[i]]
      ensures curs[i] == if v.Some? && old(led.SlotOf(i, p)) == None then v.value.part else old(curs[i])
      ensures v.Some? && old(led.SlotOf(i, p)) == None ==>
        old(Picked(v.value.part, curs[i])) && LowestFree(old(led.used[v.value.part]), v.value.off)
      ensures forall k: nat :: (HasRoom(k) ==> old(HasRoom(k))) && (!InPart(v, k) ==> HasRoom(k) == old(HasRoom(k)))
      ensures old(led.SlotOf(i, p)).Some? ==> forall k: nat :: HasRoom(k) == old(HasRoom(k))
    {
      hide Wf, Ledger.Consistent, Sound, Ledger.Assigned;
      ObjectFacts(i);
      ghost var was := led;
      v := objects[i].Read(p);
      was.GrownAssigned(i, 0, p);
      if v == None {
        v := Fill(i, p);
        if v.Some? { was.TakenAssigned(i, 0, p, v.value); }
      } else {
        HasCur(i, p);
      }
      assert curs == old(curs)[i := curs[i]];
      SoundAssigned(was, old(curs), listed, departing, scanned, i, p, v, led, curs[i]);
    }

    lemma {:induction false} HasCur(i: nat, p: nat)
      requires Wf() && Sound(led, curs, listed, departing, scanned) && led.SlotOf(i, p).Some?
      ensures i < |curs| && curs[i] != NO_PART
    {
      Sizes();
      if curs[i] == NO_PART { NoPages(led, curs, listed, departing, scanned, i, p); }
    }

    /** pager_write_offset without interruption: the block of page p of object i, allocated when the
        page has none. */
    method WriteOffset(i: nat, p: nat) returns (v: Slot)
      requires Valid() && i < |objects|
      modifies this`led, this`curs, parts, Bitmaps(), objects
      ensures Valid()
      ensures v == None <==> old(led.SlotOf(i, p)) == None && forall k: nat :: !old(HasRoom(k))
      ensures old(led).Assigned(i, p, v, led)
      ensures v.Some? && old(led.SlotOf(i, p)) == None ==>
        (exists c: nat :: old(From(i, p, c)) && old(Picked(v.value.part, c))) &&
        LowestFree(old(led.used[v.value.part]), v.value.off)
      ensures forall k: nat :: (HasRoom(k) ==> old(HasRoom(k))) && (!InPart(v, k) ==> HasRoom(k) == old(HasRoom(k)))
      ensures old(led.SlotOf(i, p)).Some? ==> forall k: nat :: HasRoom(k) == old(HasRoom(k))
    {
      hide Wf, Ledger.Consistent, Sound, Ledger.Assigned, LowestFree, From;
      var ok := Ready(i, p);
      ghost var was := led;
      Sizes();
      if !ok {
        was.GrownAssigned(i, 0, p);
        return None;
      }
      Cover(i, p);
      ghost var n := |led.slots[i]| - |was.slots[i]|;
      was.Grow(i, n);
      was.GrownAssigned(i, n, p);
      SoundSized(was, curs, listed, departing, scanned, i, |led.slots[i]|);
      assert led == Sized(was, i, |led.slots[i]|);
      ghost var c := curs[i];
      assert old(From(i, p, c));
      v := FindBlock(i, p);
      was.AssignedGrown(i, n, p, v, led);
    }

    /** A block for an empty slot. */
    method Fill(i: nat, p: nat) returns (v: Slot)
      requires Wf() && led.Consistent() && i < |objects| && led.IsSlot(i, p) && led.slots[i][p] == None
      modifies this`led, this`curs, parts, Bitmaps(), objects
      ensures Wf() && led.Consistent()
      ensures v == None <==> forall k: nat :: !old(HasRoom(k))
      ensures v == None ==> led == old(led) && curs == old(curs)
      ensures v.Some? ==> old(Picked(v.value.part, curs[i]))
      ensures v.Some? ==> v.value.part < |old(led).used| && !old(led).Allocated(v.value)
      ensures v.Some? ==> LowestFree(old(led.used[v.value.part]), v.value.off)
      ensures v.Some? ==> led == old(led).Take(v.value).Put(i, p, v) && curs == old(curs)[i := v.value.part]
      ensures v.Some? ==> v.value.part != departing
      ensures forall k: nat :: (HasRoom(k) ==> old(HasRoom(k))) && (!InPart(v, k) ==> HasRoom(k) == old(HasRoom(k)))
    {
      hide Wf, Ledger.Consistent;
      ObjectFacts(i);
      v := Room(i);
      if v.Some? {
        PutSlot(i, p, v);
        old(led).Allocate(i, p, v.value);
      }
    }

    /** Block b is in a partition of the list. */
    predicate Exists(b: Block)
      reads this`parts
    {
      Live(b.part) && b.off < parts[b.part].total
    }

    /** The piecewise loop of default_write on block b. */
    method WriteBlock(b: Block, data: seq<byte>)
      requires Wf() && Exists(b) && |data| == PAGE
      modifies this`disk, parts
      ensures Wf() && InRange(old(disk), b) && disk == Written(old(disk), b, data)
      ensures forall k: nat :: HasRoom(k) == old(HasRoom(k))
    {
      hide Backed;
      assert PartOK(b.part);
      parts[b.part].WritePage(b.off, data);
      disk := Written(disk, b, data);
      forall j: nat ensures PartOK(j) {
        assert old(PartOK(j));
      }
      forall j: nat ensures ObjectOK(j) {
        assert old(ObjectOK(j));
      }
    }

    /** The piecewise loop of default_read on block b. */
    method ReadBlock(b: Block) returns (data: seq<byte>)
      requires Wf() && Exists(b)
      ensures Wf() && data == BlockBytes(disk, b) && |data| == PAGE
      ensures forall k: nat :: HasRoom(k) == old(HasRoom(k))
    {
      hide Backed;
      assert PartOK(b.part);
      data := parts[b.part].ReadPage(b.off);
      forall j: nat ensures PartOK(j) {
        assert old(PartOK(j));
      }
      forall j: nat ensures ObjectOK(j) {
        assert old(ObjectOK(j));
      }
    }

    /** default_write: fails exactly when the page has no block and no partition has room; else the
        page holds the data. No other page changes. */
    method DefaultWrite(i: nat, p: nat, data: seq<byte>) returns (ok: bool)
      requires Valid() && i < |objects| && |data| == PAGE
      modifies this`led, this`curs, this`disk, parts, Bitmaps(), objects
      ensures Valid()
      ensures ok <==> old(led.SlotOf(i, p)).Some? || exists k: nat :: old(HasRoom(k))
      ensures old(led).Assigned(i, p, led.SlotOf(i, p), led) && (ok <==> led.SlotOf(i, p).Some?)
      ensures ok ==> BytesOf(led, disk, i, p) == data
      ensures SameBytes(old(led), old(disk), led, disk, i, p)
      ensures ok ==>
        InRange(old(disk), led.SlotOf(i, p).value) && disk == Written(old(disk), led.SlotOf(i, p).value, data)
    {
      hide Wf, Ledger.Consistent, Sound, BlockBytes, Written, Ledger.Assigned, Ledger.SlotOf;
      var v := WriteOffset(i, p);
      AssignedBytes(old(led), disk, i, p, v, led);
      ok := v.Some?;
      if ok {
        led.SlotHeld(i, p);
        AllocatedLive(v.value);
        WriteBlock(v.value, data);
        WrittenPages(led, old(disk), i, p, v.value, data);
      }
    }

    /** pager_release_offset up to its unlock: the slot is empty and the block still allocated. */
    method ClearSlot(i: nat, p: nat) returns (b: Block)
      requires Valid() && led.SlotOf(i, p).Some?
      modifies this`led, objects
      ensures Valid() && led.SlotOf(i, p) == None && old(led.SlotOf(i, p)) == Some(b) && led == old(led).Loosened(i, p)
      ensures forall k: nat :: HasRoom(k) == old(HasRoom(k))
    {
      hide Ledger.Consistent, Sound, Part.Valid;
      led.SlotHeld(i, p);
      ObjectFacts(i);
      b := objects[i].Read(p).value;
      led.Loosen(i, p);
      PutSlot(i, p, None);
      label Put:
      led := led.(loose := led.loose + {b});
      assert led == old(led).Loosened(i, p);
      forall j: nat ensures PartOK(j) {
        assert old@Put(PartOK(j));
      }
      forall j: nat ensures ObjectOK(j) {
        assert old@Put(ObjectOK(j));
      }
      SoundHarmless(old(led), curs, listed, departing, scanned, led);
    }

    /** The rest of pager_release_offset: the block is given back. */
    method FreeLoose(b: Block)
      requires Valid() && b in led.loose
      modifies this`led, parts, Bitmaps()
      ensures b.part < |old(led).used| && Valid() && led == old(led).GivenBack(b)
      ensures forall k: nat :: HasRoom(k) == if k == b.part then k != departing else old(HasRoom(k))
    {
      hide Ledger.Consistent, Sound, Part.Valid;
      led.GiveBack(b);
      DeallocPage(b);
      label Freed:
      led := led.(loose := led.loose - {b});
      assert led == old(led).GivenBack(b);
      forall j: nat ensures PartOK(j) {
        assert old@Freed(PartOK(j));
      }
      forall j: nat ensures ObjectOK(j) {
        assert old@Freed(ObjectOK(j));
      }
      SoundHarmless(old(led), curs, listed, departing, scanned, led);
    }

    /** pager_release_offset without interruption. */
    method ReleaseOffset(i: nat, p: nat)
      requires Valid() && led.SlotOf(i, p).Some?
      modifies this`led, parts, Bitmaps(), objects
      ensures Valid() && led == old(led).Released(i, p)
      ensures forall k: nat ::
        HasRoom(k) == if InPart(old(led.SlotOf(i, p)), k) then k != departing else old(HasRoom(k))
    {
      hide Wf, Ledger.Consistent, Sound;
      led.Release(i, p);
      var b := ClearSlot(i, p);
      FreeLoose(b);
    }

    /** default_read: the bytes of the page; with deallocate, the page then has no block. */
    method DefaultRead(i: nat, p: nat, deallocate: bool) returns (r: ReadResult)
      requires Valid() && led.IsSlot(i, p)
      modifies this`led, parts, Bitmaps(), objects
      ensures Valid()
      ensures r == if old(led.SlotOf(i, p)) == None then Absent else Data(BytesOf(old(led), disk, i, p))
      ensures led == if r.Data? && deallocate then old(led).Released(i, p) else old(led)
    {
      hide Wf, Ledger.Consistent, Sound, BlockBytes;
      ObjectFacts(i);
      var v := objects[i].Read(p);
      if v == None { return Absent; }
      led.SlotHeld(i, p);
      AllocatedLive(v.value);
      var data := ReadBlock(v.value);
      r := Data(data);
      if deallocate { ReleaseOffset(i, p); }
    }

    /** pager_move_page: the page of block b goes to any other partition with room. Only as much is
        moved as one read and one write can move. */
    method MovePage(b: Block) returns (v: Slot)
      requires Wf() && led.Allocated(b)
      modifies this`led, this`disk, parts, Bitmaps()
      ensures Wf()
      ensures v == None ==> led == old(led) && disk == old(disk)
      ensures v == None <==> forall k: nat :: k != b.part ==> !old(HasRoom(k))
      ensures v == None ==> forall k: nat :: HasRoom(k) == old(HasRoom(k))
      ensures forall k: nat :: k != b.part && HasRoom(k) ==> old(HasRoom(k))
      ensures v.Some? ==> Live(b.part) && Live(v.value.part) && v.value.part != departing
      ensures v.Some? ==> v.value.part != b.part && v.value.part < |led.used| && !old(led).Allocated(v.value)
      ensures v.Some? ==> old(Chosen(v.value.part, PAGE, b.part))
      ensures v.Some? ==> LowestFree(old(led.used[v.value.part]), v.value.off)
      ensures v.Some? ==> led == old(led).Take(v.value).Free(b)
      ensures v.Some? ==> InRange(old(disk), b) && InRange(old(disk), v.value)
      ensures v.Some? ==>
        disk == Written(old(disk), v.value,
                        BlockBytes(old(disk), b)[..MoveSize(parts[b.part].bsize, parts[v.value.part].bsize)])
      ensures v.Some? ==>
        BlockBytes(disk, v.value) == Landed(BlockBytes(old(disk), b), BlockBytes(old(disk), v.value),
                                            parts[b.part].bsize, parts[v.value.part].bsize)
    {
      hide Wf, BlockBytes, Written, Landed, MoveSize;
      var k := Choose(PAGE, b.part);
      if k == NO_PART {
        forall j: nat | j != b.part ensures !old(HasRoom(j)) {
          assert !Candidate(j, PAGE, b.part);
        }
        return None;
      }
      assert HasRoom(k);
      v := AllocPage(k);
      var data := ReadStart(b);
      DeallocPage(b);
      WriteStart(v.value, data);
      MovedBytes(old(disk), b, v.value, parts[b.part].bsize, parts[k].bsize);
    }

    method ReadStart(b: Block) returns (data: seq<byte>)
      requires Wf() && led.Allocated(b)
      ensures Wf() && Live(b.part) && InRange(disk, b) && |data| <= PAGE
      ensures data == BlockBytes(disk, b)[..Min(PAGE, parts[b.part].bsize)]
      ensures forall k: nat :: HasRoom(k) == old(HasRoom(k))
    {
      hide Backed;
      assert PartOK(b.part);
      data := parts[b.part].ReadStart(b.off);
      forall j: nat ensures PartOK(j) {
        assert old(PartOK(j));
      }
      forall j: nat ensures ObjectOK(j) {
        assert old(ObjectOK(j));
      }
    }

    method WriteStart(b: Block, data: seq<byte>)
      requires Wf() && led.Allocated(b) && |data| <= PAGE
      modifies this`disk, parts
      ensures Wf() && Live(b.part) && InRange(old(disk), b)
      ensures disk == Written(old(disk), b, data[..Min(|data|, parts[b.part].bsize)])
      ensures forall k: nat :: HasRoom(k) == old(HasRoom(k))
    {
      hide Backed;
      assert PartOK(b.part);
      var n := parts[b.part].WriteStart(b.off, data);
      disk := Written(disk, b, data[..n]);
      forall j: nat ensures PartOK(j) {
        assert old(PartOK(j));
      }
      forall j: nat ensures ObjectOK(j) {
        assert old(ObjectOK(j));
      }
    }

    /** From led0 and disk0 exactly the pages in ms have moved, out of the departing partition. */
    ghost predicate MovedFrom(led0: Ledger, disk0: seq<seq<byte>>, ms: seq<Move>)
      reads this`led, this`disk, this`parts, this`departing
    {
      Moved(led0, led, disk0, departing, ms) && disk == AfterMoves(disk0, Bsizes(parts), ms)
    }

    /** Moving page p of object i when it is in the departing partition. */
    method MoveAway(i: nat, p: nat, pindex: nat, ghost led0: Ledger, ghost disk0: seq<seq<byte>>, ghost ms0: seq<Move>)
        returns (ok: bool, ghost ms: seq<Move>)
      requires Valid() && pindex == departing != NO_PART && led.IsSlot(i, p) && MovedFrom(led0, disk0, ms0)
      modifies this`led, this`disk, parts, Bitmaps(), objects
      ensures Valid() && MovedFrom(led0, disk0, ms) && ms0 <= ms
      ensures i < |led.slots| && |led.slots[i]| == old(|led.slots[i]|)
      ensures forall n :: |ms0| <= n < |ms| ==>
        ms[n].i == i && ms[n].p == p && old(Chosen(ms[n].to.part, PAGE, departing))
      ensures ok ==> forall q ::
        led.SlotOf(i, q) == old(led.SlotOf(i, q)) || (led.SlotOf(i, q).Some? && !InPart(led.SlotOf(i, q), departing))
      ensures ok ==> !InPart(led.SlotOf(i, p), departing)
      ensures !ok ==> InPart(led.SlotOf(i, p), departing) && forall k: nat :: !HasRoom(k)
      ensures forall k: nat :: HasRoom(k) ==> old(HasRoom(k))
    {
      hide Wf, Ledger.Consistent, Sound, BlockBytes, Written, Moved, AfterMoves;
      ObjectFacts(i);
      var v := objects[i].Read(p);
      ok, ms := true, ms0;
      if v.Some? && v.value.part == pindex {
        led.SlotHeld(i, p);
        AllocatedLive(v.value);
        var w := MovePage(v.value);
        if w.Some? {
          PutSlot(i, p, w);
          old(led).Relocate(i, p, w.value);
          assert led == old(led).Relocated(i, p, w.value);
          SoundHarmless(old(led), curs, listed, departing, scanned, led);
          ShapeKept(disk0, Bsizes(parts), ms0);
          MovedOn(led0, old(led), disk0, departing, ms0, i, p, w.value);
          ms := ms0 + [Move(i, p, v.value, w.value)];
          OneMoreMove(disk0, Bsizes(parts), ms0, Move(i, p, v.value, w.value));
        } else {
          ok := false;
        }
        Staying(departing);
      }
    }

    /** With no partition but the departing one, an object that avoids it has no pages. */
    lemma {:induction false} NowhereElse(i: nat, p: nat)
      requires Wf() && led.Consistent() && led.Avoids(i, departing)
      requires forall j: nat :: !Candidate(j, 0, NO_PART)
      ensures led.SlotOf(i, p) == None
    {
      hide Ledger.Consistent;
      if led.SlotOf(i, p).Some? {
        var b := led.SlotOf(i, p).value;
        assert !Candidate(b.part, 0, NO_PART);
        led.SlotHeld(i, p);
        AllocatedLive(b);
      }
    }

    lemma {:induction false} AllocatedLive(b: Block)
      requires Wf() && led.Allocated(b)
      ensures Live(b.part) && b.part != NO_PART && (parts[b.part].goingAway <==> b.part == departing)
      ensures Exists(b) && InRange(disk, b)
    {
      assert PartOK(b.part);
    }

    /** pager_realloc: every page of the object leaves the departing partition, or no other
        partition has room. Either way all pages stay, and exactly the pages in ms are moved. */
    method Realloc(i: nat, pindex: nat, ghost led0: Ledger, ghost disk0: seq<seq<byte>>, ghost ms0: seq<Move>)
        returns (ok: bool, ghost ms: seq<Move>)
      requires Valid() && pindex == departing != NO_PART && i < |objects| && MovedFrom(led0, disk0, ms0)
      modifies this`led, this`curs, this`disk, parts, Bitmaps(), objects
      ensures Valid() && MovedFrom(led0, disk0, ms) && ms0 <= ms
      ensures forall n :: |ms0| <= n < |ms| ==> ms[n].i == i
      ensures ok ==> |curs| == |old(curs)| && curs == old(curs)[i := curs[i]] && Clear(led, listed, departing, i)
      ensures ok ==> Chosen(curs[i], 0, NO_PART) && led.Avoids(i, departing)
      ensures !ok ==> curs == old(curs) && !led.Avoids(i, departing) && forall k: nat :: !HasRoom(k)
      ensures forall k: nat :: HasRoom(k) ==> old(HasRoom(k))
    {
      hide Wf, Ledger.Consistent, Sound, MovedFrom;
      ObjectFacts(i);
      var size, p := objects[i].size, 0;
      ms := ms0;
      while p < size
        invariant Valid() && MovedFrom(led0, disk0, ms) && ms0 <= ms && forall n :: |ms0| <= n < |ms| ==> ms[n].i == i
        invariant i < |led.slots| && 0 <= p <= size == |led.slots[i]| && curs == old(curs)
        invariant forall q: nat :: q < p ==> !InPart(led.SlotOf(i, q), departing)
        invariant forall k: nat :: HasRoom(k) ==> old(HasRoom(k))
      {
        var moved;
        moved, ms := MoveAway(i, p, pindex, led0, disk0, ms);
        if !moved { return false, ms; }
        p := p + 1;
      }
      var k := Choose(0, NO_PART);
      if k == NO_PART {
        forall q: nat ensures led.SlotOf(i, q) == None {
          NowhereElse(i, q);
        }
      } else {
        Staying(k);
      }
      SoundSetCur(led, curs, listed, departing, scanned, i, k);
      SetCur(i, k);
      ok := true;
    }

    // ----- destroy_paging_partition, one step at a time -----

    /** Finding the partition and marking it. */
    method DestroyBegin(id: nat) returns (k: nat)
      requires Valid() && departing == NO_PART
      modifies this`departing, this`scanned, parts
      ensures Valid()
      ensures k == NO_PART ==> departing == NO_PART && scanned == old(scanned)
      ensures k == NO_PART ==> forall j: nat :: Live(j) ==> parts[j].id != id
      ensures k != NO_PART ==> departing == k < NO_PART && scanned == 0 && Live(k) && parts[k].id == id
      ensures k != NO_PART ==> forall j: nat :: j < k && Live(j) ==> parts[j].id != id
      ensures forall j: nat :: HasRoom(j) == (old(HasRoom(j)) && j != k)
    {
      hide Backed, Ledger.Consistent;
      k := 0;
      while k < |parts|
        invariant 0 <= k <= |parts|
        invariant forall j: nat :: j < k && Live(j) ==> parts[j].id != id
      {
        if parts[k] != null && parts[k].id == id { break; }
        k := k + 1;
      }
      if k == |parts| { return NO_PART; }
      assert PartOK(k);
      parts[k].goingAway := true;
      departing, scanned := k, 0;
      forall j: nat ensures PartOK(j) {
        assert old(PartOK(j));
      }
      forall j: nat ensures ObjectOK(j) {
        assert old(ObjectOK(j));
      }
    }

    /** Dealing with the next object of the list. */
    method DestroyScan(i: nat, k: nat, ghost led0: Ledger, ghost disk0: seq<seq<byte>>, ghost ms0: seq<Move>)
        returns (ok: bool, ghost ms: seq<Move>)
      requires Valid() && departing == k != NO_PART && i == scanned < |objects| && MovedFrom(led0, disk0, ms0)
      modifies this`led, this`curs, this`disk, this`scanned, parts, Bitmaps(), objects
      ensures Valid() && MovedFrom(led0, disk0, ms) && ms0 <= ms
      ensures forall n :: |ms0| <= n < |ms| ==> ms[n].i == i && i < |listed| && listed[i]
      ensures ok ==> scanned == i + 1 && i < |listed| && (listed[i] ==> led.Avoids(i, k))
      ensures ok && i < |listed| && listed[i] ==> |curs| == |old(curs)| && i < |curs| && Chosen(curs[i], 0, NO_PART)
      ensures i < |listed| && !listed[i] ==> ok && ms == ms0 && led == old(led)
      ensures !ok ==> scanned == i && !led.Avoids(i, k) && forall k: nat :: !HasRoom(k)
      ensures forall k: nat :: HasRoom(k) ==> old(HasRoom(k))
    {
      hide Wf, Ledger.Consistent, Sound, Moved, AfterMoves;
      Sizes();
      ok, ms := true, ms0;
      if listed[i] { ok, ms := Realloc(i, k, led0, disk0, ms0); }
      if ok { Advance(); }
    }

    method Advance()
      requires Valid() && scanned < |objects| == |listed| && Clear(led, listed, departing, scanned)
      modifies this`scanned
      ensures Valid() && scanned == old(scanned) + 1
    {
      hide Part.Valid, Ledger.Consistent, Clear;
      scanned := scanned + 1;
      forall j: nat ensures PartOK(j) {
        assert old(PartOK(j));
      }
      forall j: nat ensures ObjectOK(j) {
        assert old(ObjectOK(j));
      }
    }

    /** Success: the partition leaves the list. No listed object has a page in it. It was empty, and
        all blocks still have exactly one owner, if and only if no object that has left the list had
        a page in it and no release of a block of it was half done. */
    method DestroyEnd(k: nat)
      requires Valid() && departing == k != NO_PART && scanned == |objects|
      modifies this`parts, this`departing, this`led
      ensures Wf() && departing == NO_PART && parts == old(parts)[k := null] && k < |old(led).used|
      ensures |curs| == |listed|
      ensures led == old(led).(used := old(led).used[k := {}])
      ensures old(led).used[k] == {} <==> NoStrays(led, listed, k) && led.NoLoose(k)
      ensures Valid() <==> NoStrays(led, listed, k) && led.NoLoose(k)
      ensures forall i: nat :: i < |objects| && listed[i] ==> led.Avoids(i, k)
      ensures forall j: nat :: HasRoom(j) == old(HasRoom(j))
    {
      hide Part.Valid, Ledger.Consistent;
      Emptied(led, curs, listed, k, scanned);
      TakenOut(led, k);
      Staying(k);
      assert PartOK(k);
      ghost var was := led;
      led := led.(used := led.used[k := {}]);
      assert forall j: nat, q: nat :: led.SlotOf(j, q) == was.SlotOf(j, q);
      SoundHarmless(was, curs, listed, departing, scanned, led);
      parts := parts[k := null];
      departing := NO_PART;
      forall j: nat ensures PartOK(j) {
        assert old(PartOK(j));
      }
      forall j: nat ensures ObjectOK(j) {
        assert old(ObjectOK(j));
      }
    }

    /** Failure: the partition is back in use. */
    method DestroyAbort(k: nat)
      requires Valid() && departing == k != NO_PART
      modifies this`departing, parts
      ensures Valid() && departing == NO_PART && Live(k) && (HasRoom(k) <==> old(parts[k].free) > 0)
      ensures forall j: nat :: j != k ==> HasRoom(j) == old(HasRoom(j))
    {
      hide Backed, Ledger.Consistent;
      assert PartOK(k);
      parts[k].goingAway := false;
      departing := NO_PART;
      forall j: nat ensures PartOK(j) {
        assert old(PartOK(j));
      }
      forall j: nat ensures ObjectOK(j) {
        assert old(ObjectOK(j));
      }
    }

    /** destroy_paging_partition without interruption, of partition k. */
    method Destroy(id: nat) returns (r: Outcome, k: nat, ghost ms: seq<Move>)
      requires Valid() && departing == NO_PART
      modifies this, parts, Bitmaps(), objects
      ensures Wf() && departing == NO_PART && objects == old(objects) && listed == old(listed)
      ensures |curs| == |objects| == |listed|
      ensures Moved(old(led), led, old(disk), k, ms) && disk == AfterMoves(old(disk), Bsizes(old(parts)), ms)
      ensures r == InvalidArgument ==> parts == old(parts) && led == old(led) && ms == []
      ensures r == InvalidArgument ==> forall j: nat :: Live(j) ==> parts[j].id != id
      ensures r != InvalidArgument ==> k < |old(parts)| && old(parts)[k] != null && old(parts)[k].id == id
      ensures r != Removed ==> Valid()
      ensures r == Failure ==> parts == old(parts) && exists i: nat :: i < |objects| && !led.Avoids(i, k)
      ensures r == Failure ==> forall j: nat :: j != k ==> !HasRoom(j)
      ensures r == Removed ==>
        parts == old(parts)[k := null] && (Valid() <==> NoStrays(led, listed, k) && led.NoLoose(k))
      ensures r == Removed ==> forall i: nat :: i < |objects| && listed[i] ==> led.Avoids(i, k)
    {
      hide Wf, Ledger.Consistent, Moved, Clear, AfterMoves, Ledger.Avoids;
      k := DestroyBegin(id);
      Sizes();
      MovedNone(led, disk, k);
      ms := [];
      assert AfterMoves(disk, Bsizes(parts), []) == disk by { NoMoves(disk, Bsizes(parts)); }
      if k == NO_PART { return InvalidArgument, k, ms; }
      var i := 0;
      while i < |objects|
        invariant Valid() && departing == k && i == scanned <= |objects|
        invariant parts == old(parts) && objects == old(objects) && listed == old(listed) && Live(k)
        invariant parts[k].id == id
        invariant MovedFrom(old(led), old(disk), ms)
      {
        var ok;
        ok, ms := DestroyScan(i, k, old(led), old(disk), ms);
        if !ok {
          DestroyAbort(k);
          Sizes();
          return Failure, k, ms;
        }
        i := i + 1;
      }
      ghost var was := led;
      DestroyEnd(k);
      Sizes();
      MovedOut(old(led), was, old(disk), k, ms);
      r := Removed;
    }

    // ----- creating and removing -----

    /** partition_init and pager_port_list_init */
    constructor ()
      ensures Valid() && parts == [] && objects == [] && listed == [] && disk == [] && led.loose == {}
      ensures departing == NO_PART && scanned == 0
    {
      parts, objects, listed, led, curs, disk, departing, scanned := [], [], [], Ledger([], [], {}), [], [], NO_PART, 0;
    }

    /** create_paging_partition */
    method AddPartition(bytes: nat, id: nat, fd: Direct, dev: seq<byte>) returns (i: nat)
      requires Valid() && bytes < 0x1_0000_0000 && fd.Fits(dev) && PAGE * (bytes / PAGE) <= Shl(fd.Size(), fd.bshift)
      requires forall k :: 0 <= k < |fd.blocks| ==> !fd.Hole(k)
      requires exists k: nat :: k < NO_PART && !Live(k)
      modifies this`parts, this`led, this`disk
      ensures Valid() && i < NO_PART && !old(Live(i)) && Live(i) && fresh(parts[i]) && fresh(parts[i].bitmap)
      ensures forall j: nat :: j < i ==> old(Live(j))
      ensures parts[i].total == parts[i].free == bytes / PAGE && parts[i].id == id && parts[i].bsize == fd.Bsize()
      ensures forall k: nat :: k != i ==> Live(k) == old(Live(k)) && (Live(k) ==> parts[k] == old(parts)[k])
      ensures led.slots == old(led).slots && led.loose == old(led).loose
      ensures forall b :: led.Allocated(b) <==> old(led).Allocated(b)
      ensures forall j, q :: BytesOf(led, disk, j, q) == BytesOf(old(led), old(disk), j, q)
      ensures |disk| == |parts| && disk[i] == fd.Contents(dev, |fd.blocks|)
      ensures |old(disk)| <= |disk| && forall k: nat :: k != i && k < |old(disk)| ==> disk[k] == old(disk)[k]
      ensures !parts[i].goingAway && forall k: nat :: k != i ==> HasRoom(k) == old(HasRoom(k))
    {
      hide Part.Valid, Ledger.Consistent, Sound, BytesOf;
      ghost var k: nat :| k < NO_PART && !Live(k);
      i := 0;
      while i < |parts|
        invariant 0 <= i <= |parts| && i <= k && forall j: nat :: j < i ==> Live(j)
      {
        if parts[i] == null { break; }
        i := i + 1;
      }
      var part := new Part(bytes / PAGE, id, fd, dev);
      forall j: nat ensures PartOK(j) {
        assert old(PartOK(j));
      }
      forall j: nat ensures ObjectOK(j) {
        assert old(ObjectOK(j));
      }
      DoubleList(i);
      Install(part, i);
    }

    /** Doubling a full list of partitions. */
    method DoubleList(i: nat)
      requires Valid() && i <= |parts|
      modifies this`parts, this`led, this`disk
      ensures Valid() && i < |parts| && old(parts) <= parts
      ensures forall k :: |old(parts)| <= k < |parts| ==> parts[k] == null
      ensures led.slots == old(led).slots && led.loose == old(led).loose
      ensures forall b :: led.Allocated(b) <==> old(led).Allocated(b)
      ensures forall j, q :: BytesOf(led, disk, j, q) == BytesOf(old(led), old(disk), j, q)
      ensures old(disk) <= disk && |disk| == |parts|
    {
      hide Part.Valid, Ledger.Consistent, Sound, BytesOf, Ledger.Allocated;
      if i == |parts| {
        var n := if i == 0 then 2 else i;
        parts := parts + seq(n, _ => null);
        led := led.(used := led.used + seq(n, _ => {}));
        disk := disk + seq(n, _ => []);
        PartitionAdded(old(led), old(disk), led, disk, i);
        SoundHarmless(old(led), curs, listed, departing, scanned, led);
        forall j: nat ensures PartOK(j) {
          assert old(PartOK(j));
        }
        forall j: nat ensures ObjectOK(j) {
          assert old(ObjectOK(j));
        }
      }
    }

    /** Putting a partition at a free place of the list. */
    method Install(part: Part, i: nat)
      requires Valid() && part.Valid() && part.used == {} && !part.goingAway
      requires part !in parts && part.bitmap !in Bitmaps()
      requires i < |parts| && parts[i] == null && i < NO_PART
      modifies this`parts, this`disk
      ensures Valid() && parts == old(parts)[i := part]
      ensures |disk| == |old(disk)| == |parts| && disk == old(disk)[i := part.store]
      ensures forall j, q :: BytesOf(led, disk, j, q) == BytesOf(led, old(disk), j, q)
    {
      hide Part.Valid, Ledger.Consistent, Sound, BytesOf, Ledger.Allocated;
      assert PartOK(i);
      parts := parts[i := part];
      disk := disk[i := part.store];
      PartitionAdded(led, old(disk), led, disk, i);
      forall j: nat ensures PartOK(j) {
        assert old(PartOK(j));
      }
      forall j: nat ensures ObjectOK(j) {
        assert old(ObjectOK(j));
      }
    }

    /** The choice of pager_port_alloc for a new object. */
    method ChooseFor(bytes: nat) returns (k: nat)
      requires Valid()
      ensures Valid() && (k < |parts| || k == NO_PART) && FirstFit(k, bytes, 0)
      ensures forall j: nat :: HasRoom(j) == old(HasRoom(j))
    {
      hide Wf, Ledger.Consistent, Sound;
      k := Choose(bytes, NO_PART);
      if k == NO_PART { k := Choose(0, NO_PART); }
    }

    /** pager_alloc and pager_port_list_insert: a new object, without pages, at the end of the list.
        The partition chosen for it may be on its way out by now, or gone. */
    method AddObject(bytes: nat, part: nat)
      requires Valid() && part <= NO_PART && (part < |parts| || part == NO_PART)
      modifies this`objects, this`listed, this`led, this`curs, this`scanned
      ensures Valid() && listed == old(listed) + [true] && curs == old(curs) + [part]
      ensures scanned == old(if scanned == |objects| then scanned + 1 else scanned)
      ensures |objects| == |old(objects)| + 1 && objects[..|old(objects)|] == old(objects)
      ensures fresh(objects[|old(objects)|]) && objects[|old(objects)|].size >= bytes / PAGE
      ensures led == old(led).(slots := old(led).slots + [Nones(objects[|old(objects)|].size)])
      ensures bytes / PAGE > MAX_DOUBLED ==> objects[|old(objects)|].size == RoundUp(bytes / PAGE)
      ensures objects[|old(objects)|].size == 1 || objects[|old(objects)|].size < 2 * (bytes / PAGE)
      ensures forall k: nat :: HasRoom(k) == old(HasRoom(k))
    {
      hide Part.Valid, Ledger.Consistent, Sound, RoundUp;
      var ob := new Dpager(part, bytes);
      forall j: nat ensures PartOK(j) {
        assert old(PartOK(j));
      }
      forall j: nat ensures ObjectOK(j) {
        assert old(ObjectOK(j));
      }
      Append(ob);
    }

    method Append(ob: Dpager)
      requires Valid() && ob.Valid() && ob !in objects && ob.slots == Nones(ob.size)
      requires ob.cur == NO_PART || ob.cur < |parts|
      modifies this`objects, this`listed, this`led, this`curs, this`scanned
      ensures Valid() && objects == old(objects) + [ob] && listed == old(listed) + [true]
      ensures curs == old(curs) + [ob.cur]
      ensures scanned == old(if scanned == |objects| then scanned + 1 else scanned)
      ensures led == old(led).(slots := old(led).slots + [ob.slots])
    {
      hide Part.Valid, Ledger.Consistent, Sound;
      led.AddObject(ob.size);
      SoundAdded(led, curs, listed, departing, scanned, ob.cur, ob.size);
      if scanned == |objects| { scanned := scanned + 1; }
      objects, listed, curs := objects + [ob], listed + [true], curs + [ob.cur];
      led := led.(slots := led.slots + [ob.slots]);
      forall j: nat ensures PartOK(j) {
        assert old(PartOK(j));
      }
      forall j: nat ensures ObjectOK(j) {
        assert old(ObjectOK(j));
      }
    }

    /** pager_dealloc: all blocks of the object are given back. */
    method DeallocObject(i: nat)
      requires Valid() && i < |objects|
      modifies this`led, parts, Bitmaps(), objects
      ensures Valid() && old(led).FreedBelow(i, old(objects[i].size), led)
      ensures forall q :: led.SlotOf(i, q) == None
    {
      hide Wf, Ledger.Consistent, Sound, Ledger.FreedBelow;
      ObjectFacts(i);
      var size, p := objects[i].size, 0;
      led.FreeNone(i);
      while p < size
        invariant Valid() && i < |led.slots| && 0 <= p <= size == |led.slots[i]| && old(led).FreedBelow(i, p, led)
      {
        ObjectFacts(i);
        old(led).FreeNext(i, p, led);
        if objects[i].Read(p).Some? {
          ReleaseOffset(i, p);
        }
        p := p + 1;
      }
      old(led).FreedAll(i, size, led);
    }

    /** pager_port_list_delete: the object leaves the list, with the blocks it has. */
    method ListDelete(i: nat)
      requires Valid() && i < |objects|
      modifies this`listed
      ensures Valid() && listed == old(listed)[i := false]
      ensures forall k: nat :: HasRoom(k) == old(HasRoom(k))
    {
      hide Part.Valid, Ledger.Consistent, Sound;
      SoundUnlisted(led, curs, listed, departing, scanned, i);
      listed := listed[i := false];
      forall j: nat ensures PartOK(j) {
        assert old(PartOK(j));
      }
      forall j: nat ensures ObjectOK(j) {
        assert old(ObjectOK(j));
      }
    }

    // ----- conservation -----

    /** total_size - free, over the first n places of the list of partitions. */
    function InUse(n: nat): int
      requires n <= |parts|
      reads this, parts
    {
      if n == 0 then 0 else InUse(n - 1) + if parts[n - 1] == null then 0 else parts[n - 1].total - parts[n - 1].free
    }

    /** What pager_allocated counts, in pages, over the first n objects. */
    ghost function PagesInPlace(n: nat): nat
      requires n <= |objects|
      reads this, objects
    {
      if n == 0 then 0 else PagesInPlace(n - 1) + InPlace(objects[n - 1].slots)
    }

    lemma {:induction false} InUseIs(n: nat)
      requires Wf() && n <= |parts|
      ensures InUse(n) == led.UsedCount(n)
    {
      if n > 0 {
        InUseIs(n - 1);
        assert PartOK(n - 1);
      }
    }

    lemma {:induction false} PagesInPlaceIs(n: nat)
      requires Wf() && n <= |objects|
      ensures PagesInPlace(n) == led.SlotCount(n)
    {
      if n > 0 {
        PagesInPlaceIs(n - 1);
        assert ObjectOK(n - 1);
      }
    }

    /** In every valid state as many blocks are in use as pages are in place and releases half done. */
    lemma {:induction false} Balance()
      requires Valid()
      ensures InUse(|parts|) == PagesInPlace(|objects|) + |led.loose|
    {
      InUseIs(|parts|);
      PagesInPlaceIs(|objects|);
      led.Conservation();
    }
  }
}
