/** Every run of the default pager is a run of PageStore. A request takes a step whenever it drops a
    lock, and a partition's removal is one step for each object; new partitions, new objects, requests
    for different pages, removals and the end of objects come in any order. */
module PagerRuns {
  import opened Bits
  import opened BlockMap
  import opened FileDirect
  import opened Partition
  import opened PageMap
  import opened PageBytes
  import opened Departure
  import opened Pager
  import opened PageStore

  // ----- what a pager shows -----

  function Places(slots: seq<Slot>): map<int, Block>
  {
    map p: int | 0 <= p < |slots| && slots[p].Some? :: slots[p].value
  }

  function AllPlaces(slots: seq<seq<Slot>>): (r: seq<map<int, Block>>)
    ensures |r| == |slots|
  {
    seq(|slots|, i requires 0 <= i < |slots| => Places(slots[i]))
  }

  function Lengths(slots: seq<seq<Slot>>): (r: seq<nat>)
    ensures |r| == |slots|
  {
    seq(|slots|, i requires 0 <= i < |slots| => |slots[i]|)
  }

  function Vols(parts: seq<Part?>): map<nat, Vol>
  {
    map k: nat | k < |parts| && parts[k] != null :: Vol(parts[k].id, parts[k].bsize, parts[k].total)
  }

  ghost function Rooms(pg: Pager): set<nat>
    reads pg`parts, pg.parts
  {
    set k: nat | k < |pg.parts| && pg.HasRoom(k)
  }

  ghost function View(pg: Pager): Abs
    reads pg, pg.parts
  {
    Abs(AllPlaces(pg.led.slots), Lengths(pg.led.slots), pg.led.loose, pg.disk, pg.listed, Vols(pg.parts), Rooms(pg),
        pg.departing, pg.scanned)
  }

  lemma {:induction false} Place(led: Ledger, i: nat, p: nat)
    ensures i < |led.slots| && p in AllPlaces(led.slots)[i] <==> led.SlotOf(i, p).Some?
    ensures led.SlotOf(i, p).Some? ==> led.SlotOf(i, p).value == AllPlaces(led.slots)[i][p]
  {
  }

  lemma {:induction false} NoNegative(led: Ledger, i: nat, p: int)
    ensures i < |led.slots| && p in AllPlaces(led.slots)[i] ==> p >= 0
  {
  }

  /** Places are determined page by page. */
  lemma {:induction false} SamePlaces(led: Ledger, at: seq<map<int, Block>>)
    requires |at| == |led.slots|
    requires forall i: nat, p: int :: i < |at| && p in at[i] ==> p >= 0 && led.SlotOf(i, p) == Some(at[i][p])
    requires forall i: nat, p: nat :: led.SlotOf(i, p).Some? ==> p in at[i]
    ensures AllPlaces(led.slots) == at
  {
    hide AllPlaces;
    forall i: nat | i < |at| ensures AllPlaces(led.slots)[i] == at[i] {
      forall p: int ensures p in AllPlaces(led.slots)[i] <==> p in at[i] {
        NoNegative(led, i, p);
        if p >= 0 { Place(led, i, p); }
      }
      forall p: int | p in at[i] ensures AllPlaces(led.slots)[i][p] == at[i][p] {
        Place(led, i, p);
      }
    }
  }

  lemma {:induction false} PlacesAssigned(led: Ledger, i: nat, p: nat, b: Block, now: Ledger)
    requires i < |led.slots| && led.Assigned(i, p, Some(b), now)
    ensures var at := AllPlaces(led.slots); AllPlaces(now.slots) == at[i := at[i][p := b]]
    ensures led.SlotOf(i, p).Some? ==> AllPlaces(now.slots) == AllPlaces(led.slots)
  {
    hide AllPlaces;
    var at := AllPlaces(led.slots);
    var at' := at[i := at[i][p := b]];
    forall j: nat, q: int | j < |at'| && q in at'[j] ensures q >= 0 && now.SlotOf(j, q) == Some(at'[j][q]) {
      NoNegative(led, j, q);
      if j != i || q != p { Place(led, j, q); assert now.SlotOf(j, q) == led.SlotOf(j, q); }
    }
    forall j: nat, q: nat | now.SlotOf(j, q).Some? ensures q in at'[j] {
      Place(led, j, q);
    }
    SamePlaces(now, at');
    Place(led, i, p);
    if led.SlotOf(i, p).Some? { assert at[i][p := b] == at[i]; }
  }

  lemma {:induction false} PlacesEmptied(led: Ledger, i: nat, p: nat)
    requires led.IsSlot(i, p)
    ensures var at := AllPlaces(led.slots); AllPlaces(led.Put(i, p, None).slots) == at[i := at[i] - {p}]
    ensures forall v :: Lengths(led.Put(i, p, v).slots) == Lengths(led.slots)
  {
    hide AllPlaces;
    var at, now := AllPlaces(led.slots), led.Put(i, p, None);
    var at' := at[i := at[i] - {p}];
    forall j: nat, q: int | j < |at'| && q in at'[j] ensures q >= 0 && now.SlotOf(j, q) == Some(at'[j][q]) {
      NoNegative(led, j, q);
      Place(led, j, q);
    }
    forall j: nat, q: nat | now.SlotOf(j, q).Some? ensures q in at'[j] {
      Place(led, j, q);
    }
    SamePlaces(now, at');
  }

  lemma {:induction false} PlacesAdded(slots: seq<seq<Slot>>, n: nat)
    ensures AllPlaces(slots + [Nones(n)]) == AllPlaces(slots) + [map[]]
    ensures Lengths(slots + [Nones(n)]) == Lengths(slots) + [n]
  {
    assert Places(Nones(n)) == map[];
  }

  lemma {:induction false} ViewHas(pg: Pager, i: nat, p: nat)
    ensures View(pg).Has(i, p) <==> pg.led.SlotOf(i, p).Some?
    ensures View(pg).Has(i, p) ==> pg.led.SlotOf(i, p) == Some(View(pg).at[i][p])
    ensures View(pg).Bytes(i, p) == BytesOf(pg.led, pg.disk, i, p)
  {
    hide BlockBytes, AllPlaces;
    Place(pg.led, i, p);
  }

  lemma {:induction false} ViewExists(pg: Pager, b: Block)
    requires pg.Wf()
    ensures View(pg).Exists(b) <==> pg.Exists(b)
  {
    hide Part.Valid;
    if pg.Exists(b) { RangeOf(pg, b); }
  }

  lemma {:induction false} RangeOf(pg: Pager, b: Block)
    requires pg.Wf() && pg.Exists(b)
    ensures InRange(pg.disk, b)
  {
    assert pg.PartOK(b.part);
  }

  /** Exact ownership, as seen from outside. */
  lemma {:induction false} ViewSane(pg: Pager)
    requires pg.Valid()
    ensures View(pg).Sane()
  {
    hide Pager.Wf, View, Ledger.Consistent, Abs.Exists, Sound;
    var a := View(pg);
    ViewSizes(pg);
    forall i: nat, p: nat ensures a.PageSane(i, p) {
      PageIsSane(pg, i, p);
    }
    forall i: nat, p: nat, j: nat, q: nat ensures a.OneOwner(i, p, j, q) {
      ViewHas(pg, i, p);
      ViewHas(pg, j, q);
      if a.Has(i, p) && a.Has(j, q) && a.at[i][p] == a.at[j][q] { OneOwner(pg.led, i, p, j, q); }
    }
    forall b | b in a.loose ensures a.Exists(b) {
      pg.led.LooseAllocated(b);
      pg.AllocatedLive(b);
      ViewExists(pg, b);
    }
    forall b ensures a.OnDisk(b) {
      ViewOnDisk(pg, b);
    }
  }

  lemma {:induction false} PageIsSane(pg: Pager, i: nat, p: nat)
    requires pg.Valid()
    ensures View(pg).PageSane(i, p)
  {
    hide Pager.Wf, Ledger.Consistent, Abs.Exists, Sound, AllPlaces;
    ViewHas(pg, i, p);
    if pg.led.SlotOf(i, p).Some? {
      var b := pg.led.SlotOf(i, p).value;
      pg.led.SlotHeld(i, p);
      pg.led.LooseNotHeld(i, p);
      pg.AllocatedLive(b);
      ViewExists(pg, b);
    }
  }

  lemma {:induction false} ViewOnDisk(pg: Pager, b: Block)
    requires pg.Wf()
    ensures View(pg).OnDisk(b)
  {
    hide Part.Valid;
    if pg.Exists(b) { RangeOf(pg, b); }
  }

  lemma {:induction false} OneOwner(led: Ledger, i: nat, p: nat, j: nat, q: nat)
    requires led.Consistent() && led.SlotOf(i, p).Some? && led.SlotOf(i, p) == led.SlotOf(j, q)
    ensures i == j && p == q
  {
    assert led.SameOwner(i, p, j, q);
  }

  lemma {:induction false} ViewSizes(pg: Pager)
    requires pg.Wf()
    ensures |View(pg).at| == |View(pg).sizes| == |View(pg).listed| == |pg.objects|
    ensures View(pg).departing == pg.departing && View(pg).scanned == pg.scanned && View(pg).disk == pg.disk
    ensures View(pg).listed == pg.listed && View(pg).loose == pg.led.loose && View(pg).vols == Vols(pg.parts)
  {
    pg.Sizes();
  }

  lemma {:induction false} RoomsAre(pg: Pager, k: nat)
    ensures k in Rooms(pg) <==> pg.HasRoom(k)
  {
  }

  /** The same slots show the same places. */
  lemma {:induction false} PlacesKept(led: Ledger, now: Ledger)
    requires |now.slots| == |led.slots| && forall j: nat, q: nat :: now.SlotOf(j, q) == led.SlotOf(j, q)
    ensures AllPlaces(now.slots) == AllPlaces(led.slots)
  {
    hide AllPlaces;
    var at := AllPlaces(led.slots);
    forall j: nat, q: int | j < |at| && q in at[j] ensures q >= 0 && now.SlotOf(j, q) == Some(at[j][q]) {
      NoNegative(led, j, q);
      Place(led, j, q);
    }
    forall j: nat, q: nat | now.SlotOf(j, q).Some? ensures q in at[j] {
      Place(led, j, q);
    }
    SamePlaces(now, at);
  }

  // ----- steps -----

  lemma {:induction false} BlockSame(disk: seq<seq<byte>>, disk': seq<seq<byte>>, b: Block)
    requires b.part < |disk| && b.part < |disk'| && disk'[b.part] == disk[b.part]
    ensures BlockBytes(disk', b) == BlockBytes(disk, b)
  {
  }

  lemma {:induction false} VolOf(pg: Pager, k: nat)
    ensures k in Vols(pg.parts) <==> pg.Live(k)
    ensures pg.Live(k) ==> Vols(pg.parts)[k] == Vol(pg.parts[k].id, pg.parts[k].bsize, pg.parts[k].total)
  {
  }

  method NewPartition(pg: Pager, bytes: nat, id: nat, fd: Direct, dev: seq<byte>) returns (k: nat)
    requires pg.Valid() && GoodFile(bytes, fd, dev) && exists k: nat :: k < NO_PART && !pg.Live(k)
    modifies pg`parts, pg`led, pg`disk
    ensures pg.Valid() && PartitionAt(old(View(pg)), k, Vol(id, fd.Bsize(), bytes / PAGE), View(pg))
    ensures forall k: nat :: k < |pg.parts| && pg.parts[k] !in old(pg.parts) && pg.parts[k] != null ==>
      fresh(pg.parts[k]) && fresh(pg.parts[k].bitmap)
  {
    hide Ledger.Consistent, Pager.Wf, Sound, BytesOf, BlockBytes, AllPlaces, Direct.Fits, Shl, Direct.Hole,
      Ledger.Allocated, Vols;
    ghost var a := View(pg);
    pg.Sizes();
    VolOf(pg, 0);
    forall j: nat ensures j in a.vols <==> pg.Live(j) {
      VolOf(pg, j);
    }
    ghost var parts := pg.parts;
    k := pg.AddPartition(bytes, id, fd, dev);
    ghost var v := Vol(id, fd.Bsize(), bytes / PAGE);
    VolAdded(parts, pg.parts, k, v);
    assert Rooms(pg) == if v.total > 0 then a.rooms + {k} else a.rooms;
    forall b: Block | b.part in a.vols ensures BlockBytes(pg.disk, b) == BlockBytes(a.disk, b) {
      BlockSame(a.disk, pg.disk, b);
    }
  }

  lemma {:induction false} VolAdded(parts: seq<Part?>, parts': seq<Part?>, k: nat, v: Vol)
    requires k < |parts'| && parts'[k] != null && v == Vol(parts'[k].id, parts'[k].bsize, parts'[k].total)
    requires forall j: nat :: j != k ==> (j < |parts'| && parts'[j] != null <==> j < |parts| && parts[j] != null)
    requires forall j: nat :: j != k && j < |parts| && parts[j] != null ==> j < |parts'| && parts'[j] == parts[j]
    ensures Vols(parts') == Vols(parts)[k := v]
  {
  }

  method DoAddPartition(pg: Pager, bytes: nat, id: nat, fd: Direct, dev: seq<byte>, ghost pend: seq<Pending>)
    returns (r: Reply)
    requires pg.Valid()
    modifies pg`parts, pg`led, pg`disk
    ensures pg.Valid() && r !in {Dangling, Shrunk}
    ensures Possible(old(State(View(pg), pend)), AddPartition(bytes, id, fd, dev), r, State(View(pg), pend))
    ensures forall k: nat :: k < |pg.parts| && pg.parts[k] !in old(pg.parts) && pg.parts[k] != null ==>
      fresh(pg.parts[k]) && fresh(pg.parts[k].bitmap)
  {
    hide Pager.Valid, GoodFile, AllPlaces, Rooms, PartitionAt, Vols;
    forall j: nat ensures j in Vols(pg.parts) <==> pg.Live(j) {
      VolOf(pg, j);
    }
    var room := exists k: nat :: k < NO_PART && !pg.Live(k);
    r := Refused;
    if room && GoodFile(bytes, fd, dev) {
      var k := NewPartition(pg, bytes, id, fd, dev);
      r := Done;
    }
  }

  method DoAddObject(pg: Pager, bytes: nat, part: nat, ghost pend: seq<Pending>) returns (r: Reply)
    requires pg.Valid()
    modifies pg`objects, pg`listed, pg`led, pg`curs, pg`scanned
    ensures pg.Valid() && r !in {Dangling, Shrunk}
    ensures Possible(old(State(View(pg), pend)), AddObject(bytes, part), r, State(View(pg), pend))
    ensures |old(pg.objects)| <= |pg.objects| && pg.objects[..|old(pg.objects)|] == old(pg.objects)
    ensures forall i: nat :: |old(pg.objects)| <= i < |pg.objects| ==> fresh(pg.objects[i])
  {
    hide Ledger.Consistent, Pager.Wf, Sound, AllPlaces, Vols;
    ghost var a := View(pg);
    pg.Sizes();
    VolOf(pg, part);
    if part > NO_PART || (part >= |pg.parts| && part != NO_PART) { return Refused; }
    pg.AddObject(bytes, part);
    PlacesAdded(old(pg.led).slots, pg.objects[|old(pg.objects)|].size);
    assert Rooms(pg) == a.rooms;
    assert ObjectAdded(a, bytes, View(pg));
    r := Done;
  }

  /** Where page p of object i is, none past its end. */
  method Lookup(pg: Pager, i: nat, p: nat) returns (v: Slot, inside: bool)
    requires pg.Valid() && i < |pg.objects|
    ensures v == pg.led.SlotOf(i, p) && (v.Some? ==> inside) && (inside <==> pg.led.IsSlot(i, p))
    ensures i < |View(pg).sizes| && (inside <==> p < View(pg).sizes[i])
    ensures pg.Valid() && View(pg) == old(View(pg))
  {
    hide Ledger.Consistent, Pager.Wf, Sound, AllPlaces, Vols, Rooms;
    pg.ObjectFacts(i);
    inside := p < pg.objects[i].size;
    v := if inside then pg.objects[i].Read(p) else None;
  }

  method DoListDelete(pg: Pager, i: nat, pend: seq<Pending>) returns (r: Reply)
    requires pg.Valid()
    modifies pg`listed
    ensures pg.Valid() && r !in {Dangling, Shrunk}
    ensures Possible(old(State(View(pg), pend)), ListDelete(i), r, State(View(pg), pend))
  {
    hide Ledger.Consistent, Pager.Wf, Sound, AllPlaces;
    ghost var st := State(View(pg), pend);
    ViewSizes(pg);
    pg.Sizes();
    if i < |pg.objects| && pg.listed[i] && !(exists n :: 0 <= n < |pend| && pend[n].On(i)) {
      pg.ListDelete(i);
      assert Rooms(pg) == st.a.rooms;
      r := Done;
    } else {
      r := Refused;
    }
  }

  /** pager_dealloc of one page. */
  method Free(pg: Pager, i: nat, p: nat)
    requires pg.Valid() && pg.led.SlotOf(i, p).Some?
    modifies pg`led, pg.parts, pg.Bitmaps(), pg.objects
    ensures pg.Valid() && old(View(pg)).Has(i, p) && View(pg) == old(View(pg)).Drop(i, p)
  {
    hide Ledger.Consistent, Pager.Wf, Sound, AllPlaces;
    ghost var a := View(pg);
    Place(pg.led, i, p);
    pg.led.SlotHeld(i, p);
    pg.led.LooseNotHeld(i, p);
    pg.AllocatedLive(a.at[i][p]);
    PlacesEmptied(pg.led, i, p);
    pg.ReleaseOffset(i, p);
    forall k: nat ensures k in Rooms(pg) <==> k in a.Drop(i, p).rooms {
      RoomsAre(pg, k);
    }
    assert a.Drop(i, p).loose == a.loose;
  }

  /** pager_release_offset, its first half. */
  method Empty(pg: Pager, i: nat, p: nat) returns (b: Block)
    requires pg.Valid() && pg.led.SlotOf(i, p).Some?
    modifies pg`led, pg.objects
    ensures pg.Valid() && old(View(pg)).Has(i, p) && View(pg) == old(View(pg)).Loosen(i, p)
    ensures b == old(View(pg)).at[i][p]
  {
    hide Ledger.Consistent, Pager.Wf, Sound, AllPlaces;
    ghost var a := View(pg);
    Place(pg.led, i, p);
    pg.led.SlotHeld(i, p);
    PlacesEmptied(pg.led, i, p);
    b := pg.ClearSlot(i, p);
    assert Rooms(pg) == a.rooms;
  }

  /** And its second half. */
  method Return(pg: Pager, b: Block)
    requires pg.Valid() && b in pg.led.loose
    modifies pg`led, pg.parts, pg.Bitmaps()
    ensures pg.Valid() && View(pg) == old(View(pg)).GiveBack(b)
  {
    hide Ledger.Consistent, Pager.Wf, Sound, AllPlaces;
    ghost var a := View(pg);
    pg.led.LooseAllocated(b);
    pg.AllocatedLive(b);
    pg.FreeLoose(b);
    forall k: nat ensures k in Rooms(pg) <==> k in a.GiveBack(b).rooms {
      RoomsAre(pg, k);
    }
  }

  method DoFree(pg: Pager, i: nat, p: nat, ghost pend: seq<Pending>) returns (r: Reply)
    requires pg.Valid()
    modifies pg`led, pg.parts, pg.Bitmaps(), pg.objects
    ensures pg.Valid() && r !in {Dangling, Shrunk}
    ensures Possible(old(State(View(pg), pend)), FreePage(i, p), r, State(View(pg), pend))
  {
    hide Ledger.Consistent, Pager.Wf, Sound, View, Abs.Drop;
    ghost var st := State(View(pg), pend);
    ViewSizes(pg);
    pg.Sizes();
    ViewHas(pg, i, p);
    r := Refused;
    if i < |pg.objects| && !pg.listed[i] {
      var v, inside := Lookup(pg, i, p);
      if v.Some? {
        Free(pg, i, p);
        r := Done;
      }
    }
  }

  method DoHas(pg: Pager, i: nat, p: nat, pend: seq<Pending>) returns (r: Reply)
    requires pg.Valid()
    ensures pg.Valid() && r !in {Dangling, Shrunk}
    ensures Possible(State(View(pg), pend), HasPage(i, p), r, State(View(pg), pend))
  {
    hide Ledger.Consistent, Pager.Wf, Sound, View;
    ViewSizes(pg);
    pg.Sizes();
    ViewHas(pg, i, p);
    r := Refused;
    if i < |pg.objects| && pg.listed[i] && !(exists n :: 0 <= n < |pend| && pend[n].Uses(i, p)) {
      var v, inside := Lookup(pg, i, p);
      if inside { r := Present(v.Some?); }
    }
  }

  method DoRead(pg: Pager, i: nat, p: nat, deallocate: bool, pend: seq<Pending>) returns (r: Reply, pend': seq<Pending>)
    requires pg.Valid()
    ensures pg.Valid() && r !in {Dangling, Shrunk}
    ensures Possible(State(View(pg), pend), ReadPage(i, p, deallocate), r, State(View(pg), pend'))
  {
    hide Ledger.Consistent, Pager.Wf, Sound, View;
    ViewSizes(pg);
    pg.Sizes();
    ViewHas(pg, i, p);
    r, pend' := Refused, pend;
    if i < |pg.objects| && pg.listed[i] && !(exists n :: 0 <= n < |pend| && pend[n].Uses(i, p)) {
      var v, inside := Lookup(pg, i, p);
      if v.Some? {
        r, pend' := Begun, pend + [Sought(i, p, v.value, deallocate)];
      } else if inside {
        r := Missing;
      }
    }
  }

  /** The block of a page within the object, as seen from outside. */
  method Find(pg: Pager, i: nat, p: nat) returns (v: Slot)
    requires pg.Valid() && pg.led.IsSlot(i, p)
    modifies pg`led, pg`curs, pg.parts, pg.Bitmaps(), pg.objects
    ensures pg.Valid()
    ensures v == None <==> !old(View(pg)).Has(i, p) && old(View(pg)).rooms == {}
    ensures v == None ==> View(pg) == old(View(pg))
    ensures v.Some? ==> Assigned(old(View(pg)), i, p, v.value, View(pg))
  {
    hide Ledger.Consistent, Pager.Wf, Sound, AllPlaces, Ledger.Assigned, LowestFree;
    ghost var a := View(pg);
    ghost var led := pg.led;
    pg.Sizes();
    Place(led, i, p);
    forall k: nat ensures k in a.rooms <==> pg.HasRoom(k) {
      RoomsAre(pg, k);
    }
    v := pg.FindBlock(i, p);
    SameLengths(led, i, p, v, pg.led);
    forall k: nat ensures k in Rooms(pg) <==> pg.HasRoom(k) {
      RoomsAre(pg, k);
    }
    if v.Some? {
      PlacesAssigned(led, i, p, v.value, pg.led);
      if led.SlotOf(i, p).Some? { SameSlot(led, i, p, v, pg.led); }
    } else {
      NoneAssigned(led, i, p, pg.led);
    }
  }

  lemma {:induction false} SameLengths(led: Ledger, i: nat, p: nat, v: Slot, now: Ledger)
    requires led.Assigned(i, p, v, now) && forall j: nat :: j < |now.slots| ==> |now.slots[j]| == |led.slots[j]|
    ensures Lengths(now.slots) == Lengths(led.slots) && now.loose == led.loose
  {
  }

  lemma {:induction false} SameSlot(led: Ledger, i: nat, p: nat, v: Slot, now: Ledger)
    requires led.Assigned(i, p, v, now) && led.SlotOf(i, p).Some?
    ensures v == led.SlotOf(i, p)
  {
  }

  lemma {:induction false} NoneAssigned(led: Ledger, i: nat, p: nat, now: Ledger)
    requires led.Assigned(i, p, None, now)
    ensures AllPlaces(now.slots) == AllPlaces(led.slots)
  {
    hide AllPlaces;
    forall j: nat, q: nat ensures now.SlotOf(j, q) == led.SlotOf(j, q) {
    }
    PlacesKept(led, now);
  }

  /** pager_write_offset under its lock, once the object has a partition. */
  method Look(pg: Pager, i: nat, p: nat, data: seq<byte>) returns (r: Reply, q: Pending)
    requires pg.Valid() && i < |pg.objects|
    modifies pg`led, pg`curs, pg.parts, pg.Bitmaps(), pg.objects
    ensures pg.Valid() && Looked(old(View(pg)), i, p, data, r, View(pg), q)
  {
    hide Pager.Valid, View, Assigned;
    var v, inside := Lookup(pg, i, p);
    if !inside {
      r, q := Growing, Extending(i, p, data);
    } else {
      v := Find(pg, i, p);
      if v.Some? {
        r, q := Begun, Found(i, p, v.value, data);
      } else {
        r, q := Failed, Idle;
      }
    }
  }

  /** Whether the object has a partition or could be given one. */
  method Ready(pg: Pager, i: nat, p: nat) returns (ok: bool)
    requires pg.Valid() && i < |pg.objects|
    modifies pg`curs, pg.objects
    ensures pg.Valid() && View(pg) == old(View(pg)) && (!ok ==> !View(pg).Has(i, p) && View(pg).rooms == {})
  {
    hide Ledger.Consistent, Pager.Wf, Sound, AllPlaces;
    ghost var rooms := Rooms(pg);
    ok := pg.Ready(i, p);
    Place(pg.led, i, p);
    assert Rooms(pg) == rooms;
  }

  method DoWrite(pg: Pager, i: nat, p: nat, data: seq<byte>, pend: seq<Pending>) returns (r: Reply, pend': seq<Pending>)
    requires pg.Valid()
    modifies pg`led, pg`curs, pg.parts, pg.Bitmaps(), pg.objects
    ensures pg.Valid() && r !in {Dangling, Shrunk}
    ensures Possible(old(State(View(pg), pend)), WritePage(i, p, data), r, State(View(pg), pend'))
  {
    hide Pager.Valid, View, Assigned;
    InOrder(pg);
    r, pend' := Refused, pend;
    if i < |pg.objects| && pg.listed[i] && !(exists n :: 0 <= n < |pend| && pend[n].Uses(i, p)) && |data| == PAGE {
      var ok := Ready(pg, i, p);
      if ok {
        var q;
        r, q := Look(pg, i, p, data);
        if r != Failed { pend' := pend + [q]; }
      } else {
        r := Failed;
      }
    }
  }

  lemma {:induction false} InOrder(pg: Pager)
    requires pg.Valid()
    ensures |View(pg).at| == |View(pg).listed| == |pg.objects| && View(pg).listed == pg.listed
    ensures View(pg).loose == pg.led.loose
    ensures View(pg).vols == Vols(pg.parts) && View(pg).departing == pg.departing && View(pg).scanned == pg.scanned
  {
    ViewSizes(pg);
  }

  /** The transfer to a block. */
  method Store(pg: Pager, b: Block, data: seq<byte>)
    requires pg.Valid() && View(pg).Exists(b) && |data| == PAGE
    modifies pg`disk, pg.parts
    ensures pg.Valid() && InRange(old(View(pg)).disk, b)
    ensures View(pg) == old(View(pg)).(disk := Written(old(View(pg)).disk, b, data))
  {
    hide Ledger.Consistent, Pager.Wf, Sound, AllPlaces, Written;
    ViewExists(pg, b);
    ghost var rooms := Rooms(pg);
    pg.WriteBlock(b, data);
    assert Rooms(pg) == rooms;
  }

  method Fetch(pg: Pager, b: Block) returns (data: seq<byte>)
    requires pg.Valid() && View(pg).Exists(b)
    ensures pg.Valid() && data == BlockBytes(View(pg).disk, b)
    ensures View(pg) == old(View(pg))
  {
    hide Ledger.Consistent, Pager.Wf, Sound, AllPlaces, BlockBytes;
    ViewExists(pg, b);
    ghost var rooms := Rooms(pg);
    data := pg.ReadBlock(b);
    assert Rooms(pg) == rooms;
  }

  /** pager_extend. */
  method Extend(pg: Pager, i: nat, p: nat) returns (ghost n: nat)
    requires pg.Valid() && i < |pg.objects|
    modifies pg`led, pg.objects
    ensures i < |old(View(pg)).sizes| && p < n
    ensures n < old(View(pg)).sizes[i] <==> Shrinks(old(View(pg)).sizes[i], p + 1)
    ensures pg.Valid() <==> !exists q: nat :: q >= n && old(View(pg)).Has(i, q)
    ensures p + 1 > MAX_DOUBLED ==> n == RoundUp(p + 1)
    ensures n >= old(View(pg)).sizes[i] ==>
      pg.Valid() && View(pg) == old(View(pg)).(sizes := old(View(pg)).sizes[i := n])
  {
    hide Ledger.Consistent, Pager.Wf, Sound, AllPlaces, RoundUp, Shrinks;
    ghost var a, led := View(pg), pg.led;
    pg.Sizes();
    forall q: nat ensures a.Has(i, q) <==> led.SlotOf(i, q).Some? {
      Place(led, i, q);
    }
    pg.ExtendMap(i, p);
    n := |pg.led.slots[i]|;
    if n >= |led.slots[i]| {
      PlacesKept(led, pg.led);
      assert Rooms(pg) == a.rooms;
    }
  }

  method DoExtend(pg: Pager, n: nat, pend: seq<Pending>) returns (r: Reply, pend': seq<Pending>)
    requires pg.Valid() && State(View(pg), pend).Good() && n < |pend| && pend[n].Extending?
    modifies pg`led, pg.objects
    ensures r != Dangling && (r == Shrunk <==> Shrinking(old(State(View(pg), pend)), Finish(n)))
    ensures r == Shrunk ==> (pg.Valid() <==> !Drops(old(State(View(pg), pend)), Finish(n)))
    ensures r != Shrunk ==> pg.Valid() && Possible(old(State(View(pg), pend)), Finish(n), r, State(View(pg), pend'))
  {
    hide Pager.Valid, View, RoundUp, Abs.Sane, State.FreedBy, State.Apart;
    ghost var st := State(View(pg), pend);
    assert st.PendOK(n);
    InOrder(pg);
    var i, p, data := pend[n].i, pend[n].p, pend[n].data;
    var shrinks := SizeShrinks(pg, i, p);
    ghost var size := Extend(pg, i, p);
    r, pend' := if shrinks then Shrunk else Growing, pend[n := Extended(i, p, data)];
  }

  method SizeShrinks(pg: Pager, i: nat, p: nat) returns (b: bool)
    requires pg.Valid() && i < |pg.objects|
    ensures pg.Valid() && View(pg) == old(View(pg)) && i < |View(pg).sizes| && b == Shrinks(View(pg).sizes[i], p + 1)
  {
    hide Ledger.Consistent, Pager.Wf, Sound, AllPlaces, Shrinks;
    pg.ObjectFacts(i);
    b := Shrinks(pg.objects[i].size, p + 1);
  }

  /** The next step of a pending request. */
  method DoFinish(pg: Pager, n: nat, pend: seq<Pending>) returns (r: Reply, pend': seq<Pending>)
    requires pg.Valid() && State(View(pg), pend).Good()
    modifies pg`led, pg`disk, pg`curs, pg.parts, pg.Bitmaps(), pg.objects
    ensures r != Dangling && (r == Shrunk <==> Shrinking(old(State(View(pg), pend)), Finish(n)))
    ensures r == Shrunk ==> (pg.Valid() <==> !Drops(old(State(View(pg), pend)), Finish(n)))
    ensures r != Shrunk ==> pg.Valid() && Possible(old(State(View(pg), pend)), Finish(n), r, State(View(pg), pend'))
  {
    hide Pager.Valid, View, Written, BlockBytes, InRange, Abs.Exists, State.Apart, Abs.Sane, State.FreedBy, Shrinks,
      Drops, Abs.Loosen, Abs.GiveBack, Looked, Vols;
    ghost var st := State(View(pg), pend);
    InOrder(pg);
    r, pend' := Refused, pend;
    if n < |pend| && !pend[n].Idle? {
      assert st.PendOK(n);
      match pend[n] {
        case Extending(i, p, data) => r, pend' := DoExtend(pg, n, pend);
        case Extended(i, p, data) =>
          var q;
          r, q := Look(pg, i, p, data);
          LookedReply(st.a, i, p, data, r, View(pg), q);
          pend' := pend[n := q];
        case Found(i, p, b, data) =>
          VolOf(pg, b.part);
          if !pg.Live(b.part) { r := Crash; }
          else if b.off >= pg.parts[b.part].total { r, pend' := Failed, pend[n := Idle]; }
          else { r, pend' := Begun, pend[n := Writing(i, p, b, data)]; }
        case Writing(i, p, b, data) =>
          Store(pg, b, data);
          r, pend' := Done, pend[n := Idle];
        case Sought(i, p, b, deallocate) =>
          VolOf(pg, b.part);
          if !pg.Live(b.part) { r := Crash; }
          else if b.off >= pg.parts[b.part].total { r, pend' := Failed, pend[n := Idle]; }
          else { r, pend' := Begun, pend[n := Reading(i, p, b, deallocate)]; }
        case Reading(i, p, b, deallocate) =>
          var data := Fetch(pg, b);
          r, pend' := Page(data), pend[n := if deallocate then Releasing(i, p) else Idle];
        case Releasing(i, p) =>
          ViewHas(pg, i, p);
          var b := Empty(pg, i, p);
          r, pend' := Begun, pend[n := Freeing(i, p, b)];
        case Freeing(i, p, b) =>
          Return(pg, b);
          r, pend' := Done, pend[n := Idle];
        case Orphan(i, p) =>
          r := Crash;
      }
    }
  }

  lemma {:induction false} LookedReply(a: Abs, i: nat, p: nat, data: seq<byte>, r: Reply, a': Abs, q: Pending)
    requires Looked(a, i, p, data, r, a', q)
    ensures r in {Growing, Failed, Begun}
  {
  }

  method DoDestroyBegin(pg: Pager, id: nat, ghost pend: seq<Pending>) returns (r: Reply)
    requires pg.Valid()
    modifies pg`departing, pg`scanned, pg.parts
    ensures pg.Valid() && r !in {Dangling, Shrunk}
    ensures Possible(old(State(View(pg), pend)), DestroyBegin(id), r, State(View(pg), pend))
  {
    hide Ledger.Consistent, Pager.Wf, Sound, AllPlaces, Vols;
    ghost var a := View(pg);
    if pg.departing != NO_PART { return Refused; }
    forall j: nat ensures (j in a.vols <==> pg.Live(j)) && (pg.Live(j) ==> a.vols[j].id == pg.parts[j].id) {
      VolOf(pg, j);
    }
    var k := pg.DestroyBegin(id);
    assert Rooms(pg) == a.rooms - {k};
    if k == NO_PART {
      assert a.rooms - {k} == a.rooms;
      r := Failed;
    } else {
      r := Done;
      assert Marked(a, id, View(pg));
    }
  }

  /** Only the scanned object has moves, and only when it is on the list. */
  predicate MovesOf(ms: seq<Move>, a: Abs)
  {
    forall n :: 0 <= n < |ms| ==> ms[n].i == a.scanned && a.Serving(a.scanned)
  }

  lemma {:induction false} OnlyMoves(ms: seq<Move>, a: Abs, i: nat)
    requires i == a.scanned < |a.at| && forall n :: 0 <= n < |ms| ==> ms[n].i == i && i < |a.listed| && a.listed[i]
    ensures MovesOf(ms, a)
  {
  }

  /** What moved pages look like from outside. */
  lemma {:induction false} ScannedPages(led: Ledger, now: Ledger, parts: seq<Part?>, ms: seq<Move>, a: Abs, a': Abs)
    requires a.departing < |parts| && parts[a.departing] != null
    requires Moved(led, now, a.disk, a.departing, ms) && now.Consistent()
    requires a.at == AllPlaces(led.slots) && a'.at == AllPlaces(now.slots) && a.vols == Vols(parts)
    requires a'.disk == AfterMoves(a.disk, Bsizes(parts), ms)
    requires MovesOf(ms, a)
    ensures PagesScanned(a, a')
  {
    hide AllPlaces, Ledger.Consistent, AfterMoves, BlockBytes, Vols;
    ShapeKept(a.disk, Bsizes(parts), ms);
    forall j: nat, q: nat ensures PageScanned(a, a', j, q) {
      PageMoved(led, now, parts, ms, a, a', j, q);
    }
    forall b: Block | b.part == a.departing ensures BlockBytes(a'.disk, b) == BlockBytes(a.disk, b) {
      forall n | 0 <= n < |ms| ensures ms[n].to != b {
        assert MoveOK(a.disk, a.departing, ms[n]);
      }
      AfterMovesAt(a.disk, Bsizes(parts), a.departing, ms, b);
    }
  }

  lemma {:induction false} WholeSize(parts: seq<Part?>, a: Abs, k: nat)
    requires a.vols == Vols(parts) && MovesWhole(a, k)
    ensures SizeAt(Bsizes(parts), k) >= PAGE
  {
  }

  lemma {:induction false} PageMoved(led: Ledger, now: Ledger, parts: seq<Part?>, ms: seq<Move>, a: Abs, a': Abs,
                                     j: nat, q: nat)
    requires Moved(led, now, a.disk, a.departing, ms) && now.Consistent()
    requires a.at == AllPlaces(led.slots) && a'.at == AllPlaces(now.slots) && a.vols == Vols(parts)
    requires a'.disk == AfterMoves(a.disk, Bsizes(parts), ms)
    requires MovesOf(ms, a)
    ensures PageScanned(a, a', j, q)
  {
    hide AllPlaces, Ledger.Consistent, AfterMoves, BlockBytes, Vols, Bsizes, MovesWhole, InRange;
    Place(led, j, q);
    Place(now, j, q);
    assert SlotKept(led, now, ms, j, q);
    MovedPage(led, now, a.disk, Bsizes(parts), a.departing, ms, j, q);
    if n :| 0 <= n < |ms| && ms[n].i == j && ms[n].p == q {
      var m := ms[n];
      assert SlotMoved(led, now, m) && MoveOK(a.disk, a.departing, m);
      if MovesWhole(a, m.from.part) && MovesWhole(a, m.to.part) {
        WholeSize(parts, a, m.from.part);
        WholeSize(parts, a, m.to.part);
        WholeMove(a.disk, Bsizes(parts), m);
      }
    } else {
      assert !IsMoved(ms, j, q);
    }
  }

  lemma {:induction false} WholeMove(disk: seq<seq<byte>>, bs: seq<nat>, m: Move)
    requires InRange(disk, m.from) && InRange(disk, m.to) && SizeAt(bs, m.from.part) >= PAGE
    requires SizeAt(bs, m.to.part) >= PAGE
    ensures MovedTo(disk, bs, m) == BlockBytes(disk, m.from)
  {
    hide BlockBytes, InRange;
    MovedBytes(disk, m.from, m.to, 0, 0);
    var page := BlockBytes(disk, m.from);
    assert page[..PAGE] == page;
  }

  lemma {:induction false} AvoidsIs(led: Ledger, a: Abs, i: nat, k: nat)
    requires a.at == AllPlaces(led.slots)
    ensures led.Avoids(i, k) <==> forall q: nat :: !InPlaceOf(a, i, q, k)
  {
    hide AllPlaces;
    forall q: nat ensures InPlaceOf(a, i, q, k) <==> led.SlotOf(i, q).Some? && led.SlotOf(i, q).value.part == k {
      Place(led, i, q);
    }
  }

  lemma {:induction false} StrayIs(led: Ledger, a: Abs, k: nat)
    requires a.at == AllPlaces(led.slots) && |a.listed| == |a.at| && a.loose == led.loose
    ensures NoStrays(led, a.listed, k) && led.NoLoose(k) <==> !Stray(a, k)
  {
    hide AllPlaces, Ledger.Avoids;
    forall i: nat ensures led.Avoids(i, k) <==> forall q: nat :: !InPlaceOf(a, i, q, k) {
      AvoidsIs(led, a, i, k);
    }
    if !NoStrays(led, a.listed, k) {
      var i: nat :| i < |a.listed| && !a.listed[i] && !led.Avoids(i, k);
      var q: nat :| InPlaceOf(a, i, q, k);
      assert !a.Serving(i);
    }
  }

  /** Moves change neither sizes nor loose blocks. */
  lemma {:induction false} MovedLengths(led: Ledger, now: Ledger, disk: seq<seq<byte>>, d: nat, ms: seq<Move>)
    requires Moved(led, now, disk, d, ms)
    ensures Lengths(now.slots) == Lengths(led.slots) && now.loose == led.loose
  {
    forall j: nat | j < |led.slots| ensures |now.slots[j]| == |led.slots[j]| {
      assert SlotKept(led, now, ms, j, |led.slots[j]|) && SlotKept(led, now, ms, j, |now.slots[j]|);
    }
  }

  /** The scan of the next object. */
  method Scan(pg: Pager) returns (r: Reply)
    requires pg.Valid() && pg.departing != NO_PART && pg.scanned < |pg.objects|
    modifies pg, pg.parts, pg.Bitmaps(), pg.objects
    ensures pg.Valid() && ScanStep(old(View(pg)), r, View(pg)) && r in {Scanned, Aborted}
    ensures pg.objects == old(pg.objects) && pg.parts == old(pg.parts)
  {
    hide Ledger.Consistent, Pager.Wf, Sound, AllPlaces, Moved, AfterMoves, PagesScanned, Vols, Ledger.Avoids, Bsizes,
      MovesOf;
    ghost var a, led, i := View(pg), pg.led, pg.scanned;
    var k := pg.departing;
    ghost var ms;
    pg.Sizes();
    MovedNone(led, pg.disk, k);
    NoMoves(pg.disk, Bsizes(pg.parts));
    assert a.disk == pg.disk && pg.MovedFrom(led, a.disk, []) && i < |a.at|;
    var ok;
    ok, ms := pg.DestroyScan(pg.scanned, k, led, a.disk, []);
    ghost var now := View(pg);
    assert pg.Live(k) && a.listed == pg.listed && i < |a.at|;
    OnlyMoves(ms, a, i);
    MovedLengths(led, pg.led, a.disk, k, ms);
    ScannedPages(led, pg.led, pg.parts, ms, a, now);
    AvoidsIs(pg.led, now, i, k);
    assert now.rooms <= a.rooms;
    if ok {
      r := Scanned;
    } else {
      assert now.rooms == {};
      pg.DestroyAbort(k);
      assert Rooms(pg) <= {k};
      assert forall q: nat :: InPlaceOf(now, i, q, k) ==> InPlaceOf(View(pg), i, q, k);
      ScannedAlike(a, now, View(pg));
      r := Aborted;
    }
  }

  lemma {:induction false} ScannedAlike(a: Abs, a': Abs, a'': Abs)
    requires PagesScanned(a, a') && a''.at == a'.at && a''.disk == a'.disk
    ensures PagesScanned(a, a'')
  {
    hide BlockBytes;
    forall j: nat, q: nat ensures PageScanned(a, a'', j, q) {
      assert PageScanned(a, a', j, q);
    }
  }

  lemma {:induction false} EmptyIs(pg: Pager, k: nat)
    requires pg.Wf() && pg.Live(k)
    ensures k < |pg.led.used| && (pg.led.used[k] == {} <==> pg.parts[k].free == pg.parts[k].total)
  {
    assert pg.PartOK(k);
  }

  /** The end of the scan. The code does not look whether all blocks of the partition are free. */
  method EndScan(pg: Pager) returns (r: Reply)
    requires pg.Valid() && pg.departing != NO_PART && pg.scanned == |pg.objects|
    modifies pg, pg.parts
    ensures r == (if Stray(old(View(pg)), old(pg.departing)) then Dangling else Gone)
    ensures pg.Valid() <==> r == Gone
    ensures r == Gone ==>
      View(pg) == old(View(pg)).(vols := old(View(pg)).vols - {old(pg.departing)}, departing := NO_PART)
    ensures pg.objects == old(pg.objects)
    ensures forall k: nat :: k < |pg.parts| && pg.parts[k] != null ==> pg.parts[k] in old(pg.parts)
  {
    hide Ledger.Consistent, Pager.Wf, Sound, AllPlaces, NoStrays, Stray, Ledger.NoLoose;
    ghost var a := View(pg);
    var k := pg.departing;
    pg.Sizes();
    EmptyIs(pg, k);
    r := if pg.parts[k].free == pg.parts[k].total then Gone else Dangling;
    pg.DestroyEnd(k);
    ghost var now := View(pg);
    StrayIs(pg.led, a, k);
    assert now.rooms == a.rooms;
    assert now.vols == a.vols - {k};
  }

  /** A step of a partition's removal: the next object, or the end. */
  method DoDestroyStep(pg: Pager, pend: seq<Pending>) returns (r: Reply, pend': seq<Pending>)
    requires pg.Valid()
    modifies pg, pg.parts, pg.Bitmaps(), pg.objects
    ensures (pg.Valid() <==> r != Dangling) && r != Shrunk
    ensures r == Dangling ==> pend' == pend && Stray(old(View(pg)), old(View(pg)).departing)
    ensures r != Dangling ==> Possible(old(State(View(pg), pend)), DestroyStep, r, State(View(pg), pend'))
    ensures pg.objects == old(pg.objects)
    ensures forall k: nat :: k < |pg.parts| && pg.parts[k] != null ==> pg.parts[k] in old(pg.parts)
  {
    hide View, ScanStep, Stray, Pager.Wf, Ledger.Consistent;
    InOrder(pg);
    Bounded(pg);
    r, pend' := Refused, pend;
    if pg.departing != NO_PART {
      if pg.scanned < |pg.objects| {
        r := Scan(pg);
      } else {
        var k := pg.departing;
        r := EndScan(pg);
        if r == Gone { pend' := Orphaned(pend, k); }
      }
    }
  }

  lemma {:induction false} Bounded(pg: Pager)
    requires pg.Valid()
    ensures pg.scanned <= |pg.objects|
  {
    pg.Sizes();
  }

  /** The scan starts again when an object is locked. */
  method DoDestroyRestart(pg: Pager, ghost pend: seq<Pending>) returns (r: Reply)
    requires pg.Valid()
    modifies pg`scanned
    ensures pg.Valid() && r !in {Dangling, Shrunk}
    ensures Possible(old(State(View(pg), pend)), DestroyRestart, r, State(View(pg), pend))
  {
    hide Ledger.Consistent, AllPlaces;
    ghost var rooms := Rooms(pg);
    if pg.departing == NO_PART { return Refused; }
    pg.scanned := 0;
    r := Done;
    forall j: nat ensures pg.PartOK(j) {
      assert old(pg.PartOK(j));
    }
    forall j: nat ensures pg.ObjectOK(j) {
      assert old(pg.ObjectOK(j));
    }
    assert Rooms(pg) == rooms;
  }

  /** Partitions and objects are those of before or new. */
  twostate predicate Framed(pg: Pager)
    reads pg
  {
    && (forall k :: 0 <= k < |pg.parts| && pg.parts[k] != null ==>
          pg.parts[k] in old(pg.parts) || (fresh(pg.parts[k]) && fresh(pg.parts[k].bitmap)))
    && (forall i :: 0 <= i < |pg.objects| ==> pg.objects[i] in old(pg.objects) || fresh(pg.objects[i]))
  }

  /** One step of a request, a removal or an object's end. Its reply is one that PageStore allows, and
      exact ownership is kept unless a partition is removed with blocks still in use, or an object is
      made smaller than its pages. */
  method Step(pg: Pager, op: Op, pend: seq<Pending>) returns (r: Reply, pend': seq<Pending>)
    requires pg.Valid() && State(View(pg), pend).Good()
    modifies pg, pg.parts, pg.Bitmaps(), pg.objects
    ensures Framed(pg)
    ensures r == Dangling ==> op == DestroyStep && Stray(old(View(pg)), old(View(pg)).departing) && !pg.Valid()
    ensures r == Shrunk <==> Shrinking(old(State(View(pg), pend)), op)
    ensures r == Shrunk ==> (pg.Valid() <==> !Drops(old(State(View(pg), pend)), op))
    ensures r !in {Dangling, Shrunk} ==> Possible(old(State(View(pg), pend)), op, r, State(View(pg), pend'))
    ensures r !in {Dangling, Shrunk} ==> pg.Valid() && State(View(pg), pend').Good()
  {
    hide Pager.Valid, View, Possible, State.Good, Stray, Shrinks, Drops;
    pend' := pend;
    ghost var st := State(View(pg), pend);
    match op {
      case AddPartition(bytes, id, fd, dev) => r := DoAddPartition(pg, bytes, id, fd, dev, pend);
      case AddObject(bytes, part) => r := DoAddObject(pg, bytes, part, pend);
      case ListDelete(i) => r := DoListDelete(pg, i, pend);
      case FreePage(i, p) => r := DoFree(pg, i, p, pend);
      case HasPage(i, p) => r := DoHas(pg, i, p, pend);
      case WritePage(i, p, data) => r, pend' := DoWrite(pg, i, p, data, pend);
      case ReadPage(i, p, deallocate) => r, pend' := DoRead(pg, i, p, deallocate, pend);
      case Finish(n) => r, pend' := DoFinish(pg, n, pend);
      case DestroyBegin(id) => r := DoDestroyBegin(pg, id, pend);
      case DestroyStep => r, pend' := DoDestroyStep(pg, pend);
      case DestroyRestart => r := DoDestroyRestart(pg, pend);
    }
    if r !in {Dangling, Shrunk} {
      ViewSane(pg);
      GoodNext(st, op, r, State(View(pg), pend'));
    }
  }

  lemma {:induction false} Start(pg: Pager)
    requires pg.Valid() && pg.parts == [] && pg.objects == [] && pg.listed == [] && pg.led.loose == {} && pg.disk == []
    requires pg.departing == NO_PART && pg.scanned == 0
    ensures View(pg) == EMPTY && State(View(pg), []).Good()
  {
    pg.Sizes();
  }

  const EMPTY: Abs := Abs([], [], {}, [], [], map[], {}, NO_PART, 0)

  /** The first n steps of a run. */
  lemma {:induction false} Another(ops: seq<Op>, rs: seq<Reply>, tr: seq<State>, r: Reply, st: State)
    requires Trace(ops, rs, tr) && |rs| < |ops| && r != Dangling
    requires Possible(tr[|rs|], ops[|rs|], r, st) && st.Good()
    ensures Trace(ops, rs + [r], tr + [st])
  {
    hide Possible, State.Good;
    var rs', tr' := rs + [r], tr + [st];
    forall n | 0 <= n < |rs'| ensures Possible(tr'[n], ops[n], rs'[n], tr'[n + 1]) && rs'[n] != Dangling {
      if n < |rs| { assert tr'[n] == tr[n] && tr'[n + 1] == tr[n + 1]; }
    }
  }

  /** Every run from the start, up to a transfer to a partition that is gone, the removal of a partition
      with blocks still in use, or an extension that makes an object smaller: the steps are those of
      PageStore, each allocated block is in exactly one slot or half given back, and the numbers add
      up. Ownership is lost exactly by such a removal, or such an extension when it drops a page. */
  method Run(ops: seq<Op>) returns (pg: Pager, rs: seq<Reply>, end: Reply, ghost tr: seq<State>)
    ensures Trace(ops, rs, tr) && tr[0] == State(EMPTY, []) && end in {Done, Dangling, Shrunk}
    ensures end == Done && |rs| < |ops| ==> rs != [] && rs[|rs| - 1] == Crash
    ensures end == Dangling ==> |rs| < |ops| && ops[|rs|] == DestroyStep && Stray(tr[|rs|].a, tr[|rs|].a.departing)
    ensures end == Shrunk ==> |rs| < |ops| && Shrinking(tr[|rs|], ops[|rs|])
    ensures pg.Valid() <==> end == Done || (end == Shrunk && !Drops(tr[|rs|], ops[|rs|]))
    ensures end == Done ==> View(pg) == tr[|rs|].a
    ensures end == Done ==> pg.InUse(|pg.parts|) == pg.PagesInPlace(|pg.objects|) + |pg.led.loose|
  {
    hide Possible, Pager.Valid, View, State.Good, Stray, Shrinking, Drops;
    pg := new Pager();
    Start(pg);
    rs, tr, end := [], [State(EMPTY, [])], Done;
    var pend := [];
    while |rs| < |ops| && end == Done && (rs == [] || rs[|rs| - 1] != Crash)
      invariant Trace(ops, rs, tr) && tr[0] == State(EMPTY, []) && end in {Done, Dangling, Shrunk}
      invariant end == Dangling ==> |rs| < |ops| && ops[|rs|] == DestroyStep && Stray(tr[|rs|].a, tr[|rs|].a.departing)
      invariant end == Shrunk ==> |rs| < |ops| && Shrinking(tr[|rs|], ops[|rs|])
      invariant pg.Valid() <==> end == Done || (end == Shrunk && |rs| < |ops| && !Drops(tr[|rs|], ops[|rs|]))
      invariant end == Done ==> tr[|rs|] == State(View(pg), pend)
      invariant fresh(pg)
      invariant forall k :: 0 <= k < |pg.parts| && pg.parts[k] != null ==>
        fresh(pg.parts[k]) && fresh(pg.parts[k].bitmap)
      invariant forall i :: 0 <= i < |pg.objects| ==> fresh(pg.objects[i])
      decreases |ops| - |rs|, end == Done
    {
      var r, pend' := Step(pg, ops[|rs|], pend);
      if r in {Dangling, Shrunk} {
        end := r;
      } else {
        Another(ops, rs, tr, r, State(View(pg), pend'));
        tr := tr + [State(View(pg), pend')];
        rs, pend := rs + [r], pend';
      }
    }
    if end == Done { pg.Balance(); }
  }
}
