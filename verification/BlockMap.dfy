/** Who owns which disk block: page slots of all paging objects against the allocation state of
    all paging partitions. */
module BlockMap {

  const PAGE: nat := 4096    // vm_page_size, and the size of a block

  /** A block of a paging partition. */
  datatype Block = Block(part: nat, off: nat)

  datatype Slot = None | Some(value: Block)

  /** used[k] are the allocated blocks of partition k; slots[i][p] is where page p of object i is;
      loose are blocks that a release has taken out of their slot and not yet given back. */
  datatype Ledger = Ledger(used: seq<set<nat>>, slots: seq<seq<Slot>>, loose: set<Block>) {

    predicate IsSlot(i: nat, p: nat)
    {
      i < |slots| && p < |slots[i]|
    }

    predicate Holds(i: nat, p: nat, b: Block)
    {
      IsSlot(i, p) && slots[i][p] == Some(b)
    }

    predicate Allocated(b: Block)
    {
      b.part < |used| && b.off in used[b.part]
    }

    ghost predicate SlotAllocated(i: nat, p: nat)
    {
      IsSlot(i, p) && slots[i][p].Some? ==> Allocated(slots[i][p].value)
    }

    ghost predicate SameOwner(i: nat, p: nat, j: nat, q: nat)
    {
      IsSlot(i, p) && IsSlot(j, q) && slots[i][p].Some? && slots[i][p] == slots[j][q] ==> i == j && p == q
    }

    ghost predicate Owned(b: Block)
    {
      Allocated(b) ==> b in loose || exists i, p :: Holds(i, p, b)
    }

    ghost predicate LooseOK(i: nat, p: nat, b: Block)
    {
      b in loose ==> Allocated(b) && !Holds(i, p, b)
    }

    /** Blocks in slots and loose ones are allocated, no two owners share one, and every allocated
        block is in a slot or loose. */
    ghost predicate Consistent()
    {
      && (forall i, p :: SlotAllocated(i, p))
      && (forall i, p, j, q :: SameOwner(i, p, j, q))
      && (forall b :: Owned(b))
      && (forall i, p, b :: LooseOK(i, p, b))
    }

    /** Where page p of object i is. */
    function SlotOf(i: nat, p: nat): Slot
    {
      if IsSlot(i, p) then slots[i][p] else None
    }

    /** Object i has no page in partition k. */
    ghost predicate Avoids(i: nat, k: nat)
    {
      forall p :: SlotOf(i, p).Some? ==> SlotOf(i, p).value.part != k
    }

    lemma {:induction false} AvoidsHolds(i: nat, p: nat, b: Block, k: nat)
      requires Avoids(i, k) && Holds(i, p, b)
      ensures b.part != k
    {
      assert SlotOf(i, p) == Some(b);
    }

    /** No loose block is in partition k. */
    ghost predicate NoLoose(k: nat)
    {
      forall b :: b in loose ==> b.part != k
    }

    /** A partition that every object avoids has no block allocated but loose ones. */
    lemma {:induction false} AllAvoid(k: nat)
      requires Consistent() && k < |used| && NoLoose(k) && forall i: nat :: Avoids(i, k)
      ensures used[k] == {}
    {
      if o: nat :| o in used[k] {
        var b := Block(k, o);
        assert Owned(b);
        var i: nat, p: nat :| Holds(i, p, b);
        AvoidsHolds(i, p, b, k);
        assert false;
      }
    }

    lemma {:induction false} LooseAllocated(b: Block)
      requires Consistent() && b in loose
      ensures Allocated(b)
    {
      assert LooseOK(0, 0, b);
    }

    lemma {:induction false} LooseNotHeld(i: nat, p: nat)
      requires Consistent() && SlotOf(i, p).Some?
      ensures SlotOf(i, p).value !in loose
    {
      assert LooseOK(i, p, SlotOf(i, p).value);
    }

    lemma {:induction false} SlotHeld(i: nat, p: nat)
      requires Consistent() && SlotOf(i, p).Some?
      ensures Holds(i, p, SlotOf(i, p).value) && Allocated(SlotOf(i, p).value)
    {
      assert SlotAllocated(i, p);
    }

    // ----- changes -----

    function Put(i: nat, p: nat, v: Slot): Ledger
      requires IsSlot(i, p)
    {
      this.(slots := slots[i := slots[i][p := v]])
    }

    function Take(b: Block): Ledger
      requires b.part < |used|
    {
      this.(used := used[b.part := used[b.part] + {b.off}])
    }

    function Free(b: Block): Ledger
      requires b.part < |used|
    {
      this.(used := used[b.part := used[b.part] - {b.off}])
    }

    function Grown(i: nat, n: nat): Ledger
      requires i < |slots|
    {
      this.(slots := slots[i := slots[i] + seq(n, _ => None)])
    }

    /** Page p of object i is at v and no other page has moved; its block is newly allocated when
        it had none. */
    ghost predicate Assigned(i: nat, p: nat, v: Slot, now: Ledger)
    {
      && |now.slots| == |slots| && now.loose == loose && now.SlotOf(i, p) == v
      && (forall j, q :: (j != i || q != p) ==> now.SlotOf(j, q) == SlotOf(j, q))
      && (SlotOf(i, p).Some? ==> v == SlotOf(i, p))
      && if SlotOf(i, p) == v then now.used == used
         else v.Some? && v.value.part < |used| && !Allocated(v.value) && now.used == Take(v.value).used
    }

    lemma {:induction false} GrownAssigned(i: nat, n: nat, p: nat)
      requires i < |slots|
      ensures Grown(i, n).SlotOf(i, p) == SlotOf(i, p) && Assigned(i, p, SlotOf(i, p), Grown(i, n))
      ensures n == 0 ==> Grown(i, n) == this
    {
      assert n == 0 ==> slots[i] + seq(n, _ => None) == slots[i];
    }

    /** Growing and then assigning. */
    lemma {:induction false} AssignedGrown(i: nat, n: nat, p: nat, v: Slot, now: Ledger)
      requires i < |slots| && Grown(i, n).Assigned(i, p, v, now)
      ensures Assigned(i, p, v, now)
    {
      var g := Grown(i, n);
      forall j: nat, q: nat ensures g.SlotOf(j, q) == SlotOf(j, q) {
      }
      forall j: nat, q: nat | j != i || q != p ensures now.SlotOf(j, q) == SlotOf(j, q) {
        assert now.SlotOf(j, q) == g.SlotOf(j, q);
      }
    }

    lemma {:induction false} TakenAssigned(i: nat, n: nat, p: nat, b: Block)
      requires i < |slots| && p < |slots[i]| + n && SlotOf(i, p) == None && b.part < |used| && !Allocated(b)
      ensures Assigned(i, p, Some(b), Grown(i, n).Take(b).Put(i, p, Some(b)))
    {
      var g := Grown(i, n);
      var m := g.Take(b).Put(i, p, Some(b));
      forall j: nat, q: nat | j != i || q != p ensures m.SlotOf(j, q) == SlotOf(j, q) {
        assert g.SlotOf(j, q) == SlotOf(j, q);
      }
    }

    lemma {:induction false} AssignedAvoids(i: nat, p: nat, v: Slot, now: Ledger, j: nat, k: nat)
      requires Assigned(i, p, v, now) && Avoids(j, k) && (v.Some? && SlotOf(i, p) == None ==> v.value.part != k)
      ensures now.Avoids(j, k)
    {
      forall q | now.SlotOf(j, q).Some? ensures now.SlotOf(j, q).value.part != k {
        assert j != i || q != p ==> now.SlotOf(j, q) == SlotOf(j, q);
      }
    }

    /** Allocating block b for an empty slot. */
    lemma {:induction false} Allocate(i: nat, p: nat, b: Block)
      requires Consistent() && IsSlot(i, p) && slots[i][p] == None
      requires b.part < |used| && b.off !in used[b.part]
      ensures Take(b).Put(i, p, Some(b)).Consistent()
    {
      var m := Take(b).Put(i, p, Some(b));
      forall j, q ensures m.SlotAllocated(j, q) {
        assert SlotAllocated(j, q);
      }
      forall j, q, k, r ensures m.SameOwner(j, q, k, r) {
        assert SlotAllocated(j, q) && SlotAllocated(k, r);
        assert SameOwner(j, q, k, r);
      }
      forall c ensures m.Owned(c) {
        assert Owned(c);
        if c == b {
          assert m.Holds(i, p, c);
        } else if Allocated(c) && c !in loose {
          var j, q :| Holds(j, q, c);
          assert m.Holds(j, q, c);
        }
      }
      forall j, q, c ensures m.LooseOK(j, q, c) {
        assert LooseOK(j, q, c);
      }
    }

    /** Emptying slot (i, p): its block becomes loose. */
    function Loosened(i: nat, p: nat): Ledger
      requires SlotOf(i, p).Some?
    {
      Put(i, p, None).(loose := loose + {SlotOf(i, p).value})
    }

    lemma {:induction false} Loosen(i: nat, p: nat)
      requires Consistent() && SlotOf(i, p).Some?
      ensures Loosened(i, p).Consistent()
    {
      var b, m := SlotOf(i, p).value, Loosened(i, p);
      assert SlotAllocated(i, p);
      forall j, q ensures m.SlotAllocated(j, q) {
        assert SlotAllocated(j, q);
      }
      forall j, q, k, r ensures m.SameOwner(j, q, k, r) {
        assert SameOwner(j, q, k, r);
      }
      forall c ensures m.Owned(c) {
        assert Owned(c);
        if m.Allocated(c) && c !in m.loose {
          var j, q :| Holds(j, q, c);
          assert m.Holds(j, q, c);
        }
      }
      forall j, q, c ensures m.LooseOK(j, q, c) {
        assert LooseOK(j, q, c) && SameOwner(j, q, i, p);
      }
    }

    /** Giving back a loose block. */
    function GivenBack(b: Block): Ledger
      requires b.part < |used|
    {
      Free(b).(loose := loose - {b})
    }

    lemma {:induction false} GiveBack(b: Block)
      requires Consistent() && b in loose
      ensures Allocated(b) && GivenBack(b).Consistent()
    {
      LooseAllocated(b);
      var m := GivenBack(b);
      forall j, q ensures m.SlotAllocated(j, q) {
        assert SlotAllocated(j, q) && LooseOK(j, q, b);
      }
      forall j, q, k, r ensures m.SameOwner(j, q, k, r) {
        assert SameOwner(j, q, k, r);
      }
      forall c ensures m.Owned(c) {
        assert Owned(c);
        if m.Allocated(c) && c !in m.loose {
          var j, q :| Holds(j, q, c);
          assert m.Holds(j, q, c);
        }
      }
      forall j, q, c ensures m.LooseOK(j, q, c) {
        assert LooseOK(j, q, c);
      }
    }

    /** Giving back the block of slot (i, p). */
    lemma {:induction false} Release(i: nat, p: nat)
      requires Consistent() && SlotOf(i, p).Some?
      ensures Allocated(SlotOf(i, p).value) && Released(i, p).Consistent()
      ensures Released(i, p) == Loosened(i, p).GivenBack(SlotOf(i, p).value)
    {
      hide Consistent;
      SlotHeld(i, p);
      LooseNotHeld(i, p);
      Loosen(i, p);
      Loosened(i, p).GiveBack(SlotOf(i, p).value);
      assert Released(i, p).loose == Loosened(i, p).GivenBack(SlotOf(i, p).value).loose;
    }

    function Released(i: nat, p: nat): Ledger
      requires Consistent() && SlotOf(i, p).Some?
    {
      SlotHeld(i, p);
      Free(SlotOf(i, p).value).Put(i, p, None)
    }

    /** Moving the page of slot (i, p) to an unallocated block of another partition. */
    function Relocated(i: nat, p: nat, c: Block): Ledger
      requires Consistent() && SlotOf(i, p).Some? && c.part < |used|
    {
      SlotHeld(i, p);
      Take(c).Free(SlotOf(i, p).value).Put(i, p, Some(c))
    }

    lemma {:induction false} Relocate(i: nat, p: nat, c: Block)
      requires Consistent() && SlotOf(i, p).Some? && c.part < |used| && !Allocated(c)
      requires c.part != SlotOf(i, p).value.part
      ensures Relocated(i, p, c).Consistent()
    {
      hide Consistent;
      SlotHeld(i, p);
      Release(i, p);
      var m := Released(i, p);
      m.Allocate(i, p, c);
      assert Relocated(i, p, c).used == m.Take(c).used;
      assert slots[i][p := None][p := Some(c)] == slots[i][p := Some(c)];
      assert Relocated(i, p, c).slots == m.Take(c).Put(i, p, Some(c)).slots;
    }

    ghost predicate HeldBelow(i: nat, p: nat, b: Block)
    {
      exists q: nat :: q < p && Holds(i, q, b)
    }

    ghost predicate FreedSlot(i: nat, p: nat, now: Ledger, j: nat, q: nat)
    {
      now.SlotOf(j, q) == if j == i && q < p then None else SlotOf(j, q)
    }

    ghost predicate FreedBlock(i: nat, p: nat, now: Ledger, b: Block)
    {
      now.Allocated(b) <==> Allocated(b) && !HeldBelow(i, p, b)
    }

    /** The first p pages of object i, and only those, have given back their blocks. */
    ghost predicate FreedBelow(i: nat, p: nat, now: Ledger)
    {
      && |now.slots| == |slots| && now.loose == loose && (forall j, q :: FreedSlot(i, p, now, j, q))
      && (forall b :: FreedBlock(i, p, now, b))
    }

    lemma {:induction false} FreeNone(i: nat)
      ensures FreedBelow(i, 0, this)
    {
      forall j: nat, q: nat ensures FreedSlot(i, 0, this, j, q) {
      }
      forall b ensures FreedBlock(i, 0, this, b) {
      }
    }

    lemma {:induction false} FreeNext(i: nat, p: nat, m: Ledger)
      requires FreedBelow(i, p, m) && m.Consistent()
      ensures FreedBelow(i, p + 1, if m.SlotOf(i, p).Some? then m.Released(i, p) else m)
    {
      hide Consistent;
      assert FreedSlot(i, p, m, i, p);
      var now, p' := if m.SlotOf(i, p).Some? then m.Released(i, p) else m, p + 1;
      if m.SlotOf(i, p).Some? { m.SlotHeld(i, p); }
      forall j: nat, q: nat ensures FreedSlot(i, p', now, j, q) {
        assert FreedSlot(i, p, m, j, q);
      }
      forall b ensures FreedBlock(i, p', now, b) {
        assert FreedBlock(i, p, m, b);
        assert HeldBelow(i, p', b) <==> HeldBelow(i, p, b) || Holds(i, p, b);
      }
    }

    lemma {:induction false} FreedAll(i: nat, p: nat, m: Ledger)
      requires FreedBelow(i, p, m) && i < |m.slots| && |m.slots[i]| == p
      ensures forall q :: m.SlotOf(i, q) == None
    {
      forall q: nat ensures m.SlotOf(i, q) == None {
        assert FreedSlot(i, p, m, i, q);
      }
    }

    /** Growing an object by empty slots. */
    lemma {:induction false} Grow(i: nat, n: nat)
      requires Consistent() && i < |slots|
      ensures Grown(i, n).Consistent()
    {
      var m := Grown(i, n);
      forall j, q ensures m.SlotAllocated(j, q) {
        assert SlotAllocated(j, q);
      }
      forall j, q, k, r ensures m.SameOwner(j, q, k, r) {
        assert SameOwner(j, q, k, r);
      }
      forall c ensures m.Owned(c) {
        assert Owned(c);
        if Allocated(c) && c !in loose {
          var j, q :| Holds(j, q, c);
          assert m.Holds(j, q, c);
        }
      }
      forall j, q, c ensures m.LooseOK(j, q, c) {
        assert LooseOK(j, q, c);
      }
    }

    /** Dropping the pages of object i from n on. */
    function Cut(i: nat, n: nat): Ledger
      requires i < |slots| && n <= |slots[i]|
    {
      this.(slots := slots[i := slots[i][..n]])
    }

    /** It keeps ownership exact if and only if none of these pages has a block. */
    lemma {:induction false} CutIff(i: nat, n: nat)
      requires Consistent() && i < |slots| && n <= |slots[i]|
      ensures Cut(i, n).Consistent() <==> forall q :: n <= q < |slots[i]| ==> slots[i][q] == None
    {
      var m := Cut(i, n);
      forall j, q ensures m.SlotAllocated(j, q) {
        assert SlotAllocated(j, q);
      }
      forall j, q, k, r ensures m.SameOwner(j, q, k, r) {
        assert SameOwner(j, q, k, r);
      }
      forall j, q, c ensures m.LooseOK(j, q, c) {
        assert LooseOK(j, q, c);
      }
      if q: nat :| n <= q < |slots[i]| && slots[i][q].Some? {
        LostOwner(i, n, q);
      } else {
        forall c ensures m.Owned(c) {
          assert Owned(c);
          if m.Allocated(c) && c !in m.loose {
            var j, q :| Holds(j, q, c);
            assert m.Holds(j, q, c);
          }
        }
      }
    }

    lemma {:induction false} LostOwner(i: nat, n: nat, q: nat)
      requires Consistent() && i < |slots| && n <= q < |slots[i]| && slots[i][q].Some?
      ensures !Cut(i, n).Consistent()
    {
      var m, b := Cut(i, n), slots[i][q].value;
      assert SlotAllocated(i, q) && LooseOK(i, q, b);
      forall j, r ensures !m.Holds(j, r, b) {
        assert SameOwner(j, r, i, q);
      }
      assert !m.Owned(b);
    }

    /** A new object, with all slots empty. */
    lemma {:induction false} AddObject(n: nat)
      requires Consistent()
      ensures this.(slots := slots + [seq(n, _ => None)]).Consistent()
    {
      var m := this.(slots := slots + [seq(n, _ => None)]);
      forall j, q ensures m.SlotAllocated(j, q) {
        assert SlotAllocated(j, q);
      }
      forall j, q, k, r ensures m.SameOwner(j, q, k, r) {
        assert SameOwner(j, q, k, r);
      }
      forall c ensures m.Owned(c) {
        assert Owned(c);
        if Allocated(c) && c !in loose {
          var j, q :| Holds(j, q, c);
          assert m.Holds(j, q, c);
        }
      }
      forall j, q, c ensures m.LooseOK(j, q, c) {
        assert LooseOK(j, q, c);
      }
    }

    /** A change of the list of partitions that loses no allocated block. */
    lemma {:induction false} Repartition(used': seq<set<nat>>)
      requires Consistent()
      requires forall k :: 0 <= k < |used| && used[k] != {} ==> k < |used'| && used'[k] == used[k]
      requires forall k :: 0 <= k < |used'| && used'[k] != {} ==> k < |used| && used'[k] == used[k]
      ensures this.(used := used').Consistent()
    {
      var m := this.(used := used');
      forall j, q ensures m.SlotAllocated(j, q) {
        assert SlotAllocated(j, q);
      }
      forall j, q, k, r ensures m.SameOwner(j, q, k, r) {
        assert SameOwner(j, q, k, r);
      }
      forall c ensures m.Owned(c) {
        assert Owned(c);
        if m.Allocated(c) && c !in m.loose {
          var j, q :| Holds(j, q, c);
          assert m.Holds(j, q, c);
        }
      }
      forall j, q, c ensures m.LooseOK(j, q, c) {
        assert LooseOK(j, q, c);
      }
    }

    // ----- conservation -----

    /** Allocated blocks of the first n partitions. */
    function UsedCount(n: nat): nat
      requires n <= |used|
    {
      if n == 0 then 0 else UsedCount(n - 1) + |used[n - 1]|
    }

    /** Pages in place in the first n objects. */
    function SlotCount(n: nat): nat
      requires n <= |slots|
    {
      if n == 0 then 0 else SlotCount(n - 1) + InPlace(slots[n - 1])
    }

    ghost function UsedBlocks(n: nat): set<Block>
      requires n <= |used|
    {
      if n == 0 then {} else UsedBlocks(n - 1) + PartBlocks(n - 1, used[n - 1])
    }

    lemma {:induction false} UsedBlocksAre(n: nat, b: Block)
      requires n <= |used|
      ensures b in UsedBlocks(n) <==> b.part < n && b.off in used[b.part]
    {
      if n > 0 { UsedBlocksAre(n - 1, b); }
    }

    lemma {:induction false} UsedBlocksCount(n: nat)
      requires n <= |used|
      ensures |UsedBlocks(n)| == UsedCount(n)
    {
      if n > 0 {
        UsedBlocksCount(n - 1);
        PartBlocksCount(n - 1, used[n - 1]);
        var u, v := UsedBlocks(n - 1), PartBlocks(n - 1, used[n - 1]);
        forall b | b in u ensures b !in v {
          UsedBlocksAre(n - 1, b);
        }
        assert u !! v;
      }
    }

    ghost function HeldBlocks(n: nat): set<Block>
      requires n <= |slots|
    {
      if n == 0 then {} else HeldBlocks(n - 1) + Blocks(slots[n - 1])
    }

    lemma {:induction false} HeldBlocksAre(n: nat, b: Block)
      requires n <= |slots|
      ensures b in HeldBlocks(n) <==> exists i: nat, p: nat :: i < n && Holds(i, p, b)
    {
      if n > 0 {
        var s := slots[n - 1];
        HeldBlocksAre(n - 1, b);
        BlocksAre(s, b);
        if b in Blocks(s) {
          var p: nat :| p < |s| && s[p] == Some(b);
          assert Holds(n - 1, p, b);
        }
      }
    }

    lemma {:induction false} OwnBlocks(i: nat)
      requires i < |slots| && Consistent()
      ensures forall p, q :: 0 <= p < q < |slots[i]| && slots[i][p].Some? ==> slots[i][p] != slots[i][q]
    {
      forall p, q | 0 <= p < q < |slots[i]| && slots[i][p].Some? ensures slots[i][p] != slots[i][q] {
        assert SameOwner(i, p, i, q);
      }
    }

    lemma {:induction false} NotHeldBefore(n: nat, b: Block)
      requires n < |slots| && Consistent() && b in HeldBlocks(n)
      ensures b !in Blocks(slots[n])
    {
      HeldBlocksAre(n, b);
      BlocksAre(slots[n], b);
      var i: nat, p: nat :| i < n && Holds(i, p, b);
      forall q: nat | q < |slots[n]| ensures slots[n][q] != Some(b) {
        assert SameOwner(i, p, n, q);
      }
    }

    lemma {:induction false} HeldBlocksCount(n: nat)
      requires n <= |slots| && Consistent()
      ensures |HeldBlocks(n)| == SlotCount(n)
    {
      hide Consistent, Blocks, InPlace;
      if n > 0 {
        HeldBlocksCount(n - 1);
        OwnBlocks(n - 1);
        BlocksCount(slots[n - 1]);
        var u, v := HeldBlocks(n - 1), Blocks(slots[n - 1]);
        forall b | b in u ensures b !in v {
          NotHeldBefore(n - 1, b);
        }
        assert u !! v;
      }
    }

    /** As many blocks are allocated in all partitions as pages are in place in all objects and blocks
        are loose. */
    lemma {:induction false} Conservation()
      requires Consistent()
      ensures UsedCount(|used|) == SlotCount(|slots|) + |loose|
    {
      UsedBlocksCount(|used|);
      HeldBlocksCount(|slots|);
      var held := HeldBlocks(|slots|);
      forall b ensures b in UsedBlocks(|used|) <==> b in held || b in loose {
        BlockOwner(b);
      }
      forall b | b in held ensures b !in loose {
        HeldBlocksAre(|slots|, b);
        var i: nat, p: nat :| Holds(i, p, b);
        assert LooseOK(i, p, b);
      }
      assert held !! loose;
      assert UsedBlocks(|used|) == held + loose;
    }

    lemma {:induction false} BlockOwner(b: Block)
      requires Consistent()
      ensures b in UsedBlocks(|used|) <==> b in HeldBlocks(|slots|) || b in loose
    {
      HeldBlocksAre(|slots|, b);
      UsedBlocksAre(|used|, b);
      assert Owned(b) && LooseOK(0, 0, b);
      if i: nat, p: nat :| Holds(i, p, b) {
        assert SlotAllocated(i, p);
      }
    }
  }

  /** All blocks below off are in use. */
  ghost predicate LowestFree(used: set<nat>, off: nat)
  {
    off !in used && forall o: nat :: o < off ==> o in used
  }

  /** The pages of one object that are in place. */
  function InPlace(s: seq<Slot>): nat
  {
    if s == [] then 0 else InPlace(s[..|s| - 1]) + if s[|s| - 1].Some? then 1 else 0
  }

  ghost function Blocks(s: seq<Slot>): set<Block>
  {
    set p | 0 <= p < |s| && s[p].Some? :: s[p].value
  }

  lemma {:induction false} BlocksAre(s: seq<Slot>, b: Block)
    ensures b in Blocks(s) <==> exists p :: 0 <= p < |s| && s[p] == Some(b)
  {
    if p :| 0 <= p < |s| && s[p] == Some(b) {
      assert s[p].Some? && s[p].value == b;
    }
  }

  lemma {:induction false} BlocksCount(s: seq<Slot>)
    requires forall p, q :: 0 <= p < q < |s| && s[p].Some? ==> s[p] != s[q]
    ensures |Blocks(s)| == InPlace(s)
  {
    if s == [] {
      assert Blocks(s) == {};
    } else {
      var t, x := s[..|s| - 1], s[|s| - 1];
      BlocksCount(t);
      if x.Some? {
        assert Blocks(s) == Blocks(t) + {x.value};
        assert x.value !in Blocks(t);
      } else {
        assert Blocks(s) == Blocks(t);
      }
    }
  }

  ghost function PartBlocks(k: nat, offs: set<nat>): set<Block>
  {
    set o | o in offs :: Block(k, o)
  }

  lemma {:induction false} PartBlocksCount(k: nat, offs: set<nat>)
    ensures |PartBlocks(k, offs)| == |offs|
  {
    if offs == {} {
      assert PartBlocks(k, offs) == {};
    } else {
      var o :| o in offs;
      PartBlocksCount(k, offs - {o});
      assert PartBlocks(k, offs) == PartBlocks(k, offs - {o}) + {Block(k, o)};
    }
  }
}
