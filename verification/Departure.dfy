/** What every operation keeps while a paging partition is being removed. */
module Departure {
  import opened BlockMap
  import opened PageMap

  /** Objects without a current partition have no pages, and the listed objects already scanned
      have nothing to do with the departing partition. */
  ghost predicate Sound(led: Ledger, curs: seq<nat>, listed: seq<bool>, departing: nat, scanned: nat)
  {
    && |led.slots| == |curs| == |listed| && scanned <= |curs|
    && (forall i: nat :: Based(led, curs, i))
    && (departing != NO_PART ==> forall i: nat :: i < scanned ==> Clear(led, listed, departing, i))
  }

  ghost predicate Based(led: Ledger, curs: seq<nat>, i: nat)
  {
    i < |curs| && curs[i] == NO_PART ==> forall p :: led.SlotOf(i, p) == None
  }

  ghost predicate Clear(led: Ledger, listed: seq<bool>, departing: nat, i: nat)
  {
    i < |listed| && listed[i] ==> led.Avoids(i, departing)
  }

  /** No object that has left the list still has a page in partition k. */
  ghost predicate NoStrays(led: Ledger, listed: seq<bool>, k: nat)
  {
    forall i: nat :: i < |listed| && !listed[i] ==> led.Avoids(i, k)
  }

  lemma {:induction false} NoPages(led: Ledger, curs: seq<nat>, listed: seq<bool>, d: nat, s: nat, i: nat, p: nat)
    requires Sound(led, curs, listed, d, s) && i < |curs| && curs[i] == NO_PART
    ensures led.SlotOf(i, p) == None
  {
    assert Based(led, curs, i);
  }

  /** Assigning a block outside the departing partition. */
  lemma {:induction false} SoundAssigned(led: Ledger, curs: seq<nat>, listed: seq<bool>, d: nat, s: nat,
                                         i: nat, p: nat, v: Slot, now: Ledger, c: nat)
    requires Sound(led, curs, listed, d, s) && i < |curs| && led.Assigned(i, p, v, now)
    requires v.Some? && led.SlotOf(i, p) == None ==> v.value.part != d
    requires c == curs[i] || c != NO_PART
    requires v.Some? ==> c != NO_PART
    ensures Sound(now, curs[i := c], listed, d, s)
  {
    var curs' := curs[i := c];
    forall j: nat ensures Based(now, curs', j) {
      assert Based(led, curs, j);
    }
    if d != NO_PART {
      forall j: nat | j < s ensures Clear(now, listed, d, j) {
        assert Clear(led, listed, d, j);
        if listed[j] { led.AssignedAvoids(i, p, v, now, j, d); }
      }
    }
  }

  /** Slot (j, q) is kept, emptied, or moved away from partition d. */
  ghost predicate Harmless(led: Ledger, now: Ledger, d: nat, j: nat, q: nat)
  {
    || now.SlotOf(j, q) == led.SlotOf(j, q) || now.SlotOf(j, q) == None
    || (led.SlotOf(j, q).Some? && now.SlotOf(j, q).value.part != d)
  }

  lemma {:induction false} SoundHarmless(led: Ledger, curs: seq<nat>, listed: seq<bool>, d: nat, s: nat, now: Ledger)
    requires Sound(led, curs, listed, d, s) && |now.slots| == |led.slots|
    requires forall j: nat, q: nat :: Harmless(led, now, d, j, q)
    ensures Sound(now, curs, listed, d, s)
  {
    forall j: nat ensures Based(now, curs, j) {
      assert Based(led, curs, j);
      forall p: nat | j < |curs| && curs[j] == NO_PART ensures now.SlotOf(j, p) == None {
        assert Harmless(led, now, d, j, p);
      }
    }
    if d != NO_PART {
      forall j: nat | j < s ensures Clear(now, listed, d, j) {
        assert Clear(led, listed, d, j);
        forall p: nat | listed[j] && now.SlotOf(j, p).Some? ensures now.SlotOf(j, p).value.part != d {
          assert Harmless(led, now, d, j, p);
        }
      }
    }
  }

  lemma {:induction false} SoundSetCur(led: Ledger, curs: seq<nat>, listed: seq<bool>, d: nat, s: nat, i: nat, c: nat)
    requires Sound(led, curs, listed, d, s) && i < |curs|
    requires c == NO_PART ==> forall p :: led.SlotOf(i, p) == None
    ensures Sound(led, curs[i := c], listed, d, s)
  {
    var curs' := curs[i := c];
    forall j: nat ensures Based(led, curs', j) {
      assert Based(led, curs, j);
    }
    if d != NO_PART {
      forall j: nat | j < s ensures Clear(led, listed, d, j) {
        assert Clear(led, listed, d, j);
      }
    }
  }

  /** A new object without pages. */
  lemma {:induction false} SoundAdded(led: Ledger, curs: seq<nat>, listed: seq<bool>, d: nat, s: nat, c: nat, n: nat)
    requires Sound(led, curs, listed, d, s)
    ensures Sound(led.(slots := led.slots + [Nones(n)]), curs + [c], listed + [true], d,
                  if s == |curs| then s + 1 else s)
  {
    var now, curs', listed' := led.(slots := led.slots + [Nones(n)]), curs + [c], listed + [true];
    forall j: nat ensures Based(now, curs', j) {
      assert Based(led, curs, j);
      assert forall q: nat :: j != |curs| ==> now.SlotOf(j, q) == led.SlotOf(j, q);
    }
    if d != NO_PART {
      forall j: nat | j < s || (j == s == |curs|) ensures Clear(now, listed', d, j) {
        if j < s { assert Clear(led, listed, d, j); }
        assert forall q: nat :: j != |curs| ==> now.SlotOf(j, q) == led.SlotOf(j, q);
      }
    }
  }

  /** An object that leaves the list. */
  lemma {:induction false} SoundUnlisted(led: Ledger, curs: seq<nat>, listed: seq<bool>, d: nat, s: nat, i: nat)
    requires Sound(led, curs, listed, d, s) && i < |curs|
    ensures Sound(led, curs, listed[i := false], d, s)
  {
    var listed' := listed[i := false];
    if d != NO_PART {
      forall j: nat | j < s ensures Clear(led, listed', d, j) {
        assert Clear(led, listed, d, j);
      }
    }
  }

  /** A change of the size of object i. */
  function Sized(led: Ledger, i: nat, n: nat): Ledger
    requires i < |led.slots|
  {
    led.(slots := led.slots[i := Resized(led.slots[i], n)])
  }

  /** It keeps ownership exact if and only if no page that is dropped has a block. */
  lemma {:induction false} SizedIff(led: Ledger, i: nat, n: nat)
    requires led.Consistent() && i < |led.slots|
    ensures Sized(led, i, n).Consistent() <==> forall q: nat :: q >= n ==> led.SlotOf(i, q) == None
  {
    hide Ledger.Consistent;
    var s := led.slots[i];
    if n < |s| {
      led.CutIff(i, n);
      assert forall q: nat :: n <= q < |s| ==> led.SlotOf(i, q) == s[q];
    } else {
      led.Grow(i, n - |s|);
      assert Sized(led, i, n) == led.Grown(i, n - |s|);
    }
  }

  lemma {:induction false} SoundSized(led: Ledger, curs: seq<nat>, listed: seq<bool>, d: nat, s: nat, i: nat, n: nat)
    requires Sound(led, curs, listed, d, s) && i < |led.slots|
    ensures Sound(Sized(led, i, n), curs, listed, d, s)
  {
    hide Sound;
    var now := Sized(led, i, n);
    assert |now.slots| == |led.slots|;
    forall j: nat, q: nat ensures Harmless(led, now, d, j, q) {
    }
    SoundHarmless(led, curs, listed, d, s, now);
  }

  /** Once every object is scanned, no listed object has a page in the departing partition, and it is
      empty if and only if no object that has left the list has a page in it and no block of it is
      between the two halves of a release. */
  lemma {:induction false} Emptied(led: Ledger, curs: seq<nat>, listed: seq<bool>, d: nat, s: nat)
    requires led.Consistent() && Sound(led, curs, listed, d, s) && s == |curs| && d != NO_PART && d < |led.used|
    ensures led.used[d] == {} <==> NoStrays(led, listed, d) && led.NoLoose(d)
    ensures forall i: nat :: i < |curs| && listed[i] ==> led.Avoids(i, d)
  {
    forall i: nat | i < |curs| && listed[i] ensures led.Avoids(i, d) {
      assert Clear(led, listed, d, i);
    }
    if !led.NoLoose(d) {
      var b :| b in led.loose && b.part == d;
      led.LooseAllocated(b);
    } else if NoStrays(led, listed, d) {
      forall i: nat ensures led.Avoids(i, d) {
        if i >= |curs| { assert forall p :: led.SlotOf(i, p) == None; }
      }
      led.AllAvoid(d);
    } else {
      var i: nat :| i < |listed| && !listed[i] && !led.Avoids(i, d);
      var p: nat :| led.SlotOf(i, p).Some? && led.SlotOf(i, p).value.part == d;
      led.SlotHeld(i, p);
    }
  }

  /** Taking an empty partition out keeps exact ownership; taking one out that is not leaves a page,
      or a block that is to be given back, without a partition. */
  lemma {:induction false} TakenOut(led: Ledger, d: nat)
    requires led.Consistent() && d < |led.used|
    ensures led.(used := led.used[d := {}]).Consistent() <==> led.used[d] == {}
  {
    var now := led.(used := led.used[d := {}]);
    if o: nat :| o in led.used[d] {
      var b := Block(d, o);
      assert led.Owned(b);
      if b in led.loose {
        assert !now.LooseOK(0, 0, b);
      } else {
        var i: nat, p: nat :| led.Holds(i, p, b);
        assert !now.SlotAllocated(i, p);
      }
    } else {
      assert led.used[d] == {};
      assert now.used == led.used;
    }
  }
}
