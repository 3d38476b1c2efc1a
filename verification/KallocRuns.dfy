/** Every run of kalloc and kfree by any number of threads. A section of code that holds a lock, or a
    call to the kernel, is one step, and the steps of different threads come in any order. */
module KallocRuns {
  import opened Kalloc

  /** Where a thread is in kalloc, with the size asked for and that of the block. */
  datatype Pc =
    | Outside
    | Wanting(size: nat, n: nat)                 // its free list was empty; about to lock the space
    | Mapping(size: nat, n: nat)                 // the space was too small; about to map memory
    | Mapped(size: nat, n: nat, space: nat)      // about to lock the space again
    | Spare(space: nat)                          // has its block; about to unmap memory it did not need

  /** What may happen next. The memory the kernel maps, when asked, is at space; 0 when it refuses. */
  datatype Event =
    | Call(t: nat, size: nat, space: nat)        // kalloc, up to its first unlock
    | Go(t: nat, space: nat)                     // the next section of thread t
    | Return(addr: nat)                          // kfree of a block
    | Store(block: nat, addr: nat, v: nat)       // the owner of a block writes to it

  predicate From(addr: nat, a: nat)
  {
    addr <= a
  }

  function Addresses(addr: nat, n: nat): set<nat>
  {
    set a: nat | a < addr + n && From(addr, a)
  }

  predicate InUse(p: Piece)
  {
    p.use == Live || p.use == Pending
  }

  /** The live pieces are the blocks handed out, and the pending ones the regions of threads. */
  ghost predicate Tied(ps: seq<Piece>, held: map<nat, nat>, regs: set<nat>)
  {
    && (forall p :: p in ps && p.use == Live ==> p.addr in held && p.size == Rounded(held[p.addr]))
    && (forall a :: a in held ==> Piece(a, Rounded(held[a]), Live) in ps)
    && (forall p :: p in ps && p.use == Pending ==> p.addr in regs && p.size == PAGE)
    && (forall s :: s in regs ==> Piece(s, PAGE, Pending) in ps)
  }

  /** The kernel has mapped all of it. */
  ghost predicate Covered(ps: seq<Piece>, kmap: set<nat>)
  {
    forall p :: p in ps ==> Addresses(p.addr, p.size) <= kmap
  }

  // ----- changes -----

  ghost predicate Plus(ps: seq<Piece>, ps': seq<Piece>, p: Piece)
  {
    InUse(p) && forall q :: InUse(q) ==> (q in ps' <==> q in ps || q == p)
  }

  ghost predicate Minus(ps: seq<Piece>, ps': seq<Piece>, p: Piece)
  {
    InUse(p) && forall q :: InUse(q) ==> (q in ps' <==> q in ps && q != p)
  }

  lemma {:induction false} TiedLive(ps: seq<Piece>, ps': seq<Piece>, held: map<nat, nat>, regs: set<nat>, a: nat,
                                    size: nat)
    requires Tied(ps, held, regs) && Plus(ps, ps', Piece(a, Rounded(size), Live)) && a !in held
    ensures Tied(ps', held[a := size], regs)
  {
    hide Rounded;
  }

  lemma {:induction false} TiedFreed(ps: seq<Piece>, ps': seq<Piece>, held: map<nat, nat>, regs: set<nat>, a: nat)
    requires Tied(ps, held, regs) && a in held && Minus(ps, ps', Piece(a, Rounded(held[a]), Live))
    ensures Tied(ps', held - {a}, regs)
  {
    hide Rounded;
  }

  lemma {:induction false} TiedMapped(ps: seq<Piece>, ps': seq<Piece>, held: map<nat, nat>, regs: set<nat>, s: nat)
    requires Tied(ps, held, regs) && Plus(ps, ps', Piece(s, PAGE, Pending))
    ensures Tied(ps', held, regs + {s})
  {
    hide Rounded;
  }

  lemma {:induction false} TiedUnmapped(ps: seq<Piece>, ps': seq<Piece>, held: map<nat, nat>, regs: set<nat>, s: nat)
    requires Tied(ps, held, regs) && Minus(ps, ps', Piece(s, PAGE, Pending))
    ensures Tied(ps', held, regs - {s})
  {
    hide Rounded;
  }

  /** A new piece is apart from the blocks handed out. */
  lemma {:induction false} NotHeld(ps: seq<Piece>, held: map<nat, nat>, regs: set<nat>, p: Piece)
    requires Tied(ps, held, regs) && p.size > 0 && (forall q :: q in ps && q.use == Live ==> Kalloc.Apart(q, p))
    ensures p.addr !in held
  {
    if p.addr in held {
      RoundedPositive(held[p.addr]);
      assert false;
    }
  }

  lemma {:induction false} RoundedPositive(size: nat)
    ensures Rounded(size) > 0
  {
    if size < PAGE { RoundedUpPositive(size, 0); }
  }

  lemma {:induction false} RoundedUpPositive(size: nat, k: nat)
    ensures RoundedUp(size, k) > 0
    decreases size - BlockSize(k)
  {
    if size > BlockSize(k) { RoundedUpPositive(size, k + 1); }
  }

  // ----- how each step changes the pieces -----

  lemma {:induction false} SetPlus(ps: seq<Piece>, i: nat, p: Piece)
    requires i < |ps| && !InUse(ps[i]) && InUse(p)
    ensures Plus(ps, ps[i := p], p)
  {
    var ps' := ps[i := p];
    assert ps'[i] == p;
    forall q | InUse(q) ensures q in ps' <==> q in ps || q == p {
      if q in ps {
        var j: nat :| j < |ps| && ps[j] == q;
        assert ps'[j] == q;
      }
    }
  }

  lemma {:induction false} SetMinus(ps: seq<Piece>, i: nat, p: Piece)
    requires Disjoint(ps) && i < |ps| && InUse(ps[i]) && ps[i].size > 0 && !InUse(p)
    ensures Minus(ps, ps[i := p], ps[i])
  {
    var ps' := ps[i := p];
    forall q | InUse(q) ensures q in ps' <==> q in ps && q != ps[i] {
      if q in ps && q != ps[i] {
        var j: nat :| j < |ps| && ps[j] == q;
        assert ps'[j] == q;
      }
      if q in ps' {
        var j: nat :| j < |ps'| && ps'[j] == q;
        assert j != i && ps[j] == q;
        assert Kalloc.Apart(ps[i], ps[j]);
      }
    }
  }

  lemma {:induction false} CutPlus(ps: seq<Piece>, next: nat, end: nat, size: nat)
    requires |ps| > 0 && next + size <= end && ps[0] == Piece(next, end - next, Space)
    ensures Plus(ps, Cut(ps, next, end, size), Piece(next, size, Live))
  {
    var ps', p := Cut(ps, next, end, size), Piece(next, size, Live);
    assert ps'[|ps|] == p;
    forall q | InUse(q) ensures q in ps' <==> q in ps || q == p {
      if q in ps {
        var j: nat :| j < |ps| && ps[j] == q;
        assert ps'[j] == q;
      }
    }
  }

  lemma {:induction false} AddPlus(ps: seq<Piece>, p: Piece)
    requires InUse(p)
    ensures Plus(ps, ps + [p], p)
  {
  }

  lemma {:induction false} JoinMinus(ps: seq<Piece>, next: nat, end: nat, j: nat)
    requires WellFormed(ps, next, end) && 0 < j < |ps| && ps[j].use == Pending && ps[j].size > 0
    ensures ps[j].addr == end ==> Minus(ps, Joined(ps, next, j), ps[j])
    ensures Minus(ps, Replaced(ps, next, end, j), ps[j])
  {
    forall p: Piece | p.use == Space ensures Minus(ps, ps[0 := p][j := Piece(0, 0, Gone)], ps[j]) {
      SetMinus(ps, j, Piece(0, 0, Gone));
      var ps1 := ps[j := Piece(0, 0, Gone)];
      assert ps[0 := p][j := Piece(0, 0, Gone)] == ps1[0 := p];
      SpaceSet(ps1, p);
    }
  }

  lemma {:induction false} SpaceSet(ps: seq<Piece>, p: Piece)
    requires |ps| > 0 && !InUse(ps[0]) && !InUse(p)
    ensures forall q :: InUse(q) ==> (q in ps[0 := p] <==> q in ps)
  {
    forall q | InUse(q) && q in ps ensures q in ps[0 := p] {
      var j: nat :| j < |ps| && ps[j] == q;
      assert ps[0 := p][j] == q;
    }
  }

  // ----- the memory stays mapped -----

  /** Every address of a piece of ps' is one of a piece of ps. */
  ghost predicate NoMore(ps: seq<Piece>, ps': seq<Piece>)
  {
    forall p, a :: p in ps' && a in Addresses(p.addr, p.size) ==> exists q :: q in ps && a in Addresses(q.addr, q.size)
  }

  lemma {:induction false} CoveredBy(ps: seq<Piece>, ps': seq<Piece>, kmap: set<nat>)
    requires Covered(ps, kmap) && NoMore(ps, ps')
    ensures Covered(ps', kmap)
  {
    hide Addresses;
  }

  lemma {:induction false} SetNoMore(ps: seq<Piece>, i: nat, p: Piece)
    requires i < |ps| && (p.size == 0 || (p.addr == ps[i].addr && p.size == ps[i].size))
    ensures NoMore(ps, ps[i := p])
  {
    forall q, a | q in ps[i := p] && a in Addresses(q.addr, q.size)
      ensures exists r :: r in ps && a in Addresses(r.addr, r.size)
    {
      if q in ps { } else { assert ps[i] in ps && a in Addresses(ps[i].addr, ps[i].size); }
    }
  }

  lemma {:induction false} CutNoMore(ps: seq<Piece>, next: nat, end: nat, size: nat)
    requires |ps| > 0 && next + size <= end && ps[0] == Piece(next, end - next, Space)
    ensures NoMore(ps, Cut(ps, next, end, size))
  {
    forall q, a | q in Cut(ps, next, end, size) && a in Addresses(q.addr, q.size)
      ensures exists r :: r in ps && a in Addresses(r.addr, r.size)
    {
      if q in ps { } else { assert ps[0] in ps && a in Addresses(ps[0].addr, ps[0].size); }
    }
  }

  lemma {:induction false} JoinNoMore(ps: seq<Piece>, next: nat, end: nat, j: nat)
    requires WellFormed(ps, next, end) && 0 < j < |ps|
    ensures ps[j].addr == end ==> NoMore(ps, Joined(ps, next, j))
    ensures NoMore(ps, Replaced(ps, next, end, j))
  {
    hide Disjoint;
    assert ps[0] in ps && ps[j] in ps;
    forall q: Piece, a | a in Addresses(q.addr, q.size) &&
                  ((ps[j].addr == end && q in Joined(ps, next, j)) || q in Replaced(ps, next, end, j))
      ensures exists r :: r in ps && a in Addresses(r.addr, r.size)
    {
      if q in ps { } else { assert a in Addresses(ps[0].addr, ps[0].size) || a in Addresses(ps[j].addr, ps[j].size); }
    }
  }

  lemma {:induction false} CoveredAdd(ps: seq<Piece>, kmap: set<nat>, p: Piece)
    requires Covered(ps, kmap)
    ensures Covered(ps + [p], kmap + Addresses(p.addr, p.size))
  {
    hide Addresses;
  }

  lemma {:induction false} CoveredDrop(ps: seq<Piece>, kmap: set<nat>, i: nat)
    requires Covered(ps, kmap) && Disjoint(ps) && i < |ps|
    ensures Covered(ps[i := Piece(0, 0, Gone)], kmap - Addresses(ps[i].addr, ps[i].size))
  {
    var ps' := ps[i := Piece(0, 0, Gone)];
    forall p | p in ps' ensures Addresses(p.addr, p.size) <= kmap - Addresses(ps[i].addr, ps[i].size) {
      var j: nat :| j < |ps'| && ps'[j] == p;
      if j != i {
        assert ps[j] in ps && Kalloc.Apart(ps[i], ps[j]);
        forall a | a in Addresses(p.addr, p.size) ensures a !in Addresses(ps[i].addr, ps[i].size) {
        }
      }
    }
  }

  lemma {:induction false} Unmapped(ps: seq<Piece>, kmap: set<nat>, space: nat, n: nat)
    requires Covered(ps, kmap) && Addresses(space, n) !! kmap
    ensures IsUnmapped(ps, space, n)
  {
    forall i | 0 <= i < |ps| ensures Kalloc.Apart(ps[i], Piece(space, n, Pending)) {
      var p := ps[i];
      assert p in ps;
      if p.size > 0 && n > 0 {
        var a := if p.addr < space then space else p.addr;
        assert a in Addresses(p.addr, p.size) ==> a in kmap;
        assert a in Addresses(space, n) ==> a !in kmap;
      }
    }
  }

  // ----- threads -----

  predicate Has(pc: Pc, s: nat)
  {
    (pc.Mapped? || pc.Spare?) && pc.space == s
  }

  predicate PcOK(pc: Pc)
  {
    pc.Wanting? || pc.Mapping? || pc.Mapped? ==> 0 < pc.n < PAGE && pc.n == Rounded(pc.size)
  }

  /** Each region belongs to the one thread that has it. */
  ghost predicate Owners(pcs: map<nat, Pc>, owner: map<nat, nat>)
  {
    && (forall t :: t in pcs ==> PcOK(pcs[t]))
    && (forall t, s :: t in pcs && Has(pcs[t], s) ==> s in owner && owner[s] == t)
    && (forall s :: s in owner ==> owner[s] in pcs && Has(pcs[owner[s]], s))
  }

  /** A thread without a region goes to a place without one. */
  lemma {:induction false} OwnersMove(pcs: map<nat, Pc>, owner: map<nat, nat>, t: nat, pc: Pc)
    requires Owners(pcs, owner) && PcOK(pc) && !pc.Mapped? && !pc.Spare?
    requires t in pcs ==> !pcs[t].Mapped? && !pcs[t].Spare?
    ensures Owners(pcs[t := pc], owner)
  {
    hide PcOK;
  }

  lemma {:induction false} OwnersGain(pcs: map<nat, Pc>, owner: map<nat, nat>, t: nat, pc: Pc)
    requires Owners(pcs, owner) && PcOK(pc) && pc.Mapped? && pc.space !in owner && t in pcs && pcs[t].Mapping?
    ensures Owners(pcs[t := pc], owner[pc.space := t])
  {
    hide PcOK;
  }

  lemma {:induction false} OwnersKeep(pcs: map<nat, Pc>, owner: map<nat, nat>, t: nat)
    requires Owners(pcs, owner) && t in pcs && pcs[t].Mapped?
    ensures Owners(pcs[t := Spare(pcs[t].space)], owner)
  {
  }

  lemma {:induction false} OwnersLose(pcs: map<nat, Pc>, owner: map<nat, nat>, t: nat)
    requires Owners(pcs, owner) && t in pcs && (pcs[t].Mapped? || pcs[t].Spare?)
    ensures pcs[t].space in owner && Owners(pcs[t := Outside], owner - {pcs[t].space})
  {
  }

  /** Event n wrote to a block that its owner, held being the blocks handed out then, had; and by event
      m the owner has neither returned the block nor written there again. */
  predicate Standing(evs: seq<Event>, held: map<nat, nat>, n: nat, m: nat)
  {
    && n < m <= |evs| && evs[n].Store? && evs[n].block in held
    && evs[n].block <= evs[n].addr < evs[n].block + Rounded(held[evs[n].block])
    && forall k :: n < k < m ==> !Ends(evs[n].block, evs[n].addr, evs[k])
  }

  /** The list that kalloc takes a block of so many bytes from. */
  function Class(size: nat): nat
  {
    ClassFrom(size, 0)
  }

  function ClassFrom(size: nat, k: nat): nat
    decreases size - BlockSize(k)
  {
    if size <= BlockSize(k) then k else ClassFrom(size, k + 1)
  }

  lemma {:induction false} ClassIs(size: nat, k: nat, j: nat)
    requires IsClass(size, k) && j <= k
    ensures ClassFrom(size, j) == k
    decreases k - j
  {
    if j < k {
      BlockSizeMono(j, k - 1);
      ClassIs(size, k, j + 1);
    }
  }

  predicate Ends(b: nat, a: nat, ev: Event)
  {
    ev == Return(b) || (ev.Store? && ev.block == b && ev.addr == a)
  }

  /** These blocks, which were not handed out, are handed out besides. */
  predicate Granted(held: map<nat, nat>, more: map<nat, nat>, held': map<nat, nat>)
  {
    held.Keys !! more.Keys && held' == held + more
  }

  lemma {:induction false} GrantedNone(held: map<nat, nat>)
    ensures Granted(held, map[], held)
  {
  }

  /** What an event does to the blocks handed out. */
  predicate Follows(held: map<nat, nat>, ev: Event, held': map<nat, nat>)
  {
    match ev
    case Return(a) => held' == held - {a}
    case Store(_, _, _) => held' == held
    case _ => forall a :: a in held ==> a in held' && held'[a] == held[a]
  }

  class System {
    const al: Allocator
    var pcs: map<nat, Pc>           // the threads that have called kalloc
    var held: map<nat, nat>         // blocks handed out, with the size asked for
    var owner: map<nat, nat>        // regions mapped by a thread in kget_space, with the thread
    var kmap: set<nat>              // addresses the kernel has mapped for the allocator

    ghost predicate Valid()
      reads this, al, al.heads
    {
      al.Valid() && Tied(al.pieces, held, owner.Keys) && Covered(al.pieces, kmap) && Owners(pcs, owner)
    }

    constructor ()
      ensures Valid() && fresh(al) && fresh(al.heads) && held == map[] && pcs == map[]
    {
      al := new Allocator();
      pcs, held, owner, kmap := map[], map[], map[], {};
    }

    /** A block the allocator has just cut off or taken from a list. */
    ghost predicate Fresh(ps: seq<Piece>, a: nat, size: nat)
      reads al
    {
      Plus(ps, al.pieces, Piece(a, Rounded(size), Live)) && NoMore(ps, al.pieces) &&
      forall q :: q in ps && q.use == Live ==> Kalloc.Apart(q, Piece(a, Rounded(size), Live))
    }

    method HandOut(ghost ps: seq<Piece>, a: nat, size: nat)
      requires al.Valid() && Fresh(ps, a, size)
      requires Tied(ps, held, owner.Keys) && Covered(ps, kmap) && Owners(pcs, owner)
      modifies this`held
      ensures Valid() && Granted(old(held), map[a := size], held)
    {
      hide Tied, Covered, Owners, Rounded, NoMore, Plus;
      RoundedPositive(size);
      NotHeld(ps, held, owner.Keys, Piece(a, Rounded(size), Live));
      TiedLive(ps, al.pieces, held, owner.Keys, a, size);
      CoveredBy(ps, al.pieces, kmap);
      held := held[a := size];
    }

    /** The block that event ev hands out, by the free lists, the space and the kernel's answer; none if
        there is none to be had. */
    ghost function Grant(ev: Event): map<nat, nat>
      reads this, al
    {
      match ev
      case Call(t, size, space) =>
        if PcAt(t) != Outside then map[]
        else if Rounded(size) >= PAGE then (if Free(space, Rounded(size)) then map[space := size] else map[])
        else if Class(size) < |al.lists| && al.lists[Class(size)] != [] then map[al.lists[Class(size)][0] := size]
        else map[]
      case Go(t, _) =>
        (match PcAt(t)
         case Wanting(size, n) => if al.next + n <= al.end then map[al.next := size] else map[]
         case Mapped(size, n, space) =>
           map[(if al.next + n > al.end && space != al.end then space else al.next) := size]
         case _ => map[])
      case _ => map[]
    }

    /** Where its thread is then. */
    ghost function Onward(ev: Event): Pc
      requires ev.Call? || ev.Go?
      reads this, al
    {
      match ev
      case Call(t, size, _) =>
        if PcAt(t) == Outside && Rounded(size) < PAGE && !(Class(size) < |al.lists| && al.lists[Class(size)] != [])
        then Wanting(size, Rounded(size)) else PcAt(t)
      case Go(t, space) =>
        match PcAt(t)
        case Outside => Outside
        case Wanting(size, n) => if al.next + n <= al.end then Outside else Mapping(size, n)
        case Mapping(size, n) => if Free(space, PAGE) then Mapped(size, n, space) else Outside
        case Mapped(size, n, mine) => if al.next + n > al.end then Outside else Spare(mine)
        case Spare(_) => Outside
    }

    predicate Free(space: nat, n: nat)
      reads this`kmap
    {
      space > 0 && Addresses(space, n) !! kmap
    }

    function PcAt(t: nat): Pc
      reads this`pcs
    {
      if t in pcs then pcs[t] else Outside
    }

    /** kalloc up to its first unlock, or the kernel's answer for a large block. */
    method Call(t: nat, size: nat, space: nat)
      requires Valid() && PcAt(t) == Outside
      modifies this, al, al.heads
      ensures Valid() && al.mem == old(al.mem)
      ensures Granted(old(held), old(Grant(Event.Call(t, size, space))), held)
      ensures PcAt(t) == old(Onward(Event.Call(t, size, space)))
      ensures forall u :: u != t ==> PcAt(u) == old(PcAt(u))
    {
      hide Tied, Covered, Owners, Rounded, Allocator.Valid, Plus, NoMore, IsClass;
      RoundedIs(size);
      var n, k := size, 0;
      if size < PAGE {
        n, k := ClassOf(size);
        ClassIs(size, k, 0);
      }
      assert n == Rounded(size);
      if n < PAGE {
        CallSmall(t, size, n, k);
      } else if Free(space, n) {
        CallLarge(size, n, space);
      }
    }

    method CallSmall(t: nat, size: nat, n: nat, k: nat)
      requires Valid() && PcAt(t) == Outside && n == Rounded(size) == BlockSize(k) < PAGE && k < KLIST_MAX
      modifies this, al, al.heads
      ensures Valid() && al.mem == old(al.mem) && k < |old(al.lists)|
      ensures Granted(old(held), if old(al.lists)[k] == [] then map[] else map[old(al.lists)[k][0] := size], held)
      ensures PcAt(t) == if old(al.lists)[k] == [] then Wanting(size, n) else Outside
      ensures forall u :: u != t ==> PcAt(u) == old(PcAt(u))
    {
      hide Tied, Covered, Owners, Rounded, Plus, NoMore, ListsMatch, Chains, Total, Bytes;
      ghost var ps := al.pieces;
      var addr: nat;
      ghost var i: nat;
      addr, i := al.Pop(k);
      if addr != 0 {
        SetPlus(ps, i, al.pieces[i]);
        SetNoMore(ps, i, al.pieces[i]);
        OthersApart(ps, al.pieces, i);
        HandOut(ps, addr, size);
      } else {
        OwnersMove(pcs, owner, t, Wanting(size, n));
        pcs := pcs[t := Wanting(size, n)];
      }
    }

    method CallLarge(size: nat, n: nat, space: nat)
      requires Valid() && n == Rounded(size) && Free(space, n)
      modifies this`held, this`kmap, al
      ensures Valid() && al.mem == old(al.mem) && Granted(old(held), map[space := size], held)
    {
      hide Tied, Owners, Rounded, Plus, ListsMatch, Chains, Total, Bytes, Addresses, Covered;
      RoundedPositive(size);
      ghost var ps := al.pieces;
      Unmapped(ps, kmap, space, n);
      al.Map(space, n, Live);
      AddPlus(ps, Piece(space, n, Live));
      OthersApart(ps, al.pieces, |ps|);
      NotHeld(ps, held, owner.Keys, Piece(space, n, Live));
      TiedLive(ps, al.pieces, held, owner.Keys, space, size);
      CoveredAdd(ps, kmap, Piece(space, n, Live));
      kmap, held := kmap + Addresses(space, n), held[space := size];
    }

    /** kget_space under its first lock. */
    method First(t: nat)
      requires Valid() && PcAt(t).Wanting?
      modifies this, al
      ensures Valid() && al.mem == old(al.mem)
      ensures var p, big := old(PcAt(t)), old(al.next + PcAt(t).n <= al.end);
        && Granted(old(held), if big then map[old(al.next) := p.size] else map[], held)
        && PcAt(t) == if big then Outside else Mapping(p.size, p.n)
      ensures forall u :: u != t ==> PcAt(u) == old(PcAt(u))
    {
      hide Tied, Covered, Rounded, Plus, NoMore, ListsMatch, Chains, Total, Bytes, Granted;
      GrantedNone(held);
      var size, n := pcs[t].size, pcs[t].n;
      assert PcOK(pcs[t]);
      ghost var ps, next, end := al.pieces, al.next, al.end;
      var addr := al.GetSpace(n);
      if addr != 0 {
        CutPlus(ps, next, end, n);
        CutNoMore(ps, next, end, n);
        OthersApart(ps, al.pieces, |ps|);
        HandOut(ps, addr, size);
        OwnersMove(pcs, owner, t, Outside);
        pcs := pcs[t := Outside];
      } else {
        OwnersMove(pcs, owner, t, Mapping(size, n));
        pcs := pcs[t := Mapping(size, n)];
      }
    }

    /** vm_map, which may fail. */
    method MapRegion(t: nat, space: nat)
      requires Valid() && PcAt(t).Mapping?
      modifies this, al
      ensures Valid() && held == old(held) && al.mem == old(al.mem) && PcAt(t) == old(Onward(Go(t, space)))
      ensures forall u :: u != t ==> PcAt(u) == old(PcAt(u))
    {
      hide Tied, Covered, Rounded, Plus, ListsMatch, Chains, Total, Bytes, Addresses;
      var size, n := pcs[t].size, pcs[t].n;
      if Free(space, PAGE) {
        ghost var ps := al.pieces;
        Unmapped(ps, kmap, space, PAGE);
        NewRegion(ps, held, owner.Keys, space);
        al.Map(space, PAGE, Pending);
        AddPlus(ps, Piece(space, PAGE, Pending));
        TiedMapped(ps, al.pieces, held, owner.Keys, space);
        CoveredAdd(ps, kmap, Piece(space, PAGE, Pending));
        OwnersGain(pcs, owner, t, Mapped(size, n, space));
        kmap, pcs, owner := kmap + Addresses(space, PAGE), pcs[t := Mapped(size, n, space)], owner[space := t];
        assert owner.Keys == old(owner).Keys + {space};
      } else {
        OwnersMove(pcs, owner, t, Outside);
        pcs := pcs[t := Outside];
      }
    }

    /** The piece of a region. */
    ghost method RegionPiece(s: nat) returns (j: nat)
      requires Valid() && s in owner
      ensures 0 < j < |al.pieces| && al.pieces[j] == Piece(s, PAGE, Pending)
    {
      assert Piece(s, PAGE, Pending) in al.pieces;
      j :| j < |al.pieces| && al.pieces[j] == Piece(s, PAGE, Pending);
    }

    /** kget_space under its second lock: the block is cut off, and the region has been joined to the
        space, has replaced it, or is not needed. */
    method Second(t: nat)
      requires Valid() && PcAt(t).Mapped?
      modifies this, al
      ensures Valid() && al.mem == old(al.mem)
      ensures var p, big := old(PcAt(t)), old(al.next + PcAt(t).n <= al.end);
        && Granted(old(held), map[(if !big && p.space != old(al.end) then p.space else old(al.next)) := p.size], held)
        && PcAt(t) == if big then Spare(p.space) else Outside
      ensures forall u :: u != t ==> PcAt(u) == old(PcAt(u))
    {
      hide Tied, Covered, Rounded, Plus, Minus, NoMore, Disjoint, ListsMatch, Chains, Total, Bytes, Joined, Replaced,
        Cut, Granted, WellFormed;
      var size, n, space := pcs[t].size, pcs[t].n, pcs[t].space;
      assert PcOK(pcs[t]) && Has(pcs[t], space);
      ghost var ps, next, end := al.pieces, al.next, al.end;
      ghost var j := RegionPiece(space);
      SpaceFirst(ps, next, end);
      var addr, used;
      addr, used := al.GetMapped(n, space, j);
      JoinMinus(ps, next, end, j);
      JoinNoMore(ps, next, end, j);
      ghost var ps1 := if !used then ps else if space == end then Joined(ps, next, j) else Replaced(ps, next, end, j);
      if used {
        TiedUnmapped(ps, ps1, held, owner.Keys, space);
        CoveredBy(ps, ps1, kmap);
        OwnersLose(pcs, owner, t);
        pcs, owner := pcs[t := Outside], owner - {space};
        assert owner.Keys == old(owner).Keys - {space};
      } else {
        OwnersKeep(pcs, owner, t);
        pcs := pcs[t := Spare(space)];
      }
      CutFresh(ps1, addr, al.end, n, al.pieces, al.next);
      HandOut(ps1, addr, size);
    }

    /** vm_deallocate of a region that was not needed. */
    method Drop(t: nat)
      requires Valid() && PcAt(t).Spare?
      modifies this, al
      ensures Valid() && held == old(held) && al.mem == old(al.mem) && PcAt(t) == Outside
      ensures forall u :: u != t ==> PcAt(u) == old(PcAt(u))
    {
      hide Tied, Covered, Rounded, Minus, ListsMatch, Chains, Total, Bytes, Addresses;
      var space := pcs[t].space;
      assert Has(pcs[t], space);
      ghost var ps := al.pieces;
      ghost var j := RegionPiece(space);
      al.Unmap(j);
      SetMinus(ps, j, Piece(0, 0, Gone));
      TiedUnmapped(ps, al.pieces, held, owner.Keys, space);
      CoveredDrop(ps, kmap, j);
      OwnersLose(pcs, owner, t);
      kmap, pcs, owner := kmap - Addresses(space, PAGE), pcs[t := Outside], owner - {space};
      assert owner.Keys == old(owner).Keys - {space};
    }

    /** The piece of a block handed out. */
    ghost method HeldPiece(a: nat) returns (i: nat)
      requires Valid() && a in held
      ensures 0 < i < |al.pieces| && al.pieces[i] == Piece(a, Rounded(held[a]), Live)
    {
      assert Piece(a, Rounded(held[a]), Live) in al.pieces;
      i :| i < |al.pieces| && al.pieces[i] == Piece(a, Rounded(held[a]), Live);
    }

    /** kfree of a block with the size it was asked for. */
    method Kfree(a: nat)
      requires Valid() && a in held
      modifies this, al, al.heads
      ensures Valid() && held == old(held) - {a} && pcs == old(pcs)
      ensures forall b :: b != a ==> SameAt(old(al.mem), al.mem, b)
    {
      hide Tied, Covered, Rounded, Minus, ListsMatch, Chains, Total, Bytes, Addresses, NoMore, IsClass, BlockSize;
      var size := held[a];
      ghost var ps := al.pieces;
      ghost var i := HeldPiece(a);
      RoundedPositive(size);
      al.Kfree(a, size, i);
      ghost var p := al.pieces[i];
      assert al.pieces == ps[i := p];
      SetMinus(ps, i, p);
      TiedFreed(ps, al.pieces, held, owner.Keys, a);
      if Rounded(size) >= PAGE {
        CoveredDrop(ps, kmap, i);
        kmap := kmap - Addresses(a, Rounded(size));
      } else {
        SetNoMore(ps, i, p);
        CoveredBy(ps, al.pieces, kmap);
      }
      held := held - {a};
    }

    /** The owner of block b writes to it. */
    method Write(b: nat, a: nat, v: nat)
      requires Valid() && b in held && b <= a < b + Rounded(held[b])
      modifies al
      ensures Valid() && al.mem == old(al.mem)[a := v]
    {
      hide Tied, Covered, Rounded;
      ghost var i := HeldPiece(b);
      al.UserWrite(a, v, i);
    }

    /** Blocks handed out do not overlap. */
    lemma {:induction false} HeldApart(a: nat, b: nat)
      requires Valid() && a in held && b in held && a < b
      ensures a + Rounded(held[a]) <= b
    {
      hide Rounded;
      RoundedPositive(held[a]);
      RoundedPositive(held[b]);
      var p, q := Piece(a, Rounded(held[a]), Live), Piece(b, Rounded(held[b]), Live);
      assert p in al.pieces && q in al.pieces;
      var i: nat :| i < |al.pieces| && al.pieces[i] == p;
      var j: nat :| j < |al.pieces| && al.pieces[j] == q;
      assert Kalloc.Apart(al.pieces[i], al.pieces[j]);
    }

    lemma {:induction false} InOne(b: nat, c: nat, a: nat)
      requires Valid() && In(b, a) && In(c, a)
      ensures b == c
    {
      hide Rounded, Valid;
      if b < c { HeldApart(b, c); }
      if c < b { HeldApart(c, b); }
    }

    /** Address a is in block b. */
    predicate In(b: nat, a: nat)
      reads this`held
    {
      b in held && b <= a < b + Rounded(held[b])
    }

    /** One event. Blocks that are not returned stay with their owners, other threads stay where they
        are, and what is in a block changes only where its owner writes. */
    method Step(ev: Event)
      requires Valid()
      modifies this, al, al.heads
      ensures Valid() && Follows(old(held), ev, held)
      ensures ev.Call? || ev.Go? ==> Granted(old(held), old(Grant(ev)), held) && PcAt(ev.t) == old(Onward(ev))
      ensures forall u :: !((ev.Call? || ev.Go?) && ev.t == u) ==> PcAt(u) == old(PcAt(u))
      ensures forall b, a :: old(In(b, a)) && !Ends(b, a, ev) ==> SameAt(old(al.mem), al.mem, a)
      ensures ev.Store? && old(In(ev.block, ev.addr)) ==> al.mem == old(al.mem)[ev.addr := ev.v]
    {
      hide Tied, Covered, Owners, Rounded, Allocator.Valid;
      forall b, c, a | In(b, a) && In(c, a) ensures b == c {
        InOne(b, c, a);
      }
      match ev {
        case Call(t, size, space) => if PcAt(t) == Outside { this.Call(t, size, space); }
        case Go(t, space) =>
          match PcAt(t) {
            case Outside =>
            case Wanting(_, _) => First(t);
            case Mapping(_, _) => MapRegion(t, space);
            case Mapped(_, _, _) => Second(t);
            case Spare(_) => Drop(t);
          }
        case Return(a) =>
          if a in held {
            assert In(a, a) by { RoundedPositive(held[a]); }
            Kfree(a);
          }
        case Store(b, a, v) => if In(b, a) { Write(b, a, v); }
      }
    }

    /** Threads outside kalloc have nothing mapped that is not accounted for. */
    lemma {:induction false} QuietBalance()
      requires Valid() && forall t :: t in pcs ==> pcs[t] == Outside
      ensures al.mapped == Bytes(al.pieces, Live) + Bytes(al.pieces, Kalloc.Free(0)) + al.wasted + (al.end - al.next)
    {
      hide Rounded;
      Conservation(al);
      forall p | p in al.pieces ensures p.use != Pending {
      }
      NonePending(al.pieces);
    }
  }

  lemma {:induction false} NonePending(ps: seq<Piece>)
    requires forall p :: p in ps ==> p.use != Pending
    ensures Bytes(ps, Pending) == 0
  {
    if ps != [] { NonePending(ps[..|ps| - 1]); }
  }

  /** Every run of any number of threads: the blocks handed out and not returned are disjoint, from
      each other and from all that is free, and every byte mapped is accounted for; what an owner last
      wrote to a block is there until it returns the block. */
  method Run(evs: seq<Event>) returns (sys: System, ghost hs: seq<map<nat, nat>>)
    ensures sys.Valid() && |hs| == |evs| + 1 && hs[0] == map[] && hs[|evs|] == sys.held
    ensures forall n :: 0 <= n < |evs| ==> Follows(hs[n], evs[n], hs[n + 1])
    ensures forall n :: 0 <= n < |evs| && Standing(evs, hs[n], n, |evs|) ==>
      sys.In(evs[n].block, evs[n].addr) && evs[n].addr in sys.al.mem && sys.al.mem[evs[n].addr] == evs[n].v
    ensures forall a, b :: a in sys.held && b in sys.held && a < b ==> a + Rounded(sys.held[a]) <= b
    ensures sys.al.mapped == Bytes(sys.al.pieces, Live) + Bytes(sys.al.pieces, Kalloc.Free(0)) + sys.al.wasted +
                             (sys.al.end - sys.al.next) + Bytes(sys.al.pieces, Pending)
    ensures (forall t :: sys.PcAt(t) == Outside) ==> Bytes(sys.al.pieces, Pending) == 0
  {
    hide Rounded, System.Valid, Allocator.Valid;
    sys := new System();
    hs := [sys.held];
    for m := 0 to |evs|
      invariant sys.Valid() && fresh(sys) && fresh(sys.al) && fresh(sys.al.heads)
      invariant |hs| == m + 1 && hs[0] == map[] && hs[m] == sys.held
      invariant forall n :: 0 <= n < m ==> Follows(hs[n], evs[n], hs[n + 1])
      invariant forall n :: 0 <= n < m && Standing(evs, hs[n], n, m) ==>
        sys.In(evs[n].block, evs[n].addr) && evs[n].addr in sys.al.mem && sys.al.mem[evs[n].addr] == evs[n].v
    {
      sys.Step(evs[m]);
      hs := hs + [sys.held];
      forall n | 0 <= n < m && Standing(evs, hs[n], n, m + 1) ensures Standing(evs, hs[n], n, m) {
      }
    }
    forall a, b | a in sys.held && b in sys.held && a < b ensures a + Rounded(sys.held[a]) <= b {
      sys.HeldApart(a, b);
    }
    Inner(sys);
    Conservation(sys.al);
    if forall t :: sys.PcAt(t) == Outside {
      forall t | t in sys.pcs ensures sys.pcs[t] == Outside {
        assert sys.PcAt(t) == Outside;
      }
      sys.QuietBalance();
    }
  }

  lemma {:induction false} Inner(sys: System)
    requires sys.Valid()
    ensures sys.al.Valid()
  {
  }

  lemma {:induction false} CutFresh(ps: seq<Piece>, next: nat, end: nat, n: nat, ps': seq<Piece>, next': nat)
    requires |ps| > 0 && next + n <= end && ps[0] == Piece(next, end - next, Space) && ps' == Cut(ps, next, end, n)
    requires WellFormed(ps', next', end)
    ensures Plus(ps, ps', Piece(next, n, Live)) && NoMore(ps, ps')
    ensures forall q :: q in ps && q.use == Live ==> Kalloc.Apart(q, Piece(next, n, Live))
  {
    hide Plus, NoMore;
    CutPlus(ps, next, end, n);
    CutNoMore(ps, next, end, n);
    OthersApart(ps, ps', |ps|);
  }

  lemma {:induction false} NewRegion(ps: seq<Piece>, held: map<nat, nat>, regs: set<nat>, space: nat)
    requires Tied(ps, held, regs) && IsUnmapped(ps, space, PAGE)
    ensures space !in regs
  {
    if space in regs {
      assert false;
    }
  }

  /** The piece at i is apart from the live pieces of before. */
  lemma {:induction false} OthersApart(ps: seq<Piece>, ps': seq<Piece>, i: nat)
    requires Disjoint(ps') && i < |ps'| && |ps| <= |ps'|
    requires forall j :: 0 <= j < |ps| && j != i && ps[j].use == Live ==> ps'[j] == ps[j]
    requires i < |ps| ==> ps[i].use != Live
    ensures forall q :: q in ps && q.use == Live ==> Kalloc.Apart(q, ps'[i])
  {
    forall q | q in ps && q.use == Live ensures Kalloc.Apart(q, ps'[i]) {
      var j: nat :| j < |ps| && ps[j] == q;
      assert Kalloc.Apart(ps'[j], ps'[i]);
    }
  }
}
