/** The wired-memory allocator of kernel/generic/bootstrap/kalloc.c: power-of-two free lists
    threaded through the freed blocks, and a region from which new blocks are cut. Each method is a
    section of code that holds a lock, or a call to the kernel, so that any sequence of calls is an
    interleaving of threads. */
module Kalloc {

  const KLIST_MAX: nat := 13
  const PAGE: nat := 4096         // vm_page_size, and kalloc_max
  const MINSIZE: nat := 4

  /** What a piece of mapped memory is used for. */
  datatype Use =
    | Space               // [kalloc_next_space, kalloc_end_of_space)
    | Live                // handed out by kalloc
    | Free(k: nat)        // on free list k
    | Wasted              // the rest of a region that was abandoned
    | Pending             // mapped by a thread that has not yet taken the lock again
    | Gone                // no longer mapped, or joined to the space

  datatype Piece = Piece(addr: nat, size: nat, use: Use)

  /** The block size of free list k. */
  function BlockSize(k: nat): (n: nat)
    ensures n >= MINSIZE
  {
    if k == 0 then MINSIZE else 2 * BlockSize(k - 1)
  }

  predicate Apart(p: Piece, q: Piece)
  {
    p.size == 0 || q.size == 0 || p.addr + p.size <= q.addr || q.addr + q.size <= p.addr
  }

  ghost predicate Disjoint(ps: seq<Piece>)
  {
    forall i, j :: 0 <= i < |ps| && 0 <= j < |ps| && i != j ==> Apart(ps[i], ps[j])
  }

  /** Free pieces of all lists counted together. */
  function Sort(u: Use): Use
  {
    if u.Free? then Free(0) else u
  }

  /** The bytes of all pieces, and of those of one sort. */
  function Total(ps: seq<Piece>): nat
  {
    if ps == [] then 0 else Total(ps[..|ps| - 1]) + ps[|ps| - 1].size
  }

  function Bytes(ps: seq<Piece>, u: Use): nat
  {
    if ps == [] then 0 else Bytes(ps[..|ps| - 1], u) + if Sort(ps[|ps| - 1].use) == u then ps[|ps| - 1].size else 0
  }

  lemma {:induction false} SumsSet(ps: seq<Piece>, u: Use, i: nat, p: Piece)
    requires i < |ps|
    ensures Total(ps[i := p]) == Total(ps) - ps[i].size + p.size
    ensures Bytes(ps[i := p], u) ==
            Bytes(ps, u) - (if Sort(ps[i].use) == u then ps[i].size else 0) + (if Sort(p.use) == u then p.size else 0)
  {
    var n := |ps| - 1;
    if i < n {
      SumsSet(ps[..n], u, i, p);
      assert ps[i := p][..n] == ps[..n][i := p];
    } else {
      assert ps[i := p][..n] == ps[..n];
    }
  }

  lemma {:induction false} SumsAdd(ps: seq<Piece>, u: Use, p: Piece)
    ensures Total(ps + [p]) == Total(ps) + p.size
    ensures Bytes(ps + [p], u) == Bytes(ps, u) + if Sort(p.use) == u then p.size else 0
  {
    assert (ps + [p])[..|ps|] == ps;
  }

  /** Every byte is in a piece of exactly one sort. */
  lemma {:induction false} TotalBySort(ps: seq<Piece>)
    requires forall i :: 0 <= i < |ps| && ps[i].use == Gone ==> ps[i].size == 0
    ensures Total(ps) == Bytes(ps, Space) + Bytes(ps, Live) + Bytes(ps, Free(0)) + Bytes(ps, Wasted) +
                         Bytes(ps, Pending)
  {
    if ps != [] { TotalBySort(ps[..|ps| - 1]); }
  }

  /** A list threaded through memory: the first word of each block is the address of the next. */
  predicate Chain(mem: map<nat, nat>, head: nat, list: seq<nat>)
    decreases |list|
  {
    if list == [] then head == 0
    else head == list[0] != 0 && head in mem && Chain(mem, mem[head], list[1..])
  }

  /** Writing outside the blocks of a list leaves the list. */
  lemma {:induction false} ChainKept(mem: map<nat, nat>, head: nat, list: seq<nat>, a: nat, v: nat)
    requires Chain(mem, head, list) && a !in list
    ensures Chain(mem[a := v], head, list)
    decreases |list|
  {
    if list != [] { ChainKept(mem, mem[head], list[1..], a, v); }
  }

  // ----- changes of the pieces -----

  /** The space comes first. */
  ghost predicate WellFormed(ps: seq<Piece>, next: nat, end: nat)
  {
    && |ps| > 0 && next <= end && ps[0] == Piece(next, end - next, Space)
    && (forall i :: 0 < i < |ps| ==> ps[i].use != Space)
    && (forall i :: 0 <= i < |ps| ==> (ps[i].size > 0 ==> ps[i].addr > 0) && (ps[i].use == Gone ==> ps[i].size == 0))
    && Disjoint(ps)
  }

  lemma {:induction false} SpaceFirst(ps: seq<Piece>, next: nat, end: nat)
    requires WellFormed(ps, next, end)
    ensures |ps| > 0 && next <= end && ps[0] == Piece(next, end - next, Space)
  {
  }

  lemma {:induction false} Reused(ps: seq<Piece>, next: nat, end: nat, i: nat, u: Use)
    requires WellFormed(ps, next, end) && 0 < i < |ps| && u != Space && u != Gone
    ensures WellFormed(ps[i := ps[i].(use := u)], next, end)
  {
  }

  lemma {:induction false} Added(ps: seq<Piece>, next: nat, end: nat, p: Piece)
    requires WellFormed(ps, next, end) && p.addr > 0 && (p.use == Pending || p.use == Live)
    requires IsUnmapped(ps, p.addr, p.size)
    ensures WellFormed(ps + [p], next, end)
  {
    forall i | 0 <= i < |ps| ensures Apart(ps[i], p) && Apart(p, ps[i]) {
      assert Apart(ps[i], Piece(p.addr, p.size, Pending));
    }
  }

  /** Cutting a block off the space. */
  function Cut(ps: seq<Piece>, next: nat, end: nat, size: nat): seq<Piece>
    requires |ps| > 0 && next + size <= end
  {
    ps[0 := Piece(next + size, end - next - size, Space)] + [Piece(next, size, Live)]
  }

  lemma {:induction false} CutOff(ps: seq<Piece>, next: nat, end: nat, size: nat)
    requires WellFormed(ps, next, end) && next + size <= end
    ensures WellFormed(Cut(ps, next, end, size), next + size, end)
  {
  }

  lemma {:induction false} CutSums(ps: seq<Piece>, next: nat, end: nat, size: nat, u: Use)
    requires |ps| > 0 && next + size <= end && ps[0] == Piece(next, end - next, Space)
    ensures Total(Cut(ps, next, end, size)) == Total(ps)
    ensures u != Space && u != Live ==> Bytes(Cut(ps, next, end, size), u) == Bytes(ps, u)
  {
    var p, q := Piece(next + size, end - next - size, Space), Piece(next, size, Live);
    SumsSet(ps, u, 0, p);
    SumsAdd(ps[0 := p], u, q);
  }

  /** Joining the pending region at index j, which starts where the space ends. */
  function Joined(ps: seq<Piece>, next: nat, j: nat): seq<Piece>
    requires 0 < j < |ps| && next <= ps[j].addr
  {
    ps[0 := Piece(next, ps[j].addr + ps[j].size - next, Space)][j := Piece(0, 0, Gone)]
  }

  lemma {:induction false} Join(ps: seq<Piece>, next: nat, end: nat, j: nat)
    requires WellFormed(ps, next, end) && 0 < j < |ps| && ps[j].use == Pending && ps[j].addr == end
    ensures WellFormed(Joined(ps, next, j), next, end + ps[j].size)
  {
    var ps' := Joined(ps, next, j);
    forall i | 0 < i < |ps| ensures Apart(ps'[0], ps'[i]) && Apart(ps'[i], ps'[0]) {
      assert Apart(ps[0], ps[i]) && (i != j ==> Apart(ps[j], ps[i]));
    }
  }

  lemma {:induction false} JoinSums(ps: seq<Piece>, next: nat, end: nat, j: nat)
    requires 0 < j < |ps| && next <= end && ps[0] == Piece(next, end - next, Space)
    requires ps[j].use == Pending && ps[j].addr == end
    ensures Total(Joined(ps, next, j)) == Total(ps) && Bytes(Joined(ps, next, j), Wasted) == Bytes(ps, Wasted)
  {
    var p := Piece(next, end + ps[j].size - next, Space);
    SumsSet(ps, Wasted, 0, p);
    SumsSet(ps[0 := p], Wasted, j, Piece(0, 0, Gone));
  }

  /** Starting a new space in the pending region at index j; the rest of the old one is wasted. */
  function Replaced(ps: seq<Piece>, next: nat, end: nat, j: nat): seq<Piece>
    requires 0 < j < |ps| && next <= end
  {
    ps[0 := ps[j].(use := Space)][j := Piece(0, 0, Gone)] + [Piece(next, end - next, Wasted)]
  }

  lemma {:induction false} Replace(ps: seq<Piece>, next: nat, end: nat, j: nat)
    requires WellFormed(ps, next, end) && 0 < j < |ps| && ps[j].use == Pending
    ensures WellFormed(Replaced(ps, next, end, j), ps[j].addr, ps[j].addr + ps[j].size)
  {
    var ps' := Replaced(ps, next, end, j);
    forall i, k | 0 <= i < |ps'| && 0 <= k < |ps'| && i != k ensures Apart(ps'[i], ps'[k]) {
      var i', k' := Was(i, j, |ps|), Was(k, j, |ps|);
      assert i' != k' ==> Apart(ps[i'], ps[k']);
    }
  }

  /** The piece of before that the piece at index i is. */
  function Was(i: nat, j: nat, n: nat): nat
  {
    if i == 0 then j else if i == n then 0 else i
  }

  lemma {:induction false} ReplaceSums(ps: seq<Piece>, next: nat, end: nat, j: nat)
    requires 0 < j < |ps| && next <= end && ps[0] == Piece(next, end - next, Space) && ps[j].use == Pending
    ensures Total(Replaced(ps, next, end, j)) == Total(ps)
    ensures Bytes(Replaced(ps, next, end, j), Wasted) == Bytes(ps, Wasted) + end - next
  {
    var ps1 := ps[0 := ps[j].(use := Space)];
    var ps2 := ps1[j := Piece(0, 0, Gone)];
    SumsSet(ps, Wasted, 0, ps[j].(use := Space));
    SumsSet(ps1, Wasted, j, Piece(0, 0, Gone));
    SumsAdd(ps2, Wasted, Piece(next, end - next, Wasted));
  }

  // ----- the free lists -----

  ghost predicate OnList(ps: seq<Piece>, lists: seq<seq<nat>>, i: nat)
  {
    i < |ps| && ps[i].use.Free? ==>
      ps[i].use.k < |lists| && ps[i].size == BlockSize(ps[i].use.k) && ps[i].addr in lists[ps[i].use.k]
  }

  ghost predicate HasPiece(ps: seq<Piece>, lists: seq<seq<nat>>, k: nat, a: nat)
  {
    k < |lists| && a in lists[k] ==> Piece(a, BlockSize(k), Free(k)) in ps
  }

  ghost predicate NoRepeat(list: seq<nat>)
  {
    forall m, n :: 0 <= m < n < |list| ==> list[m] != list[n]
  }

  /** The blocks on list k are the pieces that are free in list k. */
  ghost predicate ListsMatch(ps: seq<Piece>, lists: seq<seq<nat>>)
  {
    && (forall i :: OnList(ps, lists, i)) && (forall k, a :: HasPiece(ps, lists, k, a))
    && (forall k :: 0 <= k < |lists| ==> NoRepeat(lists[k]))
  }

  /** Pieces that are not free and keep or change to another use do not matter to the lists. */
  lemma {:induction false} ListsUnaffected(ps: seq<Piece>, ps': seq<Piece>, lists: seq<seq<nat>>)
    requires ListsMatch(ps, lists)
    requires forall p: Piece :: p.use.Free? ==> (p in ps' <==> p in ps)
    ensures ListsMatch(ps', lists)
  {
    forall i: nat ensures OnList(ps', lists, i) {
      if i < |ps'| && ps'[i].use.Free? {
        assert ps'[i] in ps;
        var j: nat :| j < |ps| && ps[j] == ps'[i];
        assert OnList(ps, lists, j);
      }
    }
    forall k: nat, a: nat ensures HasPiece(ps', lists, k, a) {
      assert HasPiece(ps, lists, k, a);
    }
  }

  lemma {:induction false} Unlisted(ps: seq<Piece>, lists: seq<seq<nat>>, j: nat, p: Piece)
    requires ListsMatch(ps, lists) && j < |ps| && !ps[j].use.Free? && !p.use.Free?
    ensures ListsMatch(ps[j := p], lists)
  {
    var ps' := ps[j := p];
    forall q: Piece | q.use.Free? ensures q in ps' <==> q in ps {
      if q in ps {
        var i: nat :| i < |ps| && ps[i] == q;
        assert ps'[i] == q;
      }
    }
    ListsUnaffected(ps, ps', lists);
  }

  lemma {:induction false} CutLists(ps: seq<Piece>, lists: seq<seq<nat>>, next: nat, end: nat, size: nat)
    requires ListsMatch(ps, lists) && |ps| > 0 && ps[0].use == Space && next + size <= end
    ensures ListsMatch(Cut(ps, next, end, size), lists)
  {
    var p := Piece(next + size, end - next - size, Space);
    Unlisted(ps, lists, 0, p);
    ListsUnaffected(ps[0 := p], Cut(ps, next, end, size), lists);
  }

  lemma {:induction false} JoinLists(ps: seq<Piece>, lists: seq<seq<nat>>, next: nat, j: nat)
    requires ListsMatch(ps, lists) && 0 < j < |ps| && ps[0].use == Space && ps[j].use == Pending && next <= ps[j].addr
    ensures ListsMatch(Joined(ps, next, j), lists)
  {
    var p := Piece(next, ps[j].addr + ps[j].size - next, Space);
    Unlisted(ps, lists, 0, p);
    Unlisted(ps[0 := p], lists, j, Piece(0, 0, Gone));
  }

  lemma {:induction false} ReplaceLists(ps: seq<Piece>, lists: seq<seq<nat>>, next: nat, end: nat, j: nat)
    requires ListsMatch(ps, lists) && 0 < j < |ps| && ps[0].use == Space && ps[j].use == Pending && next <= end
    ensures ListsMatch(Replaced(ps, next, end, j), lists)
  {
    var p := ps[j].(use := Space);
    Unlisted(ps, lists, 0, p);
    Unlisted(ps[0 := p], lists, j, Piece(0, 0, Gone));
    ListsUnaffected(ps[0 := p][j := Piece(0, 0, Gone)], Replaced(ps, next, end, j), lists);
  }

  /** A live address is on no list. */
  lemma {:induction false} NotListed(ps: seq<Piece>, lists: seq<seq<nat>>, i: nat, k: nat, a: nat)
    requires ListsMatch(ps, lists) && Disjoint(ps) && i < |ps| && k < |lists|
    requires !ps[i].use.Free? && ps[i].addr <= a < ps[i].addr + ps[i].size
    ensures a !in lists[k]
  {
    assert HasPiece(ps, lists, k, a);
  }

  lemma {:induction false} Pushed(ps: seq<Piece>, lists: seq<seq<nat>>, i: nat, k: nat)
    requires ListsMatch(ps, lists) && Disjoint(ps) && i < |ps| && k < |lists|
    requires ps[i].use == Live && ps[i].size == BlockSize(k)
    ensures ListsMatch(ps[i := ps[i].(use := Free(k))], lists[k := [ps[i].addr] + lists[k]])
  {
    hide BlockSize;
    var a := ps[i].addr;
    var ps', lists' := ps[i := ps[i].(use := Free(k))], lists[k := [a] + lists[k]];
    NotListed(ps, lists, i, k, a);
    forall j: nat ensures OnList(ps', lists', j) {
      assert OnList(ps, lists, j);
    }
    forall m: nat, b: nat ensures HasPiece(ps', lists', m, b) {
      assert HasPiece(ps, lists, m, b);
      if m == k && b == a {
        assert ps'[i] == Piece(a, BlockSize(k), Free(k));
      } else if m < |lists| && b in lists'[m] {
        var j: nat :| j < |ps| && ps[j] == Piece(b, BlockSize(m), Free(m));
        assert ps'[j] == ps[j];
      }
    }
  }

  lemma {:induction false} Popped(ps: seq<Piece>, lists: seq<seq<nat>>, i: nat, k: nat)
    requires ListsMatch(ps, lists) && Disjoint(ps) && i < |ps| && k < |lists| && lists[k] != []
    requires ps[i] == Piece(lists[k][0], BlockSize(k), Free(k))
    ensures ListsMatch(ps[i := ps[i].(use := Live)], lists[k := lists[k][1..]])
  {
    var a := lists[k][0];
    var ps', lists' := ps[i := ps[i].(use := Live)], lists[k := lists[k][1..]];
    forall j: nat ensures OnList(ps', lists', j) {
      assert OnList(ps, lists, j);
      if j < |ps| && j != i && ps[j].use == Free(k) { assert Apart(ps[i], ps[j]); }
    }
    forall m: nat, b: nat ensures HasPiece(ps', lists', m, b) {
      assert HasPiece(ps, lists, m, b);
      if m < |lists| && b in lists'[m] {
        var j: nat :| j < |ps| && ps[j] == Piece(b, BlockSize(m), Free(m));
        assert ps'[j] == ps[j];
      }
    }
  }

  // ----- size classes -----

  /** The least list whose blocks hold size bytes. */
  predicate IsClass(size: nat, k: nat)
  {
    size <= BlockSize(k) && (k == 0 || BlockSize(k - 1) < size)
  }

  /** kalloc and kfree find the same list for the same size. */
  lemma {:induction false} ClassUnique(size: nat, j: nat, k: nat)
    requires IsClass(size, j) && IsClass(size, k)
    ensures j == k
  {
    if j < k {
      BlockSizeMono(j, k - 1);
    } else if k < j {
      BlockSizeMono(k, j - 1);
    }
  }

  lemma {:induction false} BlockSizeMono(j: nat, k: nat)
    requires j <= k
    ensures BlockSize(j) <= BlockSize(k)
  {
    if j < k { BlockSizeMono(j, k - 1); }
  }

  /** The loop of kalloc and kfree. */
  method ClassOf(size: nat) returns (n: nat, k: nat)
    requires size < PAGE
    ensures n == BlockSize(k) && IsClass(size, k) && k < KLIST_MAX && n <= PAGE
  {
    n, k := MINSIZE, 0;
    assert BlockSize(10) == PAGE by {
      assert BlockSize(3) == 32;
      assert BlockSize(6) == 256;
      assert BlockSize(8) == 1024;
    }
    while n < size
      invariant n == BlockSize(k) && 0 <= k <= 10 && (k == 0 || BlockSize(k - 1) < size)
      decreases 10 - k
    {
      if k == 10 { assert false; }
      n, k := 2 * n, k + 1;
    }
    BlockSizeMono(k, 10);
  }

  predicate SameAt(mem: map<nat, nat>, mem': map<nat, nat>, a: nat)
  {
    (a in mem <==> a in mem') && (a in mem ==> mem'[a] == mem[a])
  }

  class Allocator {
    const heads: array<nat>         // kfree_list
    var mem: map<nat, nat>          // words of memory, by address
    var next: nat                   // kalloc_next_space
    var end: nat                    // kalloc_end_of_space
    var wasted: nat                 // kalloc_wasted_space
    ghost var pieces: seq<Piece>    // all memory the allocator ever mapped
    ghost var lists: seq<seq<nat>>  // the blocks on each free list, first to last
    ghost var mapped: nat           // bytes mapped and not unmapped

    ghost predicate Valid()
      reads this, heads
    {
      && heads.Length == |lists| == KLIST_MAX
      && WellFormed(pieces, next, end) && ListsMatch(pieces, lists) && Chains(mem, heads[..], lists)
      && wasted == Bytes(pieces, Wasted) && mapped == Total(pieces)
    }

    /** kalloc_init */
    constructor ()
      ensures Valid() && mapped == 0 && pieces == [Piece(PAGE, 0, Space)] && fresh(heads)
    {
      heads := new nat[KLIST_MAX](_ => 0);
      mem, next, end, wasted, mapped := map[], PAGE, PAGE, 0, 0;
      pieces, lists := [Piece(PAGE, 0, Space)], seq(KLIST_MAX, _ => []);
      new;
      assert Bytes(pieces, Wasted) == Bytes([], Wasted) && Total(pieces) == Total([]) by {
        assert pieces[..0] == [];
      }
    }

    /** kalloc: taking the first block of list k. */
    method Pop(k: nat) returns (addr: nat, ghost i: nat)
      requires Valid() && k < KLIST_MAX
      modifies this`pieces, this`lists, heads
      ensures Valid()
      ensures addr == 0 <==> old(lists)[k] == []
      ensures addr == 0 ==> pieces == old(pieces) && lists == old(lists)
      ensures addr != 0 ==> addr == old(lists)[k][0] && lists == old(lists)[k := old(lists)[k][1..]]
      ensures addr != 0 ==> 0 < i < |old(pieces)| && old(pieces)[i] == Piece(addr, BlockSize(k), Free(k)) &&
                            pieces == old(pieces)[i := Piece(addr, BlockSize(k), Live)]
    {
      hide Disjoint, Total, Bytes;
      addr, i := heads[k], 0;
      assert Chain(mem, heads[..][k], lists[k]);
      if addr != 0 {
        assert HasPiece(pieces, lists, k, addr);
        i :| i < |pieces| && pieces[i] == Piece(addr, BlockSize(k), Free(k));
        Popped(pieces, lists, i, k);
        Reused(pieces, next, end, i, Live);
        SumsSet(pieces, Wasted, i, pieces[i].(use := Live));
        heads[k] := mem[addr];
        pieces, lists := pieces[i := pieces[i].(use := Live)], lists[k := lists[k][1..]];
      }
    }

    /** kfree: the block becomes the first of list k. */
    method Push(data: nat, k: nat, ghost i: nat)
      requires Valid() && k < KLIST_MAX && 0 < i < |pieces| && pieces[i] == Piece(data, BlockSize(k), Live)
      modifies this`mem, this`pieces, this`lists, heads
      ensures Valid() && pieces == old(pieces)[i := Piece(data, BlockSize(k), Free(k))]
      ensures lists == old(lists)[k := [data] + old(lists)[k]]
      ensures mem == old(mem)[data := old(heads[k])]
    {
      hide Disjoint, Total, Bytes;
      Pushed(pieces, lists, i, k);
      Reused(pieces, next, end, i, Free(k));
      SumsSet(pieces, Wasted, i, pieces[i].(use := Free(k)));
      ChainsPushed(mem, heads[..], pieces, lists, i, k);
      mem := mem[data := heads[k]];
      heads[k] := data;
      pieces, lists := pieces[i := pieces[i].(use := Free(k))], lists[k := [data] + lists[k]];
      assert heads[..] == old(heads[..])[k := data];
    }

    /** The owner of a live block writes to it. */
    method UserWrite(a: nat, v: nat, ghost i: nat)
      requires Valid() && i < |pieces| && pieces[i].use == Live && pieces[i].addr <= a < pieces[i].addr + pieces[i].size
      modifies this`mem
      ensures Valid() && mem == old(mem)[a := v]
    {
      forall k | 0 <= k < KLIST_MAX ensures Chain(mem[a := v], heads[..][k], lists[k]) {
        NotListed(pieces, lists, i, k, a);
        ChainKept(mem, heads[..][k], lists[k], a, v);
      }
      mem := mem[a := v];
    }

    /** Cutting a block off the space, which is big enough. */
    method Take(size: nat) returns (addr: nat)
      requires Valid() && 0 < size && next + size <= end
      modifies this`next, this`pieces
      ensures Valid() && addr == old(next) != 0 && pieces == Cut(old(pieces), old(next), old(end), size)
    {
      hide Disjoint, Total, Bytes, ListsMatch, Chains;
      CutOff(pieces, next, end, size);
      CutSums(pieces, next, end, size, Wasted);
      CutLists(pieces, lists, next, end, size);
      addr := next;
      pieces := Cut(pieces, next, end, size);
      next := next + size;
    }

    /** kget_space up to its first unlock: a block, or 0 when memory must be mapped. */
    method GetSpace(size: nat) returns (addr: nat)
      requires Valid() && 0 < size
      modifies this`next, this`pieces
      ensures Valid() && (addr == 0 <==> old(next) + size > old(end))
      ensures addr == 0 ==> pieces == old(pieces) && next == old(next)
      ensures addr != 0 ==> addr == old(next) && pieces == Cut(old(pieces), old(next), old(end), size)
    {
      if next + size > end { return 0; }
      addr := Take(size);
    }

    /** The kernel maps a region that was not in use. */
    method Map(space: nat, n: nat, u: Use)
      requires Valid() && space > 0 && IsUnmapped(pieces, space, n) && (u == Pending || u == Live)
      modifies this`pieces, this`mapped
      ensures Valid() && pieces == old(pieces) + [Piece(space, n, u)] && mapped == old(mapped) + n
    {
      hide Chains, ListsMatch, Total, Bytes;
      var p := Piece(space, n, u);
      Added(pieces, next, end, p);
      SumsAdd(pieces, Wasted, p);
      ListsUnaffected(pieces, pieces + [p], lists);
      pieces, mapped := pieces + [p], mapped + n;
    }

    /** kget_space from the second locking on, with a region mapped meanwhile: it is joined to the
        space or replaces it when the space is still too small. */
    method GetMapped(size: nat, space: nat, ghost j: nat) returns (addr: nat, used: bool)
      requires Valid() && 0 < size <= PAGE && 0 < j < |pieces| && pieces[j] == Piece(space, PAGE, Pending)
      modifies this`next, this`end, this`wasted, this`pieces
      ensures Valid() && addr != 0 && used == (old(next) + size > old(end))
      ensures addr == if used && space != old(end) then space else old(next)
      ensures var ps := if !used then old(pieces) else if space == old(end) then Joined(old(pieces), old(next), j)
                        else Replaced(old(pieces), old(next), old(end), j);
              && 0 < |ps| && addr + size <= end && ps[0] == Piece(addr, end - addr, Space)
              && pieces == Cut(ps, addr, end, size)
    {
      hide WellFormed, Disjoint, ListsMatch, Chains, Total, Bytes;
      used := next + size > end;
      if used { Install(space, j); }
      SpaceFirst(pieces, next, end);
      addr := Take(size);
    }

    method Install(space: nat, ghost j: nat)
      requires Valid() && 0 < j < |pieces| && pieces[j] == Piece(space, PAGE, Pending)
      modifies this`next, this`end, this`wasted, this`pieces
      ensures Valid() && end == space + PAGE && next == if space == old(end) then old(next) else space
      ensures old(next) <= old(end) && pieces == if space == old(end) then Joined(old(pieces), old(next), j)
                        else Replaced(old(pieces), old(next), old(end), j)
      ensures end - next >= PAGE && |pieces| > 0
    {
      hide Disjoint, ListsMatch, Chains, Total, Bytes;
      if space != end {
        Replace(pieces, next, end, j);
        ReplaceSums(pieces, next, end, j);
        ReplaceLists(pieces, lists, next, end, j);
        pieces := Replaced(pieces, next, end, j);
        wasted := wasted + (end - next);
        next := space;
      } else {
        Join(pieces, next, end, j);
        JoinSums(pieces, next, end, j);
        JoinLists(pieces, lists, next, j);
        pieces := Joined(pieces, next, j);
      }
      end := space + PAGE;
    }

    /** A region that was not needed, or a large block, is unmapped. */
    method Unmap(ghost j: nat)
      requires Valid() && 0 < j < |pieces| && (pieces[j].use == Pending || pieces[j].use == Live)
      modifies this`pieces, this`mapped
      ensures Valid() && pieces == old(pieces)[j := Piece(0, 0, Gone)] && mapped == old(mapped) - old(pieces)[j].size
    {
      var p := Piece(0, 0, Gone);
      SumsSet(pieces, Wasted, j, p);
      Unlisted(pieces, lists, j, p);
      mapped := mapped - pieces[j].size;
      pieces := pieces[j := p];
    }

    /** kget_space by a thread that is not interrupted. */
    method KgetSpace(size: nat, space: nat) returns (addr: nat, ghost i: nat)
      requires Valid() && 0 < size <= PAGE && (space > 0 ==> IsUnmapped(pieces, space, PAGE))
      modifies this`next, this`end, this`wasted, this`pieces, this`mapped
      ensures Valid() && (addr == 0 ==> space == 0 && pieces == old(pieces))
      ensures addr != 0 ==> 0 < i < |pieces| && |old(pieces)| <= i && pieces[i] == Piece(addr, size, Live)
      ensures forall j :: 0 < j < |old(pieces)| ==> j < |pieces| && pieces[j] == old(pieces)[j]
    {
      hide Disjoint, ListsMatch, Chains, Total, Bytes, IsUnmapped;
      addr := GetSpace(size);
      i := |pieces| - 1;
      if addr == 0 && space != 0 {
        ghost var j := |pieces|;
        Map(space, PAGE, Pending);
        var used;
        addr, used := GetMapped(size, space, j);
        assert used;
        i := |pieces| - 1;
      }
    }

    /** kalloc by a thread that is not interrupted: space is where the kernel maps memory when
        asked, or 0 when it refuses. */
    method Kalloc(size: nat, space: nat) returns (addr: nat, ghost i: nat)
      requires Valid() && (space > 0 ==> IsUnmapped(pieces, space, if size < PAGE then PAGE else size))
      modifies this, heads
      ensures Valid()
      ensures addr == 0 ==> space == 0 && pieces == old(pieces)
      ensures addr != 0 ==> 0 < i < |pieces| && pieces[i] == Piece(addr, Rounded(size), Live)
      ensures forall j :: 0 <= j < |old(pieces)| && old(pieces)[j].use == Live ==>
        j < |pieces| && pieces[j] == old(pieces)[j] && (addr != 0 ==> j != i)
      ensures forall k: nat ::
        size < PAGE && k < KLIST_MAX && IsClass(size, k) && BlockSize(k) < PAGE && old(lists)[k] != [] ==>
        addr == old(lists)[k][0]
    {
      hide Disjoint, ListsMatch, Chains, Total, Bytes, IsClass, BlockSize, IsUnmapped, Rounded;
      RoundedIs(size);
      i := 0;
      var n, k := size, 0;
      if size < PAGE { n, k := ClassOf(size); ClassesUnique(size, k); }
      if n < PAGE {
        addr, i := Pop(k);
        if addr == 0 { addr, i := KgetSpace(n, space); }
      } else if space == 0 {
        addr := 0;
      } else {
        Map(space, n, Live);
        addr, i := space, |pieces| - 1;
      }
    }

    /** kfree of a live block with the size it was allocated for: a small block is the next that
        kalloc hands out for that size, a large one is unmapped. */
    method Kfree(data: nat, size: nat, ghost i: nat)
      requires Valid() && 0 < i < |pieces| && pieces[i] == Piece(data, Rounded(size), Live)
      modifies this, heads
      ensures Valid() && forall a :: a != data ==> SameAt(old(mem), mem, a)
      ensures |pieces| == |old(pieces)| && forall j :: 0 <= j < |pieces| && j != i ==> pieces[j] == old(pieces)[j]
      ensures if Rounded(size) >= PAGE then pieces[i] == Piece(0, 0, Gone)
              else pieces[i].addr == data && pieces[i].size == Rounded(size) && pieces[i].use.Free?
      ensures size < PAGE && Rounded(size) < PAGE ==>
        exists k: nat :: k < KLIST_MAX && IsClass(size, k) && lists == old(lists)[k := [data] + old(lists)[k]] &&
                         pieces[i] == Piece(data, BlockSize(k), Free(k))
    {
      hide Disjoint, ListsMatch, Chains, Total, Bytes, IsClass, BlockSize, Rounded;
      RoundedIs(size);
      var n, k := size, 0;
      if size < PAGE { n, k := ClassOf(size); }
      if n < PAGE { Push(data, k, i); } else { Unmap(i); }
    }

    /** A block that was freed is the one handed out next for the same size. */
    method Recycle(data: nat, size: nat, ghost i: nat) returns (addr: nat)
      requires Valid() && 0 < i < |pieces| && pieces[i] == Piece(data, Rounded(size), Live)
      requires size < PAGE && Rounded(size) < PAGE
      modifies this, heads
      ensures Valid() && addr == data
    {
      hide Disjoint, ListsMatch, Chains, Total, Bytes, IsClass, BlockSize, Rounded, WellFormed;
      RoundedIs(size);
      Kfree(data, size, i);
      ghost var at;
      addr, at := Kalloc(size, 0);
    }
  }

  /** Memory is live, free, wasted, left in the space, or mapped and not yet joined. */
  lemma {:induction false} Conservation(a: Allocator)
    requires a.Valid()
    ensures a.mapped == Bytes(a.pieces, Live) + Bytes(a.pieces, Free(0)) + a.wasted + (a.end - a.next) +
                        Bytes(a.pieces, Pending)
  {
    TotalBySort(a.pieces);
    OneSpace(a.pieces);
  }

  lemma {:induction false} OneSpace(ps: seq<Piece>)
    requires |ps| > 0 && ps[0].use == Space && forall i :: 0 < i < |ps| ==> ps[i].use != Space
    ensures Bytes(ps, Space) == ps[0].size
  {
    if |ps| == 1 {
      assert ps[..0] == [];
      assert Bytes(ps[..0], Space) == 0;
    } else {
      OneSpace(ps[..|ps| - 1]);
    }
  }

  /** The size of the block that kalloc hands out for size bytes. */
  function Rounded(size: nat): nat
  {
    if size < PAGE then RoundedUp(size, 0) else size
  }

  function RoundedUp(size: nat, k: nat): nat
    decreases size - BlockSize(k)
  {
    if size <= BlockSize(k) then BlockSize(k) else RoundedUp(size, k + 1)
  }

  lemma {:induction false} RoundedIs(size: nat)
    ensures forall k: nat :: IsClass(size, k) && size < PAGE ==> Rounded(size) == BlockSize(k)
    ensures size >= PAGE ==> Rounded(size) == size
  {
    forall k: nat | IsClass(size, k) && size < PAGE ensures Rounded(size) == BlockSize(k) {
      RoundedUpIs(size, 0, k);
    }
  }

  lemma {:induction false} RoundedUpIs(size: nat, j: nat, k: nat)
    requires j <= k && IsClass(size, k)
    ensures RoundedUp(size, j) == BlockSize(k)
    decreases k - j
  {
    if j < k {
      BlockSizeMono(j, k - 1);
      RoundedUpIs(size, j + 1, k);
    }
  }

  lemma {:induction false} ClassesUnique(size: nat, k: nat)
    requires IsClass(size, k)
    ensures forall j: nat :: IsClass(size, j) ==> j == k
  {
    forall j: nat | IsClass(size, j) ensures j == k {
      ClassUnique(size, j, k);
    }
  }

  /** The kernel hands out memory that is not in use. */
  ghost predicate IsUnmapped(ps: seq<Piece>, space: nat, n: nat)
  {
    forall i :: 0 <= i < |ps| ==> Apart(ps[i], Piece(space, n, Pending))
  }

  lemma {:induction false} ChainsPushed(mem: map<nat, nat>, heads: seq<nat>, ps: seq<Piece>, lists: seq<seq<nat>>,
                                        i: nat, k: nat)
    requires Chains(mem, heads, lists) && ListsMatch(ps, lists) && Disjoint(ps) && i < |ps| && k < |lists|
    requires !ps[i].use.Free? && ps[i].size > 0 && ps[i].addr > 0
    ensures Chains(mem[ps[i].addr := heads[k]], heads[k := ps[i].addr], lists[k := [ps[i].addr] + lists[k]])
  {
    var a := ps[i].addr;
    forall m | 0 <= m < |heads| ensures Chain(mem[a := heads[k]], heads[m], lists[m]) {
      NotListed(ps, lists, i, m, a);
      ChainKept(mem, heads[m], lists[m], a, heads[k]);
    }
  }

  ghost predicate Chains(mem: map<nat, nat>, heads: seq<nat>, lists: seq<seq<nat>>)
  {
    |heads| == |lists| && forall k :: 0 <= k < |heads| ==> Chain(mem, heads[k], lists[k])
  }
}
