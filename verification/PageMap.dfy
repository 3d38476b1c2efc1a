/** The page map of one paging object (struct dpager): one level up to 64 pages, two levels above,
    growing in place. */
module PageMap {
  import opened BlockMap

  const ENTRIES: nat := 64          // PAGEMAP_ENTRIES
  const MAX_DOUBLED: nat := 1024    // atop(max_doubled_size)
  const NO_PART: nat := 255         // P_INDEX_INVALID

  /** An entry of a first-level map: a null pointer or a second-level map. */
  datatype Table = NoTable | Table(entries: seq<Slot>)

  datatype Map = Direct(entries: seq<Slot>) | Indirect(tables: seq<Table>)

  function Nones(n: nat): seq<Slot>
  {
    seq(n, _ => None)
  }

  predicate IsPow2(n: nat)
  {
    n == 1 || (n > 1 && n % 2 == 0 && IsPow2(n / 2))
  }

  /** The sizes an object can have. */
  predicate GoodSize(n: nat)
  {
    (n <= MAX_DOUBLED && IsPow2(n)) || (n > MAX_DOUBLED && n % ENTRIES == 0)
  }

  lemma {:induction false} GoodSizeFull(n: nat)
    requires GoodSize(n) && n > ENTRIES
    ensures n % ENTRIES == 0
  {
    if n <= MAX_DOUBLED {
      var a := Half(n, 64);
      var b := Half(a, 32);
      var c := Half(b, 16);
      var d := Half(c, 8);
      var e := Half(d, 4);
      var f := Half(e, 2);
      assert n == 64 * f;
    }
  }

  lemma {:induction false} Half(n: nat, k: nat) returns (h: nat)
    requires IsPow2(n) && n >= k >= 2
    ensures n == 2 * h && IsPow2(h) && h >= k / 2
  {
    h := n / 2;
  }

  /** The map has the shape of an object of n pages: every second-level map is full. */
  predicate Shape(m: Map, n: nat)
  {
    match m
    case Direct(e) => n <= ENTRIES && |e| == n
    case Indirect(t) =>
      n > ENTRIES && n == ENTRIES * |t| && forall j :: 0 <= j < |t| && t[j].Table? ==> |t[j].entries| == ENTRIES
  }

  function At(m: Map, n: nat, p: nat): Slot
    requires Shape(m, n) && p < n
  {
    match m
    case Direct(e) => e[p]
    case Indirect(t) => if t[p / ENTRIES].NoTable? then None else t[p / ENTRIES].entries[p % ENTRIES]
  }

  predicate Describes(m: Map, slots: seq<Slot>)
  {
    Shape(m, |slots|) && forall p :: 0 <= p < |slots| ==> slots[p] == At(m, |slots|, p)
  }

  lemma {:induction false} TableSlots(m: Map, slots: seq<Slot>, i: nat)
    requires Describes(m, slots) && m.Indirect? && i < |m.tables|
    ensures ENTRIES * (i + 1) <= |slots|
    ensures InPlace(slots[..ENTRIES * (i + 1)]) ==
            InPlace(slots[..ENTRIES * i]) + if m.tables[i].NoTable? then 0 else InPlace(m.tables[i].entries)
  {
    hide InPlace;
    var s := slots[ENTRIES * i..ENTRIES * (i + 1)];
    assert slots[..ENTRIES * (i + 1)] == slots[..ENTRIES * i] + s;
    InPlaceAppend(slots[..ENTRIES * i], s);
    assert forall k :: 0 <= k < ENTRIES ==> s[k] == At(m, |slots|, ENTRIES * i + k);
    if m.tables[i].NoTable? {
      InPlaceNone(s);
    } else {
      assert s == m.tables[i].entries;
    }
  }

  lemma {:induction false} DirectSlots(e: seq<Slot>, slots: seq<Slot>)
    ensures Describes(Direct(e), slots) <==> e == slots && |e| <= ENTRIES
  {
  }

  lemma {:induction false} GrowTables(t: seq<Table>, slots: seq<Slot>, k: nat)
    requires Describes(Indirect(t), slots)
    ensures Describes(Indirect(t + seq(k, _ => NoTable)), slots + Nones(ENTRIES * k))
  {
  }

  lemma {:induction false} GrowToTables(e: seq<Slot>, k: nat)
    requires |e| <= ENTRIES && k > 0
    ensures Describes(Indirect([Table(e + Nones(ENTRIES - |e|))] + seq(k, _ => NoTable)),
                      e + Nones(ENTRIES - |e| + ENTRIES * k))
  {
  }

  /** The least size the allocator can use: the doubling loop of pager_alloc and pager_extend. */
  method Doubled(from: nat, want: nat) returns (n: nat)
    requires IsPow2(from) && from <= MAX_DOUBLED && want <= MAX_DOUBLED
    ensures IsPow2(n) && want <= n <= MAX_DOUBLED && (n == from || n < 2 * want)
  {
    n := from;
    while n < want
      invariant IsPow2(n) && n <= MAX_DOUBLED && (n == from || n < 2 * want)
      decreases want - n
    {
      DoubleFits(n);
      n := 2 * n;
    }
  }

  lemma {:induction false} DoubleFits(n: nat)
    requires IsPow2(n) && n < MAX_DOUBLED
    ensures IsPow2(2 * n) && 2 * n <= MAX_DOUBLED
  {
    Pow2Below(n, 10);
  }

  /** A power of two below 2^k is at most 2^(k-1). */
  lemma {:induction false} Pow2Below(n: nat, k: nat)
    requires IsPow2(n) && n < TwoTo(k)
    ensures 2 * n <= TwoTo(k)
    ensures TwoTo(10) == MAX_DOUBLED
  {
    if n > 1 { Pow2Below(n / 2, k - 1); }
  }

  function TwoTo(k: nat): nat
  {
    if k == 0 then 1 else 2 * TwoTo(k - 1)
  }

  /** The copy-and-fill loops of pager_extend: a larger map, the rest filled in. */
  method Grown<T>(was: seq<T>, n: nat, fill: T) returns (m: seq<T>)
    requires |was| <= n
    ensures m == was + seq(n - |was|, _ => fill)
  {
    m := [];
    while |m| < |was|
      invariant |m| <= |was| && m == was[..|m|]
    {
      m := m + [was[|m|]];
    }
    while |m| < n
      invariant |was| <= |m| <= n && m == was + seq(|m| - |was|, _ => fill)
      decreases n - |m|
    {
      m := m + [fill];
    }
  }

  /** The least multiple of a second-level map. */
  function RoundUp(n: nat): (r: nat)
    ensures n <= r < n + ENTRIES && r % ENTRIES == 0
  {
    (n + ENTRIES - 1) / ENTRIES * ENTRIES
  }

  /** Extending an object of this size would make it smaller. */
  predicate Shrinks(size: nat, want: nat)
  {
    want > MAX_DOUBLED && RoundUp(want) < size
  }

  /** Sizes double up to the limit and are multiples of a second-level map above it; the present size
      matters only below the limit. */
  method NewSize(from: nat, want: nat) returns (n: nat)
    requires GoodSize(from)
    ensures GoodSize(n) && want <= n && (n == from || n < 2 * want)
    ensures want > MAX_DOUBLED ==> n == RoundUp(want)
    ensures n < from <==> Shrinks(from, want)
  {
    if want <= MAX_DOUBLED {
      n := from;
      if from < want { n := Doubled(from, want); }
    } else {
      n := RoundUp(want);
    }
  }

  /** The pages after a change of size. */
  function Resized(slots: seq<Slot>, n: nat): seq<Slot>
  {
    if n < |slots| then slots[..n] else slots + Nones(n - |slots|)
  }

  lemma {:induction false} CutTables(t: seq<Table>, slots: seq<Slot>, k: nat)
    requires Describes(Indirect(t), slots) && 1 < k <= |t|
    ensures ENTRIES * k <= |slots| && Describes(Indirect(t[..k]), slots[..ENTRIES * k])
  {
  }

  /** The three changes of shape of pager_extend, and what becomes of the map when it has more
      first-level entries than the new one: they are copied past its end, and those within it stay. */
  method GrownMap(m: Map, ghost slots: seq<Slot>, n: nat) returns (m': Map, overrun: bool)
    requires Describes(m, slots) && GoodSize(|slots|) && GoodSize(n) && (n < |slots| ==> n > ENTRIES)
    ensures Describes(m', Resized(slots, n)) && (overrun <==> n < |slots|)
  {
    hide At, GoodSize;
    if n > ENTRIES { GoodSizeFull(n); }
    if |slots| > ENTRIES { GoodSizeFull(|slots|); }
    overrun := false;
    match m
    case Indirect(t) =>
      var k := (n - 1) / ENTRIES + 1;
      if k < |t| {
        CutTables(t, slots, k);
        m', overrun := Indirect(t[..k]), true;
      } else {
        GrowTables(t, slots, k - |t|);
        var t' := Grown(t, k, NoTable);
        m' := Indirect(t');
      }
    case Direct(e) =>
      DirectSlots(e, slots);
      if n > ENTRIES {
        var k := (n - 1) / ENTRIES + 1;
        GrowToTables(e, k - 1);
        var e' := Grown(e, ENTRIES, None);
        m' := Indirect([Table(e')] + seq(k - 1, _ => NoTable));
      } else {
        var e' := Grown(e, n, None);
        m' := Direct(e');
        DirectSlots(e', e');
      }
  }

  class Dpager {
    var pages: Map
    var size: nat
    var cur: nat                  // cur_partition
    ghost var slots: seq<Slot>    // the page-to-block map

    ghost predicate Valid()
      reads this
    {
      GoodSize(size) && size == |slots| && cur <= NO_PART && Describes(pages, slots)
    }

    /** pager_alloc: all pages are unallocated; the size is the least power of two that covers the
        bytes asked for, or above the doubling limit the least multiple of a second-level map. */
    constructor (part: nat, bytes: nat)
      requires part <= NO_PART
      ensures Valid() && cur == part && slots == Nones(size)
      ensures bytes / PAGE <= size && (size == 1 || size < 2 * (bytes / PAGE))
      ensures bytes / PAGE > MAX_DOUBLED ==> size == RoundUp(bytes / PAGE)
    {
      var n := NewSize(1, bytes / PAGE);
      if n > ENTRIES { GoodSizeFull(n); }
      cur, size := part, n;
      pages := if n > ENTRIES then Indirect(seq((n - 1) / ENTRIES + 1, _ => NoTable)) else Direct(Nones(n));
      slots := Nones(n);
    }

    /** pager_extend, which does not ask whether the object has grown meanwhile. Every old page keeps
        its block and every new page is unallocated, whichever of the three changes of shape it makes,
        if and only if the size wanted is within the doubling limit or, rounded up, not below the
        present one; otherwise the pages beyond the new size are dropped. */
    method Extend(want: nat) returns (overrun: bool)
      requires Valid()
      modifies this`pages, this`size, this`slots
      ensures Valid() && want <= size && slots == Resized(old(slots), size)
      ensures old(slots) <= slots <==> want <= MAX_DOUBLED || RoundUp(want) >= old(size)
      ensures overrun <==> Shrinks(old(size), want)
      ensures size == old(size) || size < 2 * want
      ensures want > MAX_DOUBLED ==> size == RoundUp(want)
    {
      var n := NewSize(size, want);
      var m;
      m, overrun := GrownMap(pages, slots, n);
      slots := Resized(slots, n);
      pages, size := m, n;
    }

    /** pager_read_offset */
    function Read(p: nat): (v: Slot)
      requires Valid() && p < size
      reads this
      ensures v == slots[p]
    {
      match pages
      case Direct(e) => e[p]
      case Indirect(t) => if t[p / ENTRIES].NoTable? then None else t[p / ENTRIES].entries[p % ENTRIES]
    }

    /** The second-level map for page p, allocated by pager_write_offset when it is missing. */
    method NeedTable(p: nat)
      requires Valid() && p < size
      modifies this`pages
      ensures Valid() && (pages.Indirect? ==> pages.tables[p / ENTRIES].Table?)
    {
      if pages.Indirect? && pages.tables[p / ENTRIES].NoTable? {
        pages := Indirect(pages.tables[p / ENTRIES := Table(Nones(ENTRIES))]);
      }
    }

    /** Storing into the map entry of page p. */
    method Put(p: nat, v: Slot)
      requires Valid() && p < size && (pages.Indirect? ==> pages.tables[p / ENTRIES].Table?)
      modifies this`pages, this`slots
      ensures Valid() && slots == old(slots)[p := v]
    {
      match pages {
        case Direct(e) => pages := Direct(e[p := v]);
        case Indirect(t) =>
          var e := t[p / ENTRIES].entries[p % ENTRIES := v];
          pages := Indirect(t[p / ENTRIES := Table(e)]);
      }
      slots := slots[p := v];
    }

    /** pager_allocated, in bytes. */
    method Allocated() returns (bytes: nat)
      requires Valid()
      ensures bytes == PAGE * InPlace(slots)
    {
      var n := 0;
      match pages {
        case Direct(e) =>
          assert e == slots;
          n := Counted(e);
        case Indirect(t) =>
          var i := 0;
          while i < |t|
            invariant 0 <= i <= |t| && n == InPlace(slots[..ENTRIES * i])
          {
            TableSlots(pages, slots, i);
            if t[i].Table? {
              var m := Counted(t[i].entries);
              n := n + m;
            }
            i := i + 1;
          }
          assert slots[..ENTRIES * i] == slots;
      }
      bytes := PAGE * n;
    }
  }

  /** The inner loop of pager_allocated. */
  method Counted(e: seq<Slot>) returns (n: nat)
    ensures n == InPlace(e)
  {
    n := 0;
    for k := 0 to |e|
      invariant n == InPlace(e[..k])
    {
      assert e[..k + 1][..k] == e[..k];
      if e[k] != None { n := n + 1; }
    }
    assert e[..|e|] == e;
  }

  lemma {:induction false} InPlaceAppend(s: seq<Slot>, t: seq<Slot>)
    ensures InPlace(s + t) == InPlace(s) + InPlace(t)
  {
    if t == [] {
      assert s + t == s;
    } else {
      InPlaceAppend(s, t[..|t| - 1]);
      assert (s + t)[..|s + t| - 1] == s + t[..|t| - 1];
    }
  }

  lemma {:induction false} InPlaceNone(s: seq<Slot>)
    requires forall p :: 0 <= p < |s| ==> s[p] == None
    ensures InPlace(s) == 0
  {
    if s != [] { InPlaceNone(s[..|s| - 1]); }
  }
}
