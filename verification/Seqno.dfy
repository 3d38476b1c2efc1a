/** The request protocol of one paging object: handler threads ordered by port sequence numbers,
    readers, writers, reference counts and condition variables. A section of code between taking
    and releasing the object's lock is one step; a thread in condition_wait is asleep until it is
    woken. Any interleaving of steps is a run. */
module Seqno {

  /** data_initialize behaves as data_write. */
  datatype Kind = Init | Terminate | Read | Write

  /** Where the handler of a request is. */
  datatype Pc =
    | Enter(asleep: bool)     // in pager_port_lock, waiting for its number
    | Refs(excess: nat)       // in pager_port_check_request, returning references, unlocked
    | WaitW(asleep: bool)     // in pager_port_wait_for_writers
    | WaitR(asleep: bool)     // in pager_port_wait_for_readers
    | WaitN(asleep: bool)     // in pager_port_wait_for_refs
    | Bcast(refs: nat)        // unlocked by pager_port_unlock, about to broadcast
    | Busy                    // reading or writing
    | Fin                     // the last to finish, about to broadcast
    | Return(refs: nat)       // terminate, returning references
    | Done

  datatype State = State(
    seqno: nat, readers: int, writers: int,
    live: bool,               // pager_request is a port
    refs: nat,                // request_refs
    returned: nat,            // references to the request port given back so far
    names: int,               // name_refs
    naming: bool,             // default_pager_objects is making name references, unlocked
    pcs: seq<Pc>,             // the requests received so far, by number
    log: seq<nat>)            // the requests admitted, in order

  datatype Step = Receive | Run(i: nat) | Spurious(i: nat) | NameStart | NameEnd

  const MAX: int := 10000     // default_pager_max_urefs

  // ----- requests -----

  /** Whether the object has a request port before request s. */
  predicate LiveAt(reqs: seq<Kind>, live0: bool, s: nat)
    requires s <= |reqs|
  {
    if s == 0 then live0 else
    match reqs[s - 1]
    case Init => true
    case Terminate => false
    case _ => LiveAt(reqs, live0, s - 1)
  }

  /** The kernel sends init to an object without a request port, and the rest to one with. */
  predicate WellFormed(reqs: seq<Kind>, live0: bool)
  {
    forall s :: 0 <= s < |reqs| ==> (reqs[s] == Init <==> !LiveAt(reqs, live0, s))
  }

  /** The references to the request port that requests before s have brought, since its init. */
  function Granted(reqs: seq<Kind>, live0: bool, s: nat): nat
    requires s <= |reqs|
  {
    if s == 0 then (if live0 then 1 else 0) else
    match reqs[s - 1]
    case Init => 1
    case Terminate => 0
    case _ => Granted(reqs, live0, s - 1) + 1
  }

  // ----- steps -----

  function Start(live0: bool): State
  {
    State(0, 0, 0, live0, if live0 then 1 else 0, 0, if live0 then 1 else 0, false, [], [])
  }

  function Set(st: State, i: nat, pc: Pc): State
    requires i < |st.pcs|
  {
    st.(pcs := st.pcs[i := pc])
  }

  /** pager_port_unlock, up to its broadcast */
  function Unlock(st: State, i: nat, n: nat): State
    requires i < |st.pcs|
  {
    st.(seqno := st.seqno + 1, pcs := st.pcs[i := Bcast(n)])
  }

  /** data_request and data_write after pager_port_check_request */
  function Begin(st: State, i: nat, k: Kind): State
    requires i < |st.pcs|
  {
    if k == Write then Unlock(st.(writers := st.writers + 1), i, 0)
    else if st.writers != 0 then Set(st, i, WaitW(true))
    else Unlock(st.(readers := st.readers + 1), i, 0)
  }

  function Check(st: State, i: nat, k: Kind): State
    requires i < |st.pcs|
  {
    if st.refs + 1 > MAX then Set(st.(refs := 1), i, Refs(st.refs))
    else Begin(st.(refs := st.refs + 1), i, k)
  }

  /** terminate: readers, then writers, then name references; then the ports are cleared */
  function TermR(st: State, i: nat): State
    requires i < |st.pcs|
  {
    if st.readers != 0 then Set(st, i, WaitR(true)) else TermW(st, i)
  }

  function TermW(st: State, i: nat): State
    requires i < |st.pcs|
  {
    if st.writers != 0 then Set(st, i, WaitW(true)) else TermN(st, i)
  }

  function TermN(st: State, i: nat): State
    requires i < |st.pcs|
  {
    if st.names == 0 then Set(st, i, WaitN(true))
    else Unlock(st.(live := false, refs := 0, names := 0), i, st.refs)
  }

  datatype Condition = OnSeqno | OnWriters | OnReaders | OnNames

  function Woken(pc: Pc, c: Condition): Pc
  {
    match (pc, c)
    case (Enter(_), OnSeqno) => Enter(false)
    case (WaitW(_), OnWriters) => WaitW(false)
    case (WaitR(_), OnReaders) => WaitR(false)
    case (WaitN(_), OnNames) => WaitN(false)
    case _ => pc
  }

  /** condition_broadcast */
  function Wake(pcs: seq<Pc>, c: Condition): (r: seq<Pc>)
  {
    seq(|pcs|, i requires 0 <= i < |pcs| => Woken(pcs[i], c))
  }

  predicate Asleep(pc: Pc)
  {
    pc in {Enter(true), WaitW(true), WaitR(true), WaitN(true)}
  }

  /** What a request does once its number has come up. */
  function Admit(st: State, i: nat, k: Kind): State
    requires i < |st.pcs|
  {
    match k
    case Init => Unlock(st.(live := true, refs := 1, returned := 0, names := 1), i, 0)
    case Terminate => TermR(st, i)
    case _ => Check(st, i, k)
  }

  /** pager_port_finish_read and pager_port_finish_write, up to the broadcast */
  function Finish(st: State, i: nat, k: Kind): State
    requires i < |st.pcs|
  {
    if k == Read then Set(st.(readers := st.readers - 1), i, if st.readers == 1 then Fin else Done)
    else Set(st.(writers := st.writers - 1), i, if st.writers == 1 then Fin else Done)
  }

  /** The next step of the handler of request i. */
  function Go(st: State, i: nat, k: Kind): State
    requires i < |st.pcs|
  {
    match st.pcs[i]
    case Enter(_) => if i != st.seqno then Set(st, i, Enter(true)) else Admit(st.(log := st.log + [i]), i, k)
    case Refs(d) => Begin(st.(returned := st.returned + d), i, k)
    case WaitW(_) => if k == Terminate then TermW(st, i) else Begin(st, i, k)
    case WaitR(_) => TermR(st, i)
    case WaitN(_) => TermN(st, i)
    case Bcast(n) =>
      Set(st.(pcs := Wake(st.pcs, OnSeqno)), i, if k == Init then Done else if k == Terminate then Return(n) else Busy)
    case Busy => Finish(st, i, k)
    case Fin => Set(st.(pcs := Wake(st.pcs, if k == Read then OnReaders else OnWriters)), i, Done)
    case Return(_) => Set(st, i, Done)
    case Done => st
  }

  predicate Enabled(reqs: seq<Kind>, st: State, step: Step)
  {
    match step
    case Receive => |st.pcs| < |reqs|
    case Run(i) => i < |st.pcs| <= |reqs| && !Asleep(st.pcs[i]) && st.pcs[i] != Done
    case Spurious(i) => i < |st.pcs| && Asleep(st.pcs[i])
    case NameStart => st.live && !st.naming
    case NameEnd => st.naming
  }

  function Next(reqs: seq<Kind>, st: State, step: Step): State
    requires Enabled(reqs, st, step)
  {
    match step
    case Receive => st.(pcs := st.pcs + [Enter(false)])
    case Run(i) => Go(st, i, reqs[i])
    case Spurious(i) => Set(st, i, Roused(st.pcs[i]))
    case NameStart => st.(names := st.names - 1, naming := st.names == 1)
    case NameEnd => st.(names := st.names + MAX, naming := false, pcs := Wake(st.pcs, OnNames))
  }

  function Roused(pc: Pc): Pc
  {
    match pc
    case Enter(_) => Enter(false)
    case WaitW(_) => WaitW(false)
    case WaitR(_) => WaitR(false)
    case WaitN(_) => WaitN(false)
    case _ => pc
  }

  // ----- what every step keeps -----

  predicate Started(pc: Pc)
  {
    pc.Bcast? || pc.Busy? || pc.Fin? || pc.Return? || pc.Done?
  }

  predicate Inside(pc: Pc)
  {
    pc.Refs? || pc.WaitW? || pc.WaitR? || pc.WaitN?
  }

  /** A read or write counted in readers or writers. */
  predicate Active(pc: Pc)
  {
    pc.Bcast? || pc.Busy?
  }

  predicate Data(k: Kind)
  {
    k == Read || k == Write
  }

  function Count(reqs: seq<Kind>, pcs: seq<Pc>, k: Kind): nat
    requires |pcs| <= |reqs|
  {
    if pcs == [] then 0 else
    var n := |pcs| - 1;
    Count(reqs, pcs[..n], k) + if reqs[n] == k && Active(pcs[n]) then 1 else 0
  }

  /** The handler of request i is where the sequence number allows. */
  predicate Placed(k: Kind, pc: Pc, i: nat, seqno: nat, readers: int, writers: int)
  {
    if i < seqno then
      && Started(pc) && (pc.Busy? || pc.Fin? ==> Data(k)) && (pc.Return? ==> k == Terminate)
    else if i > seqno then pc.Enter?
    else
      && !Started(pc) && (pc.Refs? ==> Data(k)) && (pc.WaitR? || pc.WaitN? ==> k == Terminate)
      && (pc.WaitW? ==> k == Read || (k == Terminate && readers == 0))
      && (pc.WaitN? ==> readers == 0 && writers == 0)
  }

  predicate PlacedAt(reqs: seq<Kind>, st: State, i: nat)
  {
    i < |st.pcs| <= |reqs| ==> Placed(reqs[i], st.pcs[i], i, st.seqno, st.readers, st.writers)
  }

  /** A read that has started comes after every earlier write. */
  predicate InOrder(reqs: seq<Kind>, st: State, i: nat, j: nat)
  {
    i < j < |st.pcs| <= |reqs| && reqs[i] == Write && reqs[j] == Read && Started(st.pcs[j]) ==> !Active(st.pcs[i])
  }

  predicate LastOne(reqs: seq<Kind>, st: State, k: Kind, j: nat)
  {
    j < |st.pcs| <= |reqs| && reqs[j] == k && st.pcs[j] == Fin
  }

  /** A sleeper has something to wait for, or its wake-up is under way. */
  ghost predicate Rousable(reqs: seq<Kind>, st: State)
  {
    var s := st.seqno;
    s < |st.pcs| ==>
      && (st.pcs[s] == Enter(true) ==> s > 0 && st.pcs[s - 1].Bcast?)
      && (st.pcs[s] == WaitW(true) ==> st.writers != 0 || exists j :: LastOne(reqs, st, Write, j))
      && (st.pcs[s] == WaitR(true) ==> st.readers != 0 || exists j :: LastOne(reqs, st, Read, j))
      && (st.pcs[s] == WaitN(true) ==> st.names == 0)
  }

  function Iota(n: nat): seq<nat>
  {
    seq(n, i => i)
  }

  predicate Within(st: State)
  {
    st.seqno < |st.pcs| && Inside(st.pcs[st.seqno])
  }

  /** References counted, in flight and returned make up those granted. */
  predicate Balanced(reqs: seq<Kind>, live0: bool, st: State)
    requires st.seqno <= |st.pcs| <= |reqs|
  {
    if !st.live then st.refs == 0 else
    && 1 <= st.refs <= MAX
    && var extra := if Within(st) && reqs[st.seqno] != Terminate then 1 else 0;
       var flying := if Within(st) && st.pcs[st.seqno].Refs? then st.pcs[st.seqno].excess else 0;
       st.refs + flying + st.returned == Granted(reqs, live0, st.seqno) + extra
  }

  predicate Named(st: State)
  {
    if st.live then st.names >= 0 && (st.names == 0 <==> st.naming) else st.names == 0 && !st.naming
  }

  ghost predicate Inv(reqs: seq<Kind>, live0: bool, st: State)
  {
    && st.seqno <= |st.pcs| <= |reqs|
    && st.live == LiveAt(reqs, live0, st.seqno)
    && (forall i :: PlacedAt(reqs, st, i))
    && st.readers == Count(reqs, st.pcs, Read) && st.writers == Count(reqs, st.pcs, Write)
    && (forall i, j :: InOrder(reqs, st, i, j))
    && Rousable(reqs, st)
    && st.log == Iota(st.seqno + if Within(st) then 1 else 0)
    && Balanced(reqs, live0, st) && Named(st)
  }

  // ----- counting -----

  lemma {:induction false} CountSet(reqs: seq<Kind>, pcs: seq<Pc>, k: Kind, i: nat, pc: Pc)
    requires i < |pcs| <= |reqs|
    ensures Count(reqs, pcs[i := pc], k) ==
            Count(reqs, pcs, k) +
            if reqs[i] != k || Active(pc) == Active(pcs[i]) then 0 else if Active(pc) then 1 else -1
  {
    var n := |pcs| - 1;
    if i < n {
      CountSet(reqs, pcs[..n], k, i, pc);
      assert pcs[i := pc][..n] == pcs[..n][i := pc];
    } else {
      assert pcs[i := pc][..n] == pcs[..n];
    }
  }

  lemma {:induction false} CountSame(reqs: seq<Kind>, pcs: seq<Pc>, pcs': seq<Pc>, k: Kind)
    requires |pcs| == |pcs'| <= |reqs|
    requires forall i :: 0 <= i < |pcs| && reqs[i] == k ==> Active(pcs'[i]) == Active(pcs[i])
    ensures Count(reqs, pcs', k) == Count(reqs, pcs, k)
  {
    if pcs != [] { CountSame(reqs, pcs[..|pcs| - 1], pcs'[..|pcs| - 1], k); }
  }

  lemma {:induction false} CountOne(reqs: seq<Kind>, pcs: seq<Pc>, k: Kind, i: nat)
    requires i < |pcs| <= |reqs| && reqs[i] == k && Active(pcs[i])
    ensures Count(reqs, pcs, k) >= 1
  {
    if i < |pcs| - 1 { CountOne(reqs, pcs[..|pcs| - 1], k, i); }
  }

  // ----- each kind of step keeps the invariant -----

  /** A step of a handler that stays before its unlock. */
  lemma {:induction false} Calm(reqs: seq<Kind>, live0: bool, st: State, st': State, i: nat, pc: Pc)
    requires Inv(reqs, live0, st) && i < |st.pcs| && !Started(st.pcs[i]) && !Started(pc)
    requires st'.pcs == st.pcs[i := pc] && st'.seqno == st.seqno && st'.live == st.live
    requires st'.readers == st.readers && st'.writers == st.writers
    requires Placed(reqs[i], pc, i, st.seqno, st.readers, st.writers) && Rousable(reqs, st')
    requires Balanced(reqs, live0, st') && Named(st')
    requires st'.log == Iota(st.seqno + if Within(st') then 1 else 0)
    ensures Inv(reqs, live0, st')
  {
    hide Rousable, Balanced, Named, Iota, Count, LiveAt;
    CountSet(reqs, st.pcs, Read, i, pc);
    CountSet(reqs, st.pcs, Write, i, pc);
    forall j: nat ensures PlacedAt(reqs, st', j) {
      assert PlacedAt(reqs, st, j);
    }
    forall j: nat, k: nat ensures InOrder(reqs, st', j, k) {
      assert InOrder(reqs, st, j, k);
    }
  }

  /** pager_port_unlock by the handler of the current request. */
  lemma {:induction false} Unlocked(reqs: seq<Kind>, live0: bool, st: State, st': State, n: nat)
    requires Inv(reqs, live0, st) && st.seqno < |st.pcs|
    requires st'.pcs == st.pcs[st.seqno := Bcast(n)] && st'.seqno == st.seqno + 1
    requires st'.readers == st.readers + if reqs[st.seqno] == Read then 1 else 0
    requires st'.writers == st.writers + if reqs[st.seqno] == Write then 1 else 0
    requires reqs[st.seqno] == Read ==> st.writers == 0
    requires st'.live == LiveAt(reqs, live0, st'.seqno)
    requires Balanced(reqs, live0, st') && Named(st') && st'.log == Iota(st'.seqno)
    ensures Inv(reqs, live0, st')
  {
    hide Balanced, Named, Iota, Count, LiveAt;
    var i := st.seqno;
    assert PlacedAt(reqs, st, i);
    CountSet(reqs, st.pcs, Read, i, Bcast(n));
    CountSet(reqs, st.pcs, Write, i, Bcast(n));
    forall j: nat ensures PlacedAt(reqs, st', j) {
      assert PlacedAt(reqs, st, j);
    }
    forall j: nat, k: nat ensures InOrder(reqs, st', j, k) {
      assert InOrder(reqs, st, j, k) && PlacedAt(reqs, st, k);
      if k == i == st.seqno && j < i && reqs[i] == Read && reqs[j] == Write && Active(st.pcs[j]) {
        CountOne(reqs, st.pcs, Write, j);
        assert false;
      }
    }
    assert PlacedAt(reqs, st, i + 1);
  }

  /** Handlers that are woken, and the step of a handler after its unlock that leaves the counts. */
  lemma {:induction false} After(reqs: seq<Kind>, live0: bool, st: State, st': State)
    requires Inv(reqs, live0, st) && |st'.pcs| == |st.pcs| && st' == st.(pcs := st'.pcs)
    requires forall j :: 0 <= j < |st.pcs| ==> Moved(reqs[j], st.pcs[j], st'.pcs[j])
    requires Rousable(reqs, st')
    ensures Inv(reqs, live0, st')
  {
    hide Rousable, Iota, Count, LiveAt, Granted;
    CountSame(reqs, st.pcs, st'.pcs, Read);
    CountSame(reqs, st.pcs, st'.pcs, Write);
    forall j: nat ensures PlacedAt(reqs, st', j) {
      assert PlacedAt(reqs, st, j);
    }
    forall j: nat, k: nat ensures InOrder(reqs, st', j, k) {
      assert InOrder(reqs, st, j, k);
    }
  }

  /** From pc to pc' without being admitted or starting or finishing. */
  predicate Moved(k: Kind, pc: Pc, pc': Pc)
  {
    || pc' == pc || (pc.Enter? && pc'.Enter?) || (pc.WaitW? && pc'.WaitW?)
    || (pc.WaitR? && pc'.WaitR?) || (pc.WaitN? && pc'.WaitN?)
    || (pc.Bcast? && pc' == if k == Init then Done else if k == Terminate then Return(pc.refs) else Busy)
    || (pc.Fin? && pc'.Done?) || (pc.Return? && pc'.Done?)
  }

  lemma {:induction false} Finished(reqs: seq<Kind>, live0: bool, st: State, i: nat)
    requires Inv(reqs, live0, st) && i < |st.pcs| && st.pcs[i] == Busy
    ensures Inv(reqs, live0, Finish(st, i, reqs[i]))
  {
    hide Iota, LiveAt, Granted, Count;
    assert PlacedAt(reqs, st, i);
    var st' := Finish(st, i, reqs[i]);
    var pc := st'.pcs[i];
    CountOne(reqs, st.pcs, reqs[i], i);
    CountSet(reqs, st.pcs, Read, i, pc);
    CountSet(reqs, st.pcs, Write, i, pc);
    forall j: nat ensures PlacedAt(reqs, st', j) {
      assert PlacedAt(reqs, st, j);
    }
    forall j: nat, k: nat ensures InOrder(reqs, st', j, k) {
      assert InOrder(reqs, st, j, k);
    }
    assert pc == Fin ==> LastOne(reqs, st', reqs[i], i);
    StillRousable(reqs, st, st', i);
  }

  lemma {:induction false} StillRousable(reqs: seq<Kind>, st: State, st': State, i: nat)
    requires Rousable(reqs, st) && i < st.seqno <= |st.pcs| == |st'.pcs| <= |reqs|
    requires st' == st.(readers := st'.readers, writers := st'.writers, pcs := st.pcs[i := st'.pcs[i]])
    requires st.pcs[i] == Busy && !Active(st'.pcs[i])
    requires st'.writers == 0 ==> st.writers == 0 || LastOne(reqs, st', Write, i)
    requires st'.readers == 0 ==> st.readers == 0 || LastOne(reqs, st', Read, i)
    ensures Rousable(reqs, st')
  {
    forall k, j | LastOne(reqs, st, k, j) ensures LastOne(reqs, st', k, j) {
    }
  }

  /** A request that has just been admitted, or that goes on inside. */
  lemma {:induction false} BeginKeeps(reqs: seq<Kind>, live0: bool, st: State, st1: State)
    requires Inv(reqs, live0, st) && st.seqno < |st.pcs| && Data(reqs[st.seqno]) && st.live
    requires st1 == st.(refs := st1.refs, returned := st1.returned, log := st1.log)
    requires st1.log == Iota(st.seqno + 1) && 1 <= st1.refs <= MAX
    requires st1.refs + st1.returned == Granted(reqs, live0, st.seqno) + 1
    ensures Inv(reqs, live0, Begin(st1, st.seqno, reqs[st.seqno]))
  {
    hide Iota, Count;
    var i := st.seqno;
    assert PlacedAt(reqs, st, i);
    var st' := Begin(st1, i, reqs[i]);
    if st'.seqno == st.seqno {
      Calm(reqs, live0, st, st', i, WaitW(true));
    } else {
      assert PlacedAt(reqs, st, i + 1);
      Unlocked(reqs, live0, st, st', 0);
    }
  }

  lemma {:induction false} TermNKeeps(reqs: seq<Kind>, live0: bool, st: State, st1: State)
    requires Inv(reqs, live0, st) && st.seqno < |st.pcs| && reqs[st.seqno] == Terminate && st.live
    requires st1 == st.(log := st1.log) && st1.log == Iota(st.seqno + 1)
    requires st.readers == 0 && st.writers == 0
    ensures Inv(reqs, live0, TermN(st1, st.seqno))
  {
    hide Iota, Count;
    var i := st.seqno;
    assert PlacedAt(reqs, st, i);
    var st' := TermN(st1, i);
    if st'.seqno == st.seqno {
      Calm(reqs, live0, st, st', i, WaitN(true));
    } else {
      assert PlacedAt(reqs, st, i + 1);
      Unlocked(reqs, live0, st, st', st.refs);
    }
  }

  lemma {:induction false} TermWKeeps(reqs: seq<Kind>, live0: bool, st: State, st1: State)
    requires Inv(reqs, live0, st) && st.seqno < |st.pcs| && reqs[st.seqno] == Terminate && st.live
    requires st1 == st.(log := st1.log) && st1.log == Iota(st.seqno + 1)
    requires st.readers == 0
    ensures Inv(reqs, live0, TermW(st1, st.seqno))
  {
    hide Iota, Count;
    var i := st.seqno;
    assert PlacedAt(reqs, st, i);
    if st.writers != 0 {
      Calm(reqs, live0, st, TermW(st1, i), i, WaitW(true));
    } else {
      TermNKeeps(reqs, live0, st, st1);
    }
  }

  lemma {:induction false} TermRKeeps(reqs: seq<Kind>, live0: bool, st: State, st1: State)
    requires Inv(reqs, live0, st) && st.seqno < |st.pcs| && reqs[st.seqno] == Terminate && st.live
    requires st1 == st.(log := st1.log) && st1.log == Iota(st.seqno + 1)
    ensures Inv(reqs, live0, TermR(st1, st.seqno))
  {
    hide Iota, Count;
    var i := st.seqno;
    assert PlacedAt(reqs, st, i);
    if st.readers != 0 {
      Calm(reqs, live0, st, TermR(st1, i), i, WaitR(true));
    } else {
      TermWKeeps(reqs, live0, st, st1);
    }
  }

  lemma {:induction false} InitKeeps(reqs: seq<Kind>, live0: bool, st: State, st1: State)
    requires Inv(reqs, live0, st) && st.seqno < |st.pcs| && reqs[st.seqno] == Init && !st.live
    requires st1 == st.(log := st1.log) && st1.log == Iota(st.seqno + 1)
    ensures Inv(reqs, live0, Admit(st1, st.seqno, Init))
  {
    hide Iota, Count;
    assert PlacedAt(reqs, st, st.seqno + 1);
    Unlocked(reqs, live0, st, Admit(st1, st.seqno, Init), 0);
  }

  lemma {:induction false} CheckKeeps(reqs: seq<Kind>, live0: bool, st: State, st1: State)
    requires Inv(reqs, live0, st) && st.seqno < |st.pcs| && Data(reqs[st.seqno]) && st.live
    requires st.pcs[st.seqno].Enter? && st1 == st.(log := st1.log) && st1.log == Iota(st.seqno + 1)
    ensures Inv(reqs, live0, Check(st1, st.seqno, reqs[st.seqno]))
  {
    hide Iota, Count, Begin;
    var i := st.seqno;
    if st.refs + 1 > MAX {
      Calm(reqs, live0, st, Check(st1, i, reqs[i]), i, Refs(st.refs));
    } else {
      BeginKeeps(reqs, live0, st, st1.(refs := st.refs + 1));
    }
  }

  /** A handler whose number has come up. */
  lemma {:induction false} AdmitKeeps(reqs: seq<Kind>, live0: bool, st: State, st1: State)
    requires WellFormed(reqs, live0) && Inv(reqs, live0, st)
    requires st.seqno < |st.pcs| && st.pcs[st.seqno].Enter?
    requires st1 == st.(log := st1.log) && st1.log == Iota(st.seqno + 1)
    ensures Inv(reqs, live0, Admit(st1, st.seqno, reqs[st.seqno]))
  {
    hide Iota, Count, Check, TermR;
    if reqs[st.seqno] == Init {
      InitKeeps(reqs, live0, st, st1);
    } else if reqs[st.seqno] == Terminate {
      TermRKeeps(reqs, live0, st, st1);
    } else {
      CheckKeeps(reqs, live0, st, st1);
    }
  }

  /** The handler of the current request, once admitted. */
  lemma {:induction false} InsideKeeps(reqs: seq<Kind>, live0: bool, st: State)
    requires WellFormed(reqs, live0) && Inv(reqs, live0, st) && Within(st)
    ensures Inv(reqs, live0, Go(st, st.seqno, reqs[st.seqno]))
  {
    hide Iota, Count, Begin, TermR, TermW, TermN;
    var i := st.seqno;
    assert PlacedAt(reqs, st, i);
    match st.pcs[i] {
      case Refs(d) => BeginKeeps(reqs, live0, st, st.(returned := st.returned + d));
      case WaitW(_) =>
        if reqs[i] == Terminate { TermWKeeps(reqs, live0, st, st); } else { BeginKeeps(reqs, live0, st, st); }
      case WaitR(_) => TermRKeeps(reqs, live0, st, st);
      case WaitN(_) => TermNKeeps(reqs, live0, st, st);
    }
  }

  /** Sleepers other than those woken keep what they wait for. */
  lemma {:induction false} RousableKept(reqs: seq<Kind>, st: State, st': State)
    requires Rousable(reqs, st) && st.seqno <= |st.pcs| == |st'.pcs| <= |reqs| && st' == st.(pcs := st'.pcs)
    requires st.seqno < |st.pcs| && Asleep(st'.pcs[st.seqno]) ==> st'.pcs[st.seqno] == st.pcs[st.seqno]
    requires 0 < st.seqno < |st.pcs| && st'.pcs[st.seqno] == Enter(true) && st.pcs[st.seqno - 1].Bcast? ==>
      st'.pcs[st.seqno - 1].Bcast?
    requires st.seqno < |st.pcs| && st'.pcs[st.seqno].WaitW? && Asleep(st'.pcs[st.seqno]) ==>
      forall j :: 0 <= j < |st.pcs| && st.pcs[j] == Fin && reqs[j] == Write ==> st'.pcs[j] == Fin
    requires st.seqno < |st.pcs| && st'.pcs[st.seqno].WaitR? && Asleep(st'.pcs[st.seqno]) ==>
      forall j :: 0 <= j < |st.pcs| && st.pcs[j] == Fin && reqs[j] == Read ==> st'.pcs[j] == Fin
    ensures Rousable(reqs, st')
  {
    if st.seqno < |st.pcs| {
      if st'.pcs[st.seqno] == WaitW(true) && st.writers == 0 {
        var j: nat :| LastOne(reqs, st, Write, j);
        assert LastOne(reqs, st', Write, j);
      }
      if st'.pcs[st.seqno] == WaitR(true) && st.readers == 0 {
        var j: nat :| LastOne(reqs, st, Read, j);
        assert LastOne(reqs, st', Read, j);
      }
    }
  }

  // A handler after its unlock.

  lemma {:induction false} BcastKeeps(reqs: seq<Kind>, live0: bool, st: State, i: nat)
    requires Inv(reqs, live0, st) && i < |st.pcs| && st.pcs[i].Bcast?
    ensures Inv(reqs, live0, Go(st, i, reqs[i]))
  {
    hide Iota, Count, Granted, LiveAt, Rousable, Balanced, Named, InOrder;
    assert PlacedAt(reqs, st, i);
    var st' := Go(st, i, reqs[i]);
    RousableKept(reqs, st, st');
    After(reqs, live0, st, st');
  }

  lemma {:induction false} FinKeeps(reqs: seq<Kind>, live0: bool, st: State, i: nat)
    requires Inv(reqs, live0, st) && i < |st.pcs| && st.pcs[i].Fin?
    ensures Inv(reqs, live0, Go(st, i, reqs[i]))
  {
    hide Iota, Count, Granted, LiveAt, Rousable, Balanced, Named, InOrder;
    assert PlacedAt(reqs, st, i);
    var st' := Go(st, i, reqs[i]);
    RousableKept(reqs, st, st');
    After(reqs, live0, st, st');
  }

  lemma {:induction false} ReturnKeeps(reqs: seq<Kind>, live0: bool, st: State, i: nat)
    requires Inv(reqs, live0, st) && i < |st.pcs| && st.pcs[i].Return?
    ensures Inv(reqs, live0, Go(st, i, reqs[i]))
  {
    hide Iota, Count, Granted, LiveAt, Rousable, Balanced, Named, InOrder;
    assert PlacedAt(reqs, st, i);
    var st' := Go(st, i, reqs[i]);
    RousableKept(reqs, st, st');
    After(reqs, live0, st, st');
  }

  lemma {:induction false} EnterPlaced(k: Kind, i: nat, st: State)
    requires i >= st.seqno
    ensures Placed(k, Enter(false), i, st.seqno, st.readers, st.writers)
  {
  }

  lemma {:induction false} ReceiveKeeps(reqs: seq<Kind>, live0: bool, st: State)
    requires Inv(reqs, live0, st) && |st.pcs| < |reqs|
    ensures Inv(reqs, live0, Next(reqs, st, Receive))
  {
    hide Granted, LiveAt, Iota, Placed;
    var st' := Next(reqs, st, Receive);
    assert st'.pcs[..|st.pcs|] == st.pcs;
    EnterPlaced(reqs[|st.pcs|], |st.pcs|, st);
    forall j: nat ensures PlacedAt(reqs, st', j) {
      assert PlacedAt(reqs, st, j);
    }
    forall j: nat, k: nat ensures InOrder(reqs, st', j, k) {
      assert InOrder(reqs, st, j, k);
    }
    forall k, j | LastOne(reqs, st, k, j) ensures LastOne(reqs, st', k, j) {
    }
  }

  lemma {:induction false} NameKeeps(reqs: seq<Kind>, live0: bool, st: State, step: Step)
    requires Inv(reqs, live0, st) && Enabled(reqs, st, step) && (step == NameStart || step == NameEnd)
    ensures Inv(reqs, live0, Next(reqs, st, step))
  {
    hide Count, Granted, LiveAt, Iota;
    var st1 := st.(pcs := Next(reqs, st, step).pcs);
    RousableKept(reqs, st, st1);
    After(reqs, live0, st, st1);
    var st' := Next(reqs, st, step);
    forall j: nat ensures PlacedAt(reqs, st', j) {
      assert PlacedAt(reqs, st1, j);
    }
    forall j: nat, k: nat ensures InOrder(reqs, st', j, k) {
      assert InOrder(reqs, st1, j, k);
    }
    forall k, j | LastOne(reqs, st1, k, j) ensures LastOne(reqs, st', k, j) {
    }
  }

  /** Every step keeps the invariant. */
  lemma {:induction false} StepKeeps(reqs: seq<Kind>, live0: bool, st: State, step: Step)
    requires WellFormed(reqs, live0) && Inv(reqs, live0, st) && Enabled(reqs, st, step)
    ensures Inv(reqs, live0, Next(reqs, st, step))
  {
    hide Count, Granted, LiveAt, Rousable, Balanced, Named;
    match step {
      case Run(i) =>
        assert PlacedAt(reqs, st, i);
        if st.pcs[i].Bcast? {
          BcastKeeps(reqs, live0, st, i);
        } else if st.pcs[i].Busy? {
          Finished(reqs, live0, st, i);
        } else if st.pcs[i].Fin? {
          FinKeeps(reqs, live0, st, i);
        } else if st.pcs[i].Return? {
          ReturnKeeps(reqs, live0, st, i);
        } else if i != st.seqno {
          RousableKept(reqs, st, Next(reqs, st, step));
          After(reqs, live0, st, Next(reqs, st, step));
        } else if st.pcs[i].Enter? {
          AdmitKeeps(reqs, live0, st, st.(log := st.log + [i]));
        } else {
          InsideKeeps(reqs, live0, st);
        }
      case Receive => ReceiveKeeps(reqs, live0, st);
      case Spurious(i) =>
        RousableKept(reqs, st, Next(reqs, st, step));
        After(reqs, live0, st, Next(reqs, st, step));
      case _ => NameKeeps(reqs, live0, st, step);
    }
  }

  // ----- every run -----

  /** The state after a run; a step that is not enabled does nothing. */
  function Exec(reqs: seq<Kind>, live0: bool, steps: seq<Step>): State
  {
    if steps == [] then Start(live0) else
    var st := Exec(reqs, live0, steps[..|steps| - 1]);
    if Enabled(reqs, st, steps[|steps| - 1]) then Next(reqs, st, steps[|steps| - 1]) else st
  }

  lemma {:induction false} Reachable(reqs: seq<Kind>, live0: bool, steps: seq<Step>)
    requires WellFormed(reqs, live0)
    ensures Inv(reqs, live0, Exec(reqs, live0, steps))
  {
    hide Next, Enabled;
    if steps != [] {
      Reachable(reqs, live0, steps[..|steps| - 1]);
      var st := Exec(reqs, live0, steps[..|steps| - 1]);
      if Enabled(reqs, st, steps[|steps| - 1]) { StepKeeps(reqs, live0, st, steps[|steps| - 1]); }
    }
  }

  /** Requests are admitted once each, in the order of their numbers. */
  lemma {:induction false} AdmittedInOrder(reqs: seq<Kind>, live0: bool, steps: seq<Step>)
    requires WellFormed(reqs, live0)
    ensures var st := Exec(reqs, live0, steps);
            forall n :: 0 <= n < |st.log| ==> st.log[n] == n
  {
    hide Exec;
    Reachable(reqs, live0, steps);
  }

  /** Init finds no request port and every other request finds one, so that none panics. */
  lemma {:induction false} PortsMatch(reqs: seq<Kind>, live0: bool, steps: seq<Step>)
    requires WellFormed(reqs, live0) && Exec(reqs, live0, steps).seqno < |reqs|
    ensures var st := Exec(reqs, live0, steps); reqs[st.seqno] == Init <==> !st.live
  {
    hide Exec;
    Reachable(reqs, live0, steps);
  }

  /** A data_request reads only after every earlier data_write and data_initialize has finished. */
  lemma {:induction false} ReadsFollowWrites(reqs: seq<Kind>, live0: bool, steps: seq<Step>, i: nat, j: nat)
    requires WellFormed(reqs, live0)
    requires var st := Exec(reqs, live0, steps);
      i < j < |st.pcs| <= |reqs| && reqs[i] == Write && reqs[j] == Read && Started(st.pcs[j])
    ensures Exec(reqs, live0, steps).pcs[i] in {Fin, Done}
  {
    hide Exec;
    Reachable(reqs, live0, steps);
    var st := Exec(reqs, live0, steps);
    assert InOrder(reqs, st, i, j) && PlacedAt(reqs, st, i) && PlacedAt(reqs, st, j);
  }

  /** When terminate clears the ports no read or write is in progress, and it gives back exactly the
      references that are held. */
  lemma {:induction false} TerminateClears(reqs: seq<Kind>, live0: bool, steps: seq<Step>, step: Step)
    requires WellFormed(reqs, live0)
    requires var st := Exec(reqs, live0, steps);
      Enabled(reqs, st, step) && st.live && !Next(reqs, st, step).live
    ensures var st := Exec(reqs, live0, steps);
      && step.Run? && step.i == st.seqno < |reqs| && reqs[step.i] == Terminate
      && (forall j :: 0 <= j < |st.pcs| && Data(reqs[j]) ==> !Active(st.pcs[j]))
      && Next(reqs, st, step).pcs[step.i] == Bcast(st.refs)
      && st.refs + st.returned == Granted(reqs, live0, step.i)
  {
    hide Exec, Inv;
    Reachable(reqs, live0, steps);
    Cleared(reqs, live0, Exec(reqs, live0, steps), step);
  }

  lemma {:induction false} Cleared(reqs: seq<Kind>, live0: bool, st: State, step: Step)
    requires Inv(reqs, live0, st) && Enabled(reqs, st, step) && st.live && !Next(reqs, st, step).live
    ensures step.Run? && step.i == st.seqno < |reqs| && reqs[step.i] == Terminate
    ensures forall j :: 0 <= j < |st.pcs| <= |reqs| && Data(reqs[j]) ==> !Active(st.pcs[j])
    ensures Next(reqs, st, step).pcs[step.i] == Bcast(st.refs) && st.refs + st.returned == Granted(reqs, live0, step.i)
  {
    hide Iota, Count, Granted, LiveAt, Rousable, Named;
    assert PlacedAt(reqs, st, step.i);
    forall j: nat | j < |st.pcs| && Data(reqs[j]) ensures !Active(st.pcs[j]) {
      if Active(st.pcs[j]) {
        CountOne(reqs, st.pcs, reqs[j], j);
        assert false;
      }
    }
  }

  /** A read or write that is admitted stops to give references back if and only if MAX of them are held,
      and then gives back all of those and keeps the one it has brought. */
  lemma {:induction false} GivesBackIff(reqs: seq<Kind>, live0: bool, steps: seq<Step>, i: nat)
    requires WellFormed(reqs, live0)
    requires var st := Exec(reqs, live0, steps);
      Enabled(reqs, st, Run(i)) && i == st.seqno && st.pcs[i].Enter? && Data(reqs[i])
    ensures var st := Exec(reqs, live0, steps); var st' := Next(reqs, st, Run(i));
      && i < |st'.pcs| && (st'.pcs[i].Refs? <==> st.refs == MAX)
      && (st.refs == MAX ==> st'.pcs[i] == Refs(MAX) && st'.refs == 1) && (st.refs < MAX ==> st'.refs == st.refs + 1)
  {
    hide Exec, Count, Granted, LiveAt, Rousable, Named, InOrder, PlacedAt;
    Reachable(reqs, live0, steps);
    var st := Exec(reqs, live0, steps);
    assert st.live by { PortHere(reqs, live0, st); }
  }

  lemma {:induction false} PortHere(reqs: seq<Kind>, live0: bool, st: State)
    requires WellFormed(reqs, live0) && Inv(reqs, live0, st) && st.seqno < |reqs| && reqs[st.seqno] != Init
    ensures st.live
  {
    hide Count, Granted, Rousable, Named, InOrder, PlacedAt;
  }

  // ----- no deadlock and no livelock -----

  predicate HandlerStep(step: Step)
  {
    step.Run? || step == NameEnd
  }

  /** In every reachable state in which a received request is unfinished, a handler can go on, or
      default_pager_objects can. */
  lemma {:induction false} NoDeadlock(reqs: seq<Kind>, live0: bool, steps: seq<Step>) returns (step: Step)
    requires WellFormed(reqs, live0)
    requires var st := Exec(reqs, live0, steps);
      exists i :: 0 <= i < |st.pcs| && st.pcs[i] != Done
    ensures HandlerStep(step) && Enabled(reqs, Exec(reqs, live0, steps), step)
  {
    hide Exec, Inv, Enabled;
    Reachable(reqs, live0, steps);
    step := CanStep(reqs, live0, Exec(reqs, live0, steps));
  }

  lemma {:induction false} CanStep(reqs: seq<Kind>, live0: bool, st: State) returns (step: Step)
    requires WellFormed(reqs, live0) && Inv(reqs, live0, st) && exists i :: 0 <= i < |st.pcs| && st.pcs[i] != Done
    ensures HandlerStep(step) && Enabled(reqs, st, step)
  {
    hide Iota, Granted, Count, LiveAt;
    var i: nat :| i < |st.pcs| && st.pcs[i] != Done;
    if j: nat :| j < |st.pcs| && st.pcs[j] != Done && !Asleep(st.pcs[j]) {
      step := Run(j);
    } else {
      assert PlacedAt(reqs, st, i) && PlacedAt(reqs, st, st.seqno);
      IdleCounts(reqs, st.pcs, Read);
      IdleCounts(reqs, st.pcs, Write);
      assert st.pcs[st.seqno] == WaitN(true);
      step := NameEnd;
    }
  }

  lemma {:induction false} IdleCounts(reqs: seq<Kind>, pcs: seq<Pc>, k: Kind)
    requires |pcs| <= |reqs| && forall i :: 0 <= i < |pcs| && reqs[i] == k ==> !Active(pcs[i])
    ensures Count(reqs, pcs, k) == 0
  {
    if pcs != [] { IdleCounts(reqs, pcs[..|pcs| - 1], k); }
  }

  function Rank(pc: Pc): nat
  {
    match pc
    case Enter(_) => 8
    case Refs(_) => 7
    case WaitR(_) => 6
    case WaitW(_) => 5
    case WaitN(_) => 4
    case Bcast(_) => 3
    case Busy => 2
    case Fin => 1
    case Return(_) => 1
    case Done => 0
  }

  predicate Awake(pc: Pc)
  {
    pc in {Enter(false), WaitW(false), WaitR(false), WaitN(false)}
  }

  function Ranks(pcs: seq<Pc>): nat
  {
    if pcs == [] then 0 else Ranks(pcs[..|pcs| - 1]) + Rank(pcs[|pcs| - 1])
  }

  function Awakes(pcs: seq<Pc>): (n: nat)
    ensures n <= |pcs|
  {
    if pcs == [] then 0 else Awakes(pcs[..|pcs| - 1]) + if Awake(pcs[|pcs| - 1]) then 1 else 0
  }

  lemma {:induction false} RanksSet(pcs: seq<Pc>, i: nat, pc: Pc)
    requires i < |pcs|
    ensures Ranks(pcs[i := pc]) == Ranks(pcs) - Rank(pcs[i]) + Rank(pc)
    ensures Awakes(pcs[i := pc]) ==
            Awakes(pcs) - (if Awake(pcs[i]) then 1 else 0) + (if Awake(pc) then 1 else 0)
  {
    var n := |pcs| - 1;
    if i < n {
      RanksSet(pcs[..n], i, pc);
      assert pcs[i := pc][..n] == pcs[..n][i := pc];
    } else {
      assert pcs[i := pc][..n] == pcs[..n];
    }
  }

  lemma {:induction false} RanksWake(pcs: seq<Pc>, c: Condition)
    ensures |Wake(pcs, c)| == |pcs| && Ranks(Wake(pcs, c)) == Ranks(pcs)
    ensures forall i :: 0 <= i < |pcs| && !pcs[i].Enter? && !Inside(pcs[i]) ==> Wake(pcs, c)[i] == pcs[i]
  {
    if pcs != [] {
      var n := |pcs| - 1;
      RanksWake(pcs[..n], c);
      assert Wake(pcs, c)[..n] == Wake(pcs[..n], c);
    }
  }

  function Pending(st: State): nat
  {
    Ranks(st.pcs) + if st.naming then 1 else 0
  }

  /** A bound on the steps the requests received so far can still take. */
  function Measure(st: State): nat
  {
    Pending(st) * (|st.pcs| + 1) + Awakes(st.pcs)
  }

  /** A handler step advances some request, or puts one that was awake to sleep. */
  lemma {:induction false} StepAdvances(reqs: seq<Kind>, st: State, step: Step)
    requires Enabled(reqs, st, step) && HandlerStep(step)
    ensures var st' := Next(reqs, st, step);
      && |st'.pcs| == |st.pcs|
      && (Pending(st') < Pending(st) || (Pending(st') == Pending(st) && Awakes(st'.pcs) < Awakes(st.pcs)))
  {
    hide Ranks, Awakes, Wake, Go;
    var st' := Next(reqs, st, step);
    match step {
      case Run(i) =>
        if st.pcs[i].Bcast? || st.pcs[i].Fin? {
          WakerAdvances(st, i, reqs[i]);
        } else {
          QuietStep(st, i, reqs[i]);
          RanksSet(st.pcs, i, st'.pcs[i]);
        }
      case NameEnd => RanksWake(st.pcs, OnNames);
    }
  }

  lemma {:induction false} QuietStep(st: State, i: nat, k: Kind)
    requires i < |st.pcs| && !Asleep(st.pcs[i]) && st.pcs[i] != Done && !st.pcs[i].Bcast? && st.pcs[i] != Fin
    ensures var st' := Go(st, i, k);
      && |st'.pcs| == |st.pcs| && st'.pcs == st.pcs[i := st'.pcs[i]] && st'.naming == st.naming
      && (Rank(st'.pcs[i]) < Rank(st.pcs[i]) ||
          (Rank(st'.pcs[i]) == Rank(st.pcs[i]) && Awake(st.pcs[i]) && !Awake(st'.pcs[i])))
  {
    var st' := Go(st, i, k);
    assert forall j :: 0 <= j < |st.pcs| && j != i ==> st'.pcs[j] == st.pcs[j];
  }

  lemma {:induction false} WakerAdvances(st: State, i: nat, k: Kind)
    requires i < |st.pcs| && (st.pcs[i].Bcast? || st.pcs[i] == Fin)
    ensures var st' := Go(st, i, k); |st'.pcs| == |st.pcs| && Pending(st') < Pending(st)
  {
    hide Ranks, Awakes, Wake;
    var st' := Go(st, i, k);
    var c := if st.pcs[i].Bcast? then OnSeqno else if k == Read then OnReaders else OnWriters;
    RanksWake(st.pcs, c);
    RanksSet(Wake(st.pcs, c), i, st'.pcs[i]);
  }

  lemma {:induction false} MeasureFalls(reqs: seq<Kind>, st: State, step: Step)
    requires Enabled(reqs, st, step) && HandlerStep(step)
    ensures Measure(Next(reqs, st, step)) < Measure(st)
  {
    hide Next, Enabled, Pending;
    StepAdvances(reqs, st, step);
    var st', n := Next(reqs, st, step), |st.pcs| + 1;
    if Pending(st') < Pending(st) {
      MulMono(Pending(st') + 1, Pending(st), n);
      assert (Pending(st') + 1) * n == Pending(st') * n + n;
    }
  }

  lemma {:induction false} MulMono(a: nat, b: nat, n: nat)
    requires a <= b
    ensures a * n <= b * n
  {
  }

  /** A run of handler steps, each enabled. */
  predicate HandlerRun(reqs: seq<Kind>, st: State, steps: seq<Step>)
    decreases |steps|
  {
    steps == [] ||
    (HandlerStep(steps[0]) && Enabled(reqs, st, steps[0]) && HandlerRun(reqs, Next(reqs, st, steps[0]), steps[1..]))
  }

  /** Without new requests every run of the handlers comes to an end: with NoDeadlock, with all
      requests finished. */
  lemma {:induction false} RunsEnd(reqs: seq<Kind>, st: State, steps: seq<Step>)
    requires HandlerRun(reqs, st, steps)
    ensures |steps| <= Measure(st)
    decreases |steps|
  {
    hide Next, Measure;
    if steps != [] {
      MeasureFalls(reqs, st, steps[0]);
      RunsEnd(reqs, Next(reqs, st, steps[0]), steps[1..]);
    }
  }

  function RunFrom(reqs: seq<Kind>, st: State, steps: seq<Step>): State
    requires HandlerRun(reqs, st, steps)
    decreases |steps|
  {
    if steps == [] then st else RunFrom(reqs, Next(reqs, st, steps[0]), steps[1..])
  }

  /** When no handler can go on, every request that was received is finished. */
  lemma {:induction false} MaximalRunsFinish(reqs: seq<Kind>, live0: bool, st: State, steps: seq<Step>)
    requires WellFormed(reqs, live0) && Inv(reqs, live0, st) && HandlerRun(reqs, st, steps)
    requires forall step :: HandlerStep(step) ==> !Enabled(reqs, RunFrom(reqs, st, steps), step)
    ensures var st' := RunFrom(reqs, st, steps);
            |st'.pcs| == |st.pcs| && forall i :: 0 <= i < |st'.pcs| ==> st'.pcs[i] == Done
    decreases |steps|
  {
    hide Inv, Next, Enabled;
    if steps == [] {
      if i :| 0 <= i < |st.pcs| && st.pcs[i] != Done {
        var step := CanStep(reqs, live0, st);
        assert false;
      }
    } else {
      StepKeeps(reqs, live0, st, steps[0]);
      StepAdvances(reqs, st, steps[0]);
      MaximalRunsFinish(reqs, live0, Next(reqs, st, steps[0]), steps[1..]);
    }
  }
}
