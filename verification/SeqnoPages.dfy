/** What a data_request returns, in every interleaving: the protocol of Seqno together with the
    moments at which each data_write changes its page, each data_request reads it, and a data_request
    for writing then releases it. Writes of one object run in parallel, and so do reads. */
module SeqnoPages {
  import opened Seqno

  /** A list of requests, with the page each is for and whether a read is for writing. */
  datatype Work = Work(reqs: seq<Kind>, live0: bool, pages: seq<nat>, grabs: seq<bool>) {
    ghost predicate Valid()
    {
      WellFormed(reqs, live0) && |pages| == |grabs| == |reqs|
    }

    predicate On(i: nat, p: nat)
    {
      i < |pages| && pages[i] == p
    }

    predicate Writes(i: nat, p: nat)
    {
      i < |reqs| && reqs[i] == Write && On(i, p)
    }

    /** A read for writing, which releases the page. */
    predicate Releases(i: nat, p: nat)
    {
      i < |reqs| && i < |grabs| && reqs[i] == Read && grabs[i] && On(i, p)
    }
  }

  datatype Effect = Wrote(i: nat) | Looked(i: nat) | Dropped(i: nat)

  /** What a page holds: the data of a write, or nothing. */
  datatype Content = Nothing | By(i: nat)

  /** What page p holds after these effects. */
  function Holds(wk: Work, fx: seq<Effect>, p: nat): Content
  {
    if fx == [] then Nothing else
    var n := |fx| - 1;
    if fx[n].Wrote? && wk.On(fx[n].i, p) then By(fx[n].i)
    else if fx[n].Dropped? && wk.On(fx[n].i, p) then Nothing
    else Holds(wk, fx[..n], p)
  }

  /** The state of the protocol, and the effects so far in their order. */
  datatype Joint = Joint(st: State, fx: seq<Effect>)

  datatype JStep = Proto(step: Step) | Act(i: nat)

  /** What request i does next: a read for writing releases the page if it has found one. */
  datatype Task = Nil | Do(e: Effect)

  predicate Found(wk: Work, fx: seq<Effect>, i: nat)
  {
    i < |wk.pages| && exists a :: 0 <= a < |fx| && fx[a] == Looked(i) && Holds(wk, fx[..a], wk.pages[i]) != Nothing
  }

  function Todo(wk: Work, fx: seq<Effect>, i: nat): Task
    requires i < |wk.reqs|
  {
    if wk.reqs[i] == Write then (if Wrote(i) in fx then Nil else Do(Wrote(i)))
    else if Looked(i) !in fx then Do(Looked(i))
    else if i < |wk.pages| && wk.Releases(i, wk.pages[i]) && Found(wk, fx, i) && Dropped(i) !in fx then Do(Dropped(i))
    else Nil
  }

  /** A handler finishes only after its effects. */
  predicate JEnabled(wk: Work, js: Joint, s: JStep)
  {
    match s
    case Proto(step) =>
      && Enabled(wk.reqs, js.st, step)
      && (step.Run? && js.st.pcs[step.i] == Busy ==> Todo(wk, js.fx, step.i) == Nil)
    case Act(i) => i < |js.st.pcs| <= |wk.reqs| && js.st.pcs[i] == Busy && Data(wk.reqs[i]) && Todo(wk, js.fx, i).Do?
  }

  function JNext(wk: Work, js: Joint, s: JStep): Joint
    requires JEnabled(wk, js, s)
  {
    match s
    case Proto(step) => js.(st := Next(wk.reqs, js.st, step))
    case Act(i) => js.(fx := js.fx + [Todo(wk, js.fx, i).e])
  }

  predicate Ended(pc: Pc)
  {
    pc == Fin || pc == Done
  }

  /** A read or terminate after m and up to n, for which n waits and which waits for m: reads wait for
      writes, and terminate for reads and writes. */
  predicate Fenced(reqs: seq<Kind>, m: nat, n: nat)
  {
    exists r :: m < r <= n && r < |reqs| && (reqs[r] == Terminate || (reqs[r] == Read && reqs[m] == Write))
  }

  // ----- what every step keeps -----

  ghost predicate EffectOK(wk: Work, js: Joint, a: nat)
  {
    a < |js.fx| ==>
      && js.fx[a].i < |js.st.pcs| <= |wk.reqs| && (js.st.pcs[js.fx[a].i] == Busy || Ended(js.st.pcs[js.fx[a].i]))
      && (js.fx[a].Wrote? <==> wk.reqs[js.fx[a].i] == Write) && Data(wk.reqs[js.fx[a].i])
      && (js.fx[a].Dropped? ==> Looked(js.fx[a].i) in js.fx[..a] && js.fx[a].i < |wk.grabs| && wk.grabs[js.fx[a].i])
  }

  ghost predicate Once(js: Joint, a: nat, b: nat)
  {
    a < b < |js.fx| ==> js.fx[a] != js.fx[b]
  }

  ghost predicate EndedOK(wk: Work, js: Joint, i: nat)
  {
    i < |js.st.pcs| <= |wk.reqs| && Data(wk.reqs[i]) && Ended(js.st.pcs[i]) ==>
      if wk.reqs[i] == Write then Wrote(i) in js.fx else Looked(i) in js.fx
  }

  /** Terminate starts only after every earlier read and write has ended. */
  predicate Termed(wk: Work, st: State, m: nat, n: nat)
  {
    m < n < |st.pcs| <= |wk.reqs| && Data(wk.reqs[m]) && wk.reqs[n] == Terminate && Started(st.pcs[n]) ==>
      Ended(st.pcs[m])
  }

  /** No effect of a request comes after one of a request that has waited for it. */
  ghost predicate InTime(wk: Work, js: Joint, a: nat, b: nat)
  {
    a < b < |js.fx| ==> !Fenced(wk.reqs, js.fx[b].i, js.fx[a].i)
  }

  /** When a page is read, every earlier write has taken effect. */
  ghost predicate LookedOK(wk: Work, js: Joint, a: nat, m: nat)
  {
    a < |js.fx| && js.fx[a].Looked? && m < js.fx[a].i && m < |wk.reqs| && wk.reqs[m] == Write ==> Wrote(m) in js.fx[..a]
  }

  ghost predicate JInv(wk: Work, js: Joint)
  {
    && Inv(wk.reqs, wk.live0, js.st) && (forall a: nat :: EffectOK(wk, js, a))
    && (forall a: nat, b: nat :: Once(js, a, b))
    && (forall i: nat :: EndedOK(wk, js, i)) && (forall m: nat, n: nat :: Termed(wk, js.st, m, n))
    && (forall a: nat, b: nat :: InTime(wk, js, a, b)) && (forall a: nat, m: nat :: LookedOK(wk, js, a, m))
  }

  /** How a step of the protocol changes the place of a handler. */
  predicate Onward(k: Kind, pc: Pc, pc': Pc, ran: bool)
  {
    && (pc == Busy ==> pc' == Busy || Ended(pc')) && (Ended(pc) ==> Ended(pc')) && (Started(pc) ==> Started(pc'))
    && (Data(k) && Ended(pc') ==> Ended(pc) || (ran && pc == Busy))
  }

  lemma {:induction false} PcRun(st: State, i: nat, k: Kind, j: nat, kj: Kind)
    requires i < |st.pcs| && j < |st.pcs| && (st.pcs[i].Return? ==> k == Terminate) && (j == i ==> kj == k)
    ensures |Go(st, i, k).pcs| == |st.pcs| && Onward(kj, st.pcs[j], Go(st, i, k).pcs[j], j == i)
  {
    hide Go;
    if Started(st.pcs[i]) { StartedRun(st, i, k, j, kj); } else { InsideRun(st, i, k); }
  }

  lemma {:induction false} StartedRun(st: State, i: nat, k: Kind, j: nat, kj: Kind)
    requires i < |st.pcs| && j < |st.pcs| && (st.pcs[i].Return? ==> k == Terminate) && (j == i ==> kj == k)
    requires Started(st.pcs[i])
    ensures |Go(st, i, k).pcs| == |st.pcs| && Onward(kj, st.pcs[j], Go(st, i, k).pcs[j], j == i)
  {
    hide Admit, Begin, TermR, TermW, TermN;
  }

  /** Only the place of handler i has changed, and it is not over. */
  predicate OnlyInside(st: State, i: nat, st': State)
    requires i < |st.pcs|
  {
    |st'.pcs| == |st.pcs| && st'.pcs == st.pcs[i := st'.pcs[i]] && !Ended(st'.pcs[i])
  }

  lemma {:induction false} BeginInside(st: State, i: nat, k: Kind)
    requires i < |st.pcs|
    ensures OnlyInside(st, i, Begin(st, i, k)) && OnlyInside(st, i, Check(st, i, k))
  {
  }

  lemma {:induction false} TermInside(st: State, i: nat)
    requires i < |st.pcs|
    ensures OnlyInside(st, i, TermR(st, i)) && OnlyInside(st, i, TermW(st, i)) && OnlyInside(st, i, TermN(st, i))
  {
  }

  /** A handler that has not started leaves the others alone, and is not over afterwards. */
  lemma {:induction false} InsideRun(st: State, i: nat, k: Kind)
    requires i < |st.pcs| && !Started(st.pcs[i])
    ensures OnlyInside(st, i, Go(st, i, k))
  {
    hide Begin, Check, TermR, TermW, TermN;
    match st.pcs[i] {
      case Enter(_) =>
        var st1 := st.(log := st.log + [i]);
        BeginInside(st1, i, k);
        TermInside(st1, i);
      case Refs(d) => BeginInside(st.(returned := st.returned + d), i, k);
      case WaitW(_) => BeginInside(st, i, k); TermInside(st, i);
      case WaitR(_) => TermInside(st, i);
      case WaitN(_) => TermInside(st, i);
    }
  }

  lemma {:induction false} PcNext(reqs: seq<Kind>, live0: bool, st: State, step: Step, i: nat)
    requires Inv(reqs, live0, st) && Enabled(reqs, st, step) && i < |st.pcs|
    ensures var st' := Next(reqs, st, step);
      |st.pcs| <= |st'.pcs| <= |reqs| && Onward(reqs[i], st.pcs[i], st'.pcs[i], step == Run(i))
  {
    hide Go, Rousable, Balanced, Named, Count, LiveAt, Onward, InOrder;
    match step {
      case Run(j) =>
        assert PlacedAt(reqs, st, j);
        PcRun(st, j, reqs[j], i, reqs[i]);
      case _ => assert Onward(reqs[i], st.pcs[i], Next(reqs, st, step).pcs[i], false) by { PcOther(reqs, st, step, i); }
    }
  }

  lemma {:induction false} PcOther(reqs: seq<Kind>, st: State, step: Step, i: nat)
    requires Enabled(reqs, st, step) && !step.Run? && i < |st.pcs| <= |reqs|
    ensures i < |Next(reqs, st, step).pcs| && Onward(reqs[i], st.pcs[i], Next(reqs, st, step).pcs[i], false)
  {
  }


  lemma {:induction false} ProtoKeeps(wk: Work, js: Joint, step: Step)
    requires wk.Valid() && JInv(wk, js) && JEnabled(wk, js, Proto(step))
    ensures JInv(wk, JNext(wk, js, Proto(step)))
  {
    hide Inv, Next, Enabled, Started, Ended, Fenced, Found, Holds, Todo;
    var js' := JNext(wk, js, Proto(step));
    StepKeeps(wk.reqs, wk.live0, js.st, step);
    Sizes(wk.reqs, wk.live0, js.st);
    forall i: nat | i < |js.st.pcs|
      ensures i < |js'.st.pcs| <= |wk.reqs| && Onward(wk.reqs[i], js.st.pcs[i], js'.st.pcs[i], step == Run(i))
    {
      PcNext(wk.reqs, wk.live0, js.st, step, i);
    }
    forall a: nat ensures EffectOK(wk, js', a) {
      assert EffectOK(wk, js, a);
    }
    forall a: nat, b: nat ensures Once(js', a, b) && InTime(wk, js', a, b) {
      assert Once(js, a, b) && InTime(wk, js, a, b);
    }
    forall i: nat ensures EndedOK(wk, js', i) {
      assert EndedOK(wk, js, i);
      NewPc(wk.reqs, wk.live0, js.st, step, i);
      if step == Run(i) && i < |js.st.pcs| && js.st.pcs[i] == Busy { AllDone(wk, js.fx, i); }
    }
    forall m: nat, n: nat ensures Termed(wk, js'.st, m, n) {
      assert Termed(wk, js.st, m, n);
      TermedNext(wk, js.st, step, m, n);
    }
    forall a: nat, m: nat ensures LookedOK(wk, js', a, m) {
      assert LookedOK(wk, js, a, m);
    }
  }

  lemma {:induction false} AllDone(wk: Work, fx: seq<Effect>, i: nat)
    requires i < |wk.reqs| && Todo(wk, fx, i) == Nil
    ensures if wk.reqs[i] == Write then Wrote(i) in fx else Looked(i) in fx
  {
  }

  lemma {:induction false} Sizes(reqs: seq<Kind>, live0: bool, st: State)
    requires Inv(reqs, live0, st)
    ensures |st.pcs| <= |reqs|
  {
  }

  lemma {:induction false} NewPc(reqs: seq<Kind>, live0: bool, st: State, step: Step, i: nat)
    requires Inv(reqs, live0, st) && Enabled(reqs, st, step)
    ensures |st.pcs| <= i < |Next(reqs, st, step).pcs| ==>
      !Started(Next(reqs, st, step).pcs[i]) && !Ended(Next(reqs, st, step).pcs[i])
  {
    hide Go, Rousable, Balanced, Named, Count, LiveAt, InOrder;
    match step {
      case Run(j) =>
        assert PlacedAt(reqs, st, j);
        PcRun(st, j, reqs[j], j, reqs[j]);
      case _ =>
    }
  }

  /** Terminate starts when no read or write is in progress. */
  lemma {:induction false} TermedNext(wk: Work, st: State, step: Step, m: nat, n: nat)
    requires wk.Valid() && Inv(wk.reqs, wk.live0, st) && Enabled(wk.reqs, st, step) && Termed(wk, st, m, n)
    ensures Termed(wk, Next(wk.reqs, st, step), m, n)
  {
    hide Next, Rousable, Balanced, Named, Count, LiveAt, InOrder, Started, Ended, WellFormed;
    var st' := Next(wk.reqs, st, step);
    if m < n < |st'.pcs| <= |wk.reqs| && Data(wk.reqs[m]) && wk.reqs[n] == Terminate && Started(st'.pcs[n]) {
      NewPc(wk.reqs, wk.live0, st, step, n);
      PcNext(wk.reqs, wk.live0, st, step, m);
      if !Started(st.pcs[n]) {
        TermStarts(wk, st, step, n, st');
        Cleared(wk.reqs, wk.live0, st, step);
        assert PlacedAt(wk.reqs, st, m);
        NotActive(wk.reqs[m], st.pcs[m], m, st.seqno, st.readers, st.writers);
      }
    }
  }

  lemma {:induction false} NotActive(k: Kind, pc: Pc, i: nat, seqno: nat, readers: int, writers: int)
    requires Placed(k, pc, i, seqno, readers, writers) && i < seqno && Data(k) && !Active(pc)
    ensures Ended(pc)
  {
  }

  lemma {:induction false} TermStarts(wk: Work, st: State, step: Step, n: nat, st': State)
    requires wk.Valid() && Inv(wk.reqs, wk.live0, st) && Enabled(wk.reqs, st, step) && st' == Next(wk.reqs, st, step)
    requires n < |st.pcs| && n < |st'.pcs| && wk.reqs[n] == Terminate && !Started(st.pcs[n]) && Started(st'.pcs[n])
    ensures st.live && !st'.live && step == Run(n)
  {
    hide Rousable, Balanced, Named, Count, LiveAt, InOrder, Go, Started, WellFormed;
    assert PlacedAt(wk.reqs, st, n);
    if step.Run? {
      assert PlacedAt(wk.reqs, st, step.i);
      if step.i != n {
        OtherStays(st, step.i, wk.reqs[step.i], n);
      } else {
        TermRun(st, n);
        PortHere(wk.reqs, wk.live0, st);
      }
    } else {
      AsleepStays(wk.reqs, st, step, n);
    }
  }

  lemma {:induction false} TermRun(st: State, n: nat)
    requires n < |st.pcs| && !Started(st.pcs[n]) && !st.pcs[n].Refs?
    ensures var st' := Go(st, n, Terminate);
      n < |st'.pcs| && (Started(st'.pcs[n]) ==> !st'.live && (st.pcs[n].Enter? ==> n == st.seqno))
  {
    hide Check, Begin;
  }

  lemma {:induction false} AsleepStays(reqs: seq<Kind>, st: State, step: Step, n: nat)
    requires Enabled(reqs, st, step) && !step.Run? && n < |st.pcs| && !Started(st.pcs[n])
    ensures n < |Next(reqs, st, step).pcs| && !Started(Next(reqs, st, step).pcs[n])
  {
  }

  /** A handler that has not started is not started by another. */
  lemma {:induction false} OtherStays(st: State, i: nat, k: Kind, n: nat)
    requires i < |st.pcs| && n < |st.pcs| && i != n && !Started(st.pcs[n])
    ensures |Go(st, i, k).pcs| == |st.pcs| && !Started(Go(st, i, k).pcs[n])
  {
    hide Go;
    if Started(st.pcs[i]) { StartedOther(st, i, k, n); } else { InsideRun(st, i, k); }
  }

  lemma {:induction false} StartedOther(st: State, i: nat, k: Kind, n: nat)
    requires i < |st.pcs| && n < |st.pcs| && i != n && !Started(st.pcs[n]) && Started(st.pcs[i])
    ensures |Go(st, i, k).pcs| == |st.pcs| && !Started(Go(st, i, k).pcs[n])
  {
    hide Admit, Begin, TermR, TermW, TermN;
  }

  /** What a request has waited for has ended. */
  lemma {:induction false} FencedEnded(wk: Work, js: Joint, m: nat, n: nat)
    requires JInv(wk, js) && Fenced(wk.reqs, m, n) && n < |js.st.pcs| && Started(js.st.pcs[n]) && Data(wk.reqs[m])
    ensures Ended(js.st.pcs[m])
  {
    hide Rousable, Balanced, Named, Count, LiveAt, EffectOK, Once, EndedOK, InTime, LookedOK;
    var r: nat :| m < r <= n && r < |wk.reqs| &&
      (wk.reqs[r] == Terminate || (wk.reqs[r] == Read && wk.reqs[m] == Write));
    assert PlacedAt(wk.reqs, js.st, m) && PlacedAt(wk.reqs, js.st, r) && PlacedAt(wk.reqs, js.st, n);
    assert Termed(wk, js.st, m, r) && InOrder(wk.reqs, js.st, m, r);
  }

  lemma {:induction false} TodoIs(wk: Work, fx: seq<Effect>, i: nat)
    requires i < |wk.reqs| && Todo(wk, fx, i).Do?
    ensures var e := Todo(wk, fx, i).e;
      && e.i == i && e !in fx && (e.Wrote? <==> wk.reqs[i] == Write)
      && (e.Dropped? ==> Looked(i) in fx && i < |wk.grabs| && wk.grabs[i])
  {
    hide Found;
  }

  /** An effect. */
  lemma {:induction false} ActKeeps(wk: Work, js: Joint, i: nat)
    requires JInv(wk, js) && JEnabled(wk, js, Act(i))
    ensures JInv(wk, JNext(wk, js, Act(i)))
  {
    hide Inv, Fenced, Found, Holds, Todo;
    var js', e := JNext(wk, js, Act(i)), Todo(wk, js.fx, i).e;
    var n := |js.fx|;
    TodoIs(wk, js.fx, i);
    assert js'.fx[..n] == js.fx;
    forall a: nat ensures EffectOK(wk, js', a) {
      assert EffectOK(wk, js, a);
      if a < n { assert js'.fx[..a] == js.fx[..a]; }
    }
    forall a: nat, b: nat ensures Once(js', a, b) && InTime(wk, js', a, b) {
      assert Once(js, a, b) && InTime(wk, js, a, b) && EffectOK(wk, js, a);
      if a < b == n && Fenced(wk.reqs, i, js.fx[a].i) {
        FencedEnded(wk, js, i, js.fx[a].i);
        assert false;
      }
    }
    forall k: nat ensures EndedOK(wk, js', k) {
      assert EndedOK(wk, js, k);
    }
    forall a: nat, m: nat ensures LookedOK(wk, js', a, m) {
      assert LookedOK(wk, js, a, m) && EndedOK(wk, js, m);
      if a < n { assert js'.fx[..a] == js.fx[..a]; }
      if a == n && e.Looked? && m < i && wk.reqs[m] == Write {
        LookFence(wk.reqs, m, i);
        FencedEnded(wk, js, m, i);
      }
    }
  }

  lemma {:induction false} LookFence(reqs: seq<Kind>, m: nat, n: nat)
    requires m < n < |reqs| && reqs[n] == Read && reqs[m] == Write
    ensures Fenced(reqs, m, n)
  {
  }

  /** The joint state after a run; a step that is not enabled does nothing. */
  function JExec(wk: Work, steps: seq<JStep>): Joint
  {
    JFrom(wk, Joint(Start(wk.live0), []), steps)
  }

  function JFrom(wk: Work, js: Joint, steps: seq<JStep>): Joint
  {
    if steps == [] then js else
    var js' := JFrom(wk, js, steps[..|steps| - 1]);
    if JEnabled(wk, js', steps[|steps| - 1]) then JNext(wk, js', steps[|steps| - 1]) else js'
  }

  lemma {:induction false} FromKeeps(wk: Work, js: Joint, steps: seq<JStep>)
    requires wk.Valid() && JInv(wk, js)
    ensures JInv(wk, JFrom(wk, js, steps))
  {
    hide JNext, JEnabled, JInv, Work.Valid;
    if steps != [] {
      var n := |steps| - 1;
      FromKeeps(wk, js, steps[..n]);
      var js' := JFrom(wk, js, steps[..n]);
      if JEnabled(wk, js', steps[n]) {
        match steps[n]
        case Proto(step) => ProtoKeeps(wk, js', step);
        case Act(i) => ActKeeps(wk, js', i);
      }
    }
  }

  /** What holds in every interleaving. */
  lemma {:induction false} JReachable(wk: Work, steps: seq<JStep>)
    requires wk.Valid()
    ensures JInv(wk, JExec(wk, steps))
  {
    hide JFrom;
    Reachable(wk.reqs, wk.live0, []);
    FromKeeps(wk, Joint(Start(wk.live0), []), steps);
  }

  // ----- when every interleaving returns the last write -----

  /** The last write to page p among the requests before j. */
  function LastBefore(wk: Work, j: nat, p: nat): (c: Content)
    requires j <= |wk.reqs|
    ensures c.By? ==> c.i < j && wk.Writes(c.i, p)
    ensures forall i: nat :: (if c.By? then c.i < i < j else i < j) ==> !wk.Writes(i, p)
  {
    if j == 0 then Nothing
    else if wk.Writes(j - 1, p) then By(j - 1)
    else LastBefore(wk, j - 1, p)
  }

  /** A terminate between requests m and n. */
  predicate Terminates(reqs: seq<Kind>, m: nat, n: nat)
  {
    exists r :: m < r < n && r < |reqs| && reqs[r] == Terminate
  }

  /** A read or terminate between requests m and n. */
  predicate Settles(reqs: seq<Kind>, m: nat, n: nat)
  {
    exists r :: m < r < n && r < |reqs| && (reqs[r] == Terminate || reqs[r] == Read)
  }

  /** Every earlier write to the page is settled before write i. */
  predicate Settled(wk: Work, p: nat, i: nat)
  {
    forall w: nat :: w < i && wk.Writes(w, p) ==> Settles(wk.reqs, w, i)
  }

  /** Every later write to the page comes after a terminate. */
  predicate NotOvertaken(wk: Work, p: nat, j: nat)
  {
    forall x: nat :: j < x < |wk.reqs| && wk.Writes(x, p) ==> Terminates(wk.reqs, j, x)
  }

  /** No release of the page can come between write i and read j. */
  predicate NotReleased(wk: Work, p: nat, i: nat, j: nat)
  {
    forall k: nat :: k < |wk.reqs| && k != j && wk.Releases(k, p) ==>
      && (k < i ==> Terminates(wk.reqs, k, i)) && !(i < k < j) && (k > j ==> Terminates(wk.reqs, j, k))
  }

  /** A condition on the list of requests alone. */
  predicate Safe(wk: Work, p: nat, i: nat, j: nat)
  {
    Settled(wk, p, i) && NotOvertaken(wk, p, j) && NotReleased(wk, p, i, j)
  }

  /** What request j has read, if it is at place a of the effects. */
  predicate ReadsAt(wk: Work, js: Joint, j: nat, a: nat, c: Content)
  {
    a < |js.fx| && js.fx[a] == Looked(j) && j < |wk.pages| && Holds(wk, js.fx[..a], wk.pages[j]) == c
  }

  predicate HasRead(js: Joint, j: nat)
  {
    Looked(j) in js.fx
  }

  /** Request j has read c. */
  predicate Returns(wk: Work, js: Joint, j: nat, c: Content)
  {
    exists a :: 0 <= a < |js.fx| && ReadsAt(wk, js, j, a, c)
  }

  /** If the last effect on a page is a write, the page holds its data. */
  lemma {:induction false} HoldsLast(wk: Work, fx: seq<Effect>, p: nat, a: nat)
    requires a < |fx| && fx[a].Wrote? && wk.On(fx[a].i, p)
    requires forall b :: a < b < |fx| ==> fx[b].Looked? || !wk.On(fx[b].i, p)
    ensures Holds(wk, fx, p) == By(fx[a].i)
  {
    var n := |fx| - 1;
    if a < n {
      assert fx[..n][a] == fx[a] && forall b :: a < b < n ==> fx[..n][b] == fx[b];
      HoldsLast(wk, fx[..n], p, a);
    }
  }

  lemma {:induction false} HoldsNothing(wk: Work, fx: seq<Effect>, p: nat)
    requires forall b :: 0 <= b < |fx| ==> !fx[b].Wrote? || !wk.On(fx[b].i, p)
    ensures Holds(wk, fx, p) == Nothing
  {
    if fx != [] {
      var n := |fx| - 1;
      assert forall b :: 0 <= b < n ==> fx[..n][b] == fx[b];
      HoldsNothing(wk, fx[..n], p);
    }
  }

  /** Effects of requests kept apart by a terminate come in order. */
  lemma {:induction false} AfterTerminate(wk: Work, js: Joint, m: nat, n: nat, a: nat, b: nat)
    requires JInv(wk, js) && a < |js.fx| && b < |js.fx| && js.fx[a].i == n && js.fx[b].i == m
    requires Terminates(wk.reqs, m, n) || (Settles(wk.reqs, m, n) && m < |wk.reqs| && wk.reqs[m] == Write)
    ensures b < a
  {
    hide Inv, EffectOK, Once, EndedOK, Termed, LookedOK;
    assert InTime(wk, js, a, b);
    assert m != n;
    assert Fenced(wk.reqs, m, n);
  }

  /** With such a list of requests, any other effect on the page comes before write i or after read j. */
  lemma {:induction false} Outside(wk: Work, js: Joint, i: nat, j: nat, a: nat, b: nat, c: nat)
    requires JInv(wk, js) && j < |wk.reqs| == |wk.pages| == |wk.grabs| && LastBefore(wk, j, wk.pages[j]) == By(i)
    requires Safe(wk, wk.pages[j], i, j) && a < |js.fx| && js.fx[a] == Looked(j) && b < |js.fx| && js.fx[b] == Wrote(i)
    requires c < |js.fx| && c != b && !js.fx[c].Looked? && wk.On(js.fx[c].i, wk.pages[j])
    ensures c < b || a < c
  {
    hide Inv, EndedOK, Termed, InTime, Settles, Terminates, LookedOK;
    var k, p := js.fx[c].i, wk.pages[j];
    assert EffectOK(wk, js, c) && EffectOK(wk, js, a) && EffectOK(wk, js, b) && Once(js, b, c) && Once(js, c, b);
    assert if js.fx[c].Wrote? then wk.Writes(k, p) else wk.Releases(k, p);
    if k < i {
      AfterTerminate(wk, js, k, i, b, c);
    } else if k > j {
      AfterTerminate(wk, js, j, k, c, a);
    } else if js.fx[c].Dropped? && k == j {
      var d: nat :| d < c && js.fx[d] == Looked(j);
      assert Once(js, a, d) && Once(js, d, a);
    }
  }

  /** If the condition holds, read j returns write i in every interleaving. */
  lemma {:induction false} SafeReturns(wk: Work, js: Joint, i: nat, j: nat, a: nat)
    requires JInv(wk, js) && j < |wk.reqs| == |wk.pages| == |wk.grabs| && LastBefore(wk, j, wk.pages[j]) == By(i)
    requires Safe(wk, wk.pages[j], i, j) && a < |js.fx| && js.fx[a] == Looked(j)
    ensures ReadsAt(wk, js, j, a, By(i))
  {
    hide Inv, EndedOK, Termed, Once, InTime, Safe, Holds, EffectOK;
    var p, fx := wk.pages[j], js.fx[..a];
    assert LookedOK(wk, js, a, i);
    var b: nat :| b < |fx| && fx[b] == Wrote(i);
    forall c: nat | b < c < |fx| ensures fx[c].Looked? || !wk.On(fx[c].i, p) {
      if !fx[c].Looked? && wk.On(fx[c].i, p) { Outside(wk, js, i, j, a, b, c); }
    }
    HoldsLast(wk, fx, p, b);
  }

  /** And with no earlier write, it returns nothing if no later one can overtake it. */
  lemma {:induction false} SafeNothing(wk: Work, js: Joint, j: nat, a: nat)
    requires JInv(wk, js) && j < |wk.reqs| == |wk.pages| == |wk.grabs| && LastBefore(wk, j, wk.pages[j]) == Nothing
    requires NotOvertaken(wk, wk.pages[j], j) && a < |js.fx| && js.fx[a] == Looked(j)
    ensures ReadsAt(wk, js, j, a, Nothing)
  {
    hide Inv, EndedOK, Termed, Once, InTime, Holds, Terminates, LookedOK;
    var p, fx := wk.pages[j], js.fx[..a];
    forall c: nat | c < |fx| ensures !fx[c].Wrote? || !wk.On(fx[c].i, p) {
      assert EffectOK(wk, js, c) && EffectOK(wk, js, a);
      if fx[c].Wrote? && wk.On(fx[c].i, p) {
        assert wk.Writes(fx[c].i, p);
        AfterTerminate(wk, js, j, fx[c].i, c, a);
      }
    }
    HoldsNothing(wk, fx, p);
  }
}
