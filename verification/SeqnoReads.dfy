/** Read j returns the last write before it in every interleaving if and only if a condition on the
    list of requests holds. Where it fails, an interleaving is built in which the read returns
    something else: requests are served one after another while one is held open. */
module SeqnoReads {
  import opened Seqno
  import opened SeqnoPages

  lemma {:induction false} FromApart(wk: Work, js: Joint, s: seq<JStep>, t: seq<JStep>)
    ensures JFrom(wk, js, s + t) == JFrom(wk, JFrom(wk, js, s), t)
  {
    hide JEnabled, JNext;
    if t == [] {
      assert s + t == s;
    } else {
      var n := |t| - 1;
      assert (s + t)[..|s + t| - 1] == s + t[..n];
      FromApart(wk, js, s, t[..n]);
    }
  }

  lemma {:induction false} FromOne(wk: Work, js: Joint, s: JStep)
    requires JEnabled(wk, js, s)
    ensures JFrom(wk, js, [s]) == JNext(wk, js, s)
  {
    hide JEnabled, JNext;
    assert [s][..0] == [];
    assert JFrom(wk, js, []) == js;
  }

  /** One more step of the protocol. */
  lemma {:induction false} Then(wk: Work, js: Joint, s: seq<JStep>, step: Step) returns (t: seq<JStep>)
    requires JEnabled(wk, JFrom(wk, js, s), Proto(step))
    ensures var js' := JFrom(wk, js, s); JFrom(wk, js, t) == js'.(st := Next(wk.reqs, js'.st, step))
  {
    hide JEnabled, JFrom;
    t := s + [Proto(step)];
    FromApart(wk, js, s, [Proto(step)]);
    FromOne(wk, JFrom(wk, js, s), Proto(step));
  }

  /** Requests before n are over, except for o, if o < n: it is busy and has done nothing yet. */
  ghost predicate Rest(wk: Work, js: Joint, n: nat, o: nat)
  {
    && js.st.seqno == n == |js.st.pcs| <= |wk.reqs| && !js.st.naming
    && (forall i :: 0 <= i < n ==> js.st.pcs[i] == if i == o then Busy else Done)
    && (forall a :: 0 <= a < |js.fx| ==> js.fx[a].i != o)
  }

  /** Request o does not keep the requests after it and before m from being served. */
  predicate Lets(wk: Work, o: nat, m: nat)
  {
    && o < |wk.reqs| && Data(wk.reqs[o]) && !Terminates(wk.reqs, o, m)
    && (wk.reqs[o] == Write ==> !Settles(wk.reqs, o, m))
  }

  lemma {:induction false} LiveAcross(wk: Work, o: nat, n: nat)
    requires wk.Valid() && o < n <= |wk.reqs| && Data(wk.reqs[o]) && !Terminates(wk.reqs, o, n)
    ensures LiveAt(wk.reqs, wk.live0, n)
  {
    if n > o + 1 {
      LiveAcross(wk, o, n - 1);
      assert wk.reqs[n - 1] != Terminate;
    }
  }

  /** No handler but n waits for anything. */
  predicate Others(st: State, n: nat)
  {
    forall i :: 0 <= i < |st.pcs| && i != n ==> st.pcs[i] == Busy || st.pcs[i] == Done
  }

  lemma {:induction false} GoEnter(st: State, n: nat, k: Kind)
    requires n == st.seqno < |st.pcs| && st.pcs[n].Enter? && Data(k) && (k == Read ==> st.writers == 0)
    ensures var st' := Go(st, n, k);
      && |st'.pcs| == |st.pcs| && st'.pcs == st.pcs[n := st'.pcs[n]] && st'.naming == st.naming
      && if st'.pcs[n].Refs? then st'.seqno == n && st'.writers == st.writers
         else st'.seqno == n + 1 && st'.pcs[n] == Bcast(0)
  {
  }

  lemma {:induction false} GoRefs(st: State, n: nat, k: Kind)
    requires n == st.seqno < |st.pcs| && st.pcs[n].Refs? && (k == Read ==> st.writers == 0) && Data(k)
    ensures var st' := Go(st, n, k);
      st'.pcs == st.pcs[n := Bcast(0)] && st'.naming == st.naming && st'.seqno == n + 1
  {
  }

  lemma {:induction false} GoBcast(st: State, n: nat, k: Kind)
    requires n < |st.pcs| && st.pcs[n].Bcast? && Others(st, n)
    ensures Go(st, n, k) ==
            Set(st, n, if k == Init then Done else if k == Terminate then Return(st.pcs[n].refs) else Busy)
  {
    assert forall i :: 0 <= i < |st.pcs| ==> Wake(st.pcs, OnSeqno)[i] == st.pcs[i];
    assert Wake(st.pcs, OnSeqno) == st.pcs;
  }

  lemma {:induction false} GoFin(st: State, n: nat, k: Kind)
    requires n < |st.pcs| && st.pcs[n] == Fin && Others(st, n)
    ensures Go(st, n, k) == Set(st, n, Done)
  {
    var c := if k == Read then OnReaders else OnWriters;
    assert forall i :: 0 <= i < |st.pcs| ==> Wake(st.pcs, c)[i] == st.pcs[i];
    assert Wake(st.pcs, c) == st.pcs;
  }

  /** The next request is received. */
  lemma {:induction false} Received(wk: Work, js: Joint, n: nat) returns (t: seq<JStep>)
    requires n == |js.st.pcs| < |wk.reqs|
    ensures JFrom(wk, js, t) == js.(st := js.st.(pcs := js.st.pcs + [Enter(false)]))
  {
    hide Todo, Found, Holds;
    assert JFrom(wk, js, []) == js;
    t := Then(wk, js, [], Receive);
  }

  lemma {:induction false} RunNow(wk: Work, js: Joint, s: seq<JStep>, i: nat) returns (t: seq<JStep>)
    requires var st := JFrom(wk, js, s).st; i < |st.pcs| <= |wk.reqs| && !Asleep(st.pcs[i]) && st.pcs[i] != Done
    requires var js' := JFrom(wk, js, s); js'.st.pcs[i] == Busy ==> Todo(wk, js'.fx, i) == Nil
    ensures var js' := JFrom(wk, js, s); JFrom(wk, js, t) == js'.(st := Go(js'.st, i, wk.reqs[i]))
  {
    hide Todo, Found, Holds, JFrom, Go, Asleep;
    t := Then(wk, js, s, Run(i));
  }

  lemma {:induction false} NoWriters(wk: Work, js: Joint, n: nat, o: nat)
    requires JInv(wk, js) && Rest(wk, js, n, o) && (o < n ==> wk.reqs[o] != Write)
    ensures js.st.writers == 0
  {
    hide EffectOK, Once, EndedOK, Termed, InTime, LookedOK, Rousable, Balanced, Named, LiveAt;
    IdleCounts(wk.reqs, js.st.pcs, Write);
  }

  lemma {:induction false} Admitted(wk: Work, js: Joint, n: nat, o: nat) returns (t: seq<JStep>)
    requires JInv(wk, js) && Rest(wk, js, n, o) && n < |wk.reqs| && Data(wk.reqs[n])
    requires o < n && wk.reqs[n] == Read ==> wk.reqs[o] != Write
    ensures var js' := JFrom(wk, js, t);
      js'.fx == js.fx && js'.st.pcs == js.st.pcs + [Busy] && js'.st.seqno == n + 1 && !js'.st.naming
  {
    hide JInv, JFrom, Go, Todo, Found, Holds;
    if wk.reqs[n] == Read { NoWriters(wk, js, n, o); }
    t := Received(wk, js, n);
    GoEnter(JFrom(wk, js, t).st, n, wk.reqs[n]);
    t := RunNow(wk, js, t, n);
    if JFrom(wk, js, t).st.pcs[n].Refs? {
      GoRefs(JFrom(wk, js, t).st, n, wk.reqs[n]);
      t := RunNow(wk, js, t, n);
    }
    GoBcast(JFrom(wk, js, t).st, n, wk.reqs[n]);
    t := RunNow(wk, js, t, n);
  }

  lemma {:induction false} GoInit(st: State, n: nat)
    requires n == st.seqno < |st.pcs| && st.pcs[n].Enter?
    ensures var st' := Go(st, n, Init);
      st'.pcs == st.pcs[n := Bcast(0)] && st'.naming == st.naming && st'.seqno == n + 1
  {
  }

  lemma {:induction false} GoTerminate(st: State, n: nat)
    requires n == st.seqno < |st.pcs| && st.pcs[n].Enter? && st.readers == 0 && st.writers == 0 && st.names != 0
    ensures var st' := Go(st, n, Terminate);
      st'.pcs == st.pcs[n := Bcast(st.refs)] && st'.naming == st.naming && st'.seqno == n + 1
  {
  }

  lemma {:induction false} GoReturn(st: State, n: nat)
    requires n < |st.pcs| && st.pcs[n].Return?
    ensures Go(st, n, Terminate) == Set(st, n, Done)
  {
  }

  lemma {:induction false} AtRest(wk: Work, js: Joint, n: nat)
    requires wk.Valid() && JInv(wk, js) && Rest(wk, js, n, |wk.reqs|) && n < |wk.reqs|
    ensures js.st.readers == 0 && js.st.writers == 0 && (wk.reqs[n] == Terminate ==> js.st.names != 0)
  {
    hide EffectOK, Once, EndedOK, Termed, InTime, LookedOK, Rousable, Balanced, LiveAt;
    IdleCounts(wk.reqs, js.st.pcs, Write);
    IdleCounts(wk.reqs, js.st.pcs, Read);
  }

  /** An init or a terminate is served when nothing else is in progress. */
  lemma {:induction false} PortServed(wk: Work, js: Joint, n: nat) returns (t: seq<JStep>)
    requires wk.Valid() && JInv(wk, js) && Rest(wk, js, n, |wk.reqs|) && n < |wk.reqs| && !Data(wk.reqs[n])
    ensures Rest(wk, JFrom(wk, js, t), n + 1, |wk.reqs|) && JFrom(wk, js, t).fx == js.fx
  {
    hide JInv, JFrom, Go, Todo, Found, Holds, Work.Valid;
    AtRest(wk, js, n);
    t := Received(wk, js, n);
    if wk.reqs[n] == Init {
      GoInit(JFrom(wk, js, t).st, n);
    } else {
      GoTerminate(JFrom(wk, js, t).st, n);
    }
    t := RunNow(wk, js, t, n);
    GoBcast(JFrom(wk, js, t).st, n, wk.reqs[n]);
    t := RunNow(wk, js, t, n);
    if wk.reqs[n] == Terminate {
      GoReturn(JFrom(wk, js, t).st, n);
      t := RunNow(wk, js, t, n);
    }
  }

  /** What page p holds after request k, if it held c. */
  function Turn(wk: Work, c: Content, k: nat, p: nat): Content
  {
    if wk.Writes(k, p) then By(k) else if wk.Releases(k, p) then Nothing else c
  }

  lemma {:induction false} HoldsMore(wk: Work, fx: seq<Effect>, e: Effect, p: nat)
    ensures Holds(wk, fx + [e], p) ==
            if e.Looked? || !wk.On(e.i, p) then Holds(wk, fx, p) else if e.Wrote? then By(e.i) else Nothing
  {
    assert (fx + [e])[..|fx|] == fx;
  }

  /** An effect now. */
  lemma {:induction false} ActNow(wk: Work, js: Joint, s: seq<JStep>, i: nat) returns (t: seq<JStep>)
    requires JEnabled(wk, JFrom(wk, js, s), Act(i))
    ensures var js' := JFrom(wk, js, s); JFrom(wk, js, t) == js'.(fx := js'.fx + [Todo(wk, js'.fx, i).e])
  {
    hide JEnabled, JFrom, Todo, Found, Holds;
    t := s + [Act(i)];
    FromApart(wk, js, s, [Act(i)]);
    FromOne(wk, JFrom(wk, js, s), Act(i));
  }

  /** The effects of request i when it completes: the page may be empty already. */
  function Deeds(wk: Work, fx: seq<Effect>, i: nat): seq<Effect>
    requires i < |wk.reqs| == |wk.pages|
  {
    if wk.reqs[i] == Write then [Wrote(i)]
    else if wk.Releases(i, wk.pages[i]) && Holds(wk, fx, wk.pages[i]) != Nothing then [Looked(i), Dropped(i)]
    else [Looked(i)]
  }

  predicate NoDeeds(fx: seq<Effect>, i: nat)
  {
    forall a :: 0 <= a < |fx| ==> fx[a].i != i
  }

  lemma {:induction false} Acted(wk: Work, js: Joint, i: nat) returns (t: seq<JStep>)
    requires i < |js.st.pcs| <= |wk.reqs| == |wk.pages| && js.st.pcs[i] == Busy && Data(wk.reqs[i]) && NoDeeds(js.fx, i)
    ensures JFrom(wk, js, t) == js.(fx := js.fx + Deeds(wk, js.fx, i))
    ensures Todo(wk, JFrom(wk, js, t).fx, i) == Nil
  {
    hide JFrom, Holds;
    assert JFrom(wk, js, []) == js by { FromNone(wk, js); }
    t := ActNow(wk, js, [], i);
    if wk.reqs[i] == Read {
      var fx := js.fx + [Looked(i)];
      assert fx[|js.fx|] == Looked(i) && fx[..|js.fx|] == js.fx;
      assert Found(wk, fx, i) <==> Holds(wk, js.fx, wk.pages[i]) != Nothing;
      if Todo(wk, fx, i).Do? {
        t := ActNow(wk, js, t, i);
        assert fx + [Dropped(i)] == js.fx + [Looked(i), Dropped(i)];
      }
    }
  }

  lemma {:induction false} FromNone(wk: Work, js: Joint)
    ensures JFrom(wk, js, []) == js
  {
  }

  lemma {:induction false} DeedsTurn(wk: Work, fx: seq<Effect>, i: nat, p: nat)
    requires i < |wk.reqs| == |wk.pages| == |wk.grabs| && Data(wk.reqs[i])
    ensures Holds(wk, fx + Deeds(wk, fx, i), p) == Turn(wk, Holds(wk, fx, p), i, p)
  {
    hide Holds;
    if wk.reqs[i] == Write {
      HoldsMore(wk, fx, Wrote(i), p);
    } else {
      HoldsMore(wk, fx, Looked(i), p);
      HoldsMore(wk, fx + [Looked(i)], Dropped(i), p);
      assert fx + [Looked(i)] + [Dropped(i)] == fx + [Looked(i), Dropped(i)];
    }
  }

  /** A busy request completes. */
  lemma {:induction false} Completed(wk: Work, js: Joint, i: nat) returns (t: seq<JStep>)
    requires i < |js.st.pcs| <= |wk.reqs| == |wk.pages| == |wk.grabs| && js.st.pcs[i] == Busy && Data(wk.reqs[i])
    requires NoDeeds(js.fx, i) && Others(js.st, i)
    ensures var js' := JFrom(wk, js, t);
      && js'.st.pcs == js.st.pcs[i := Done] && js'.st.seqno == js.st.seqno && js'.st.naming == js.st.naming
      && js'.fx == js.fx + Deeds(wk, js.fx, i)
  {
    hide JFrom, Holds, Todo, Found, Deeds, Go;
    t := Acted(wk, js, i);
    Finishes(js.st, i, wk.reqs[i]);
    t := RunNow(wk, js, t, i);
    if JFrom(wk, js, t).st.pcs[i] == Fin {
      GoFin(JFrom(wk, js, t).st, i, wk.reqs[i]);
      t := RunNow(wk, js, t, i);
    }
  }

  lemma {:induction false} Finishes(st: State, i: nat, k: Kind)
    requires i < |st.pcs| && st.pcs[i] == Busy
    ensures var st' := Go(st, i, k);
      && |st'.pcs| == |st.pcs| && st'.pcs == st.pcs[i := st'.pcs[i]] && (st'.pcs[i] == Fin || st'.pcs[i] == Done)
      && st'.seqno == st.seqno && st'.naming == st.naming
  {
  }

  /** A run from js to js'. */
  ghost predicate Leads(wk: Work, js: Joint, t: seq<JStep>, js': Joint)
  {
    JInv(wk, js') && js' == JFrom(wk, js, t)
  }

  lemma {:induction false} LeadsOn(wk: Work, js: Joint, s: seq<JStep>, js1: Joint, t: seq<JStep>, js2: Joint)
    requires wk.Valid() && Leads(wk, js, s, js1) && js2 == JFrom(wk, js1, t)
    ensures Leads(wk, js, s + t, js2)
  {
    hide JInv, JFrom, Work.Valid;
    FromKeeps(wk, js1, t);
    FromApart(wk, js, s, t);
  }

  /** Request o is admitted and goes no further. */
  lemma {:induction false} Opened(wk: Work, js: Joint, o: nat) returns (t: seq<JStep>, js': Joint)
    requires wk.Valid() && JInv(wk, js) && Rest(wk, js, o, |wk.reqs|) && o < |wk.reqs| && Data(wk.reqs[o])
    ensures Leads(wk, js, t, js') && Rest(wk, js', o + 1, o) && js'.fx == js.fx
  {
    hide JFrom, Todo, Found, Holds, Inv, Once, EndedOK, Termed, InTime, LookedOK, Work.Valid;
    t := Admitted(wk, js, o, |wk.reqs|);
    js' := JFrom(wk, js, t);
    FromKeeps(wk, js, t);
    forall a: nat | a < |js.fx| ensures js.fx[a].i != o {
      assert EffectOK(wk, js, a);
    }
  }

  /** And completes. */
  lemma {:induction false} Closed(wk: Work, js: Joint, n: nat, o: nat) returns (t: seq<JStep>, js': Joint)
    requires wk.Valid() && JInv(wk, js) && Rest(wk, js, n, o) && o < n && Data(wk.reqs[o])
    ensures Leads(wk, js, t, js') && Rest(wk, js', n, |wk.reqs|) && js'.fx == js.fx + Deeds(wk, js.fx, o)
  {
    hide JInv, JFrom, Todo, Found, Holds, Deeds;
    t := Completed(wk, js, o);
    js' := JFrom(wk, js, t);
    FromKeeps(wk, js, t);
    Limits(wk, js', n);
  }

  lemma {:induction false} Limits(wk: Work, js: Joint, n: nat)
    requires JInv(wk, js) && |js.st.pcs| <= n
    ensures NoDeeds(js.fx, |wk.reqs|) && NoDeeds(js.fx, n)
  {
    hide Inv, Once, EndedOK, Termed, InTime, LookedOK;
    forall a: nat | a < |js.fx| ensures js.fx[a].i < |js.st.pcs| <= |wk.reqs| {
      assert EffectOK(wk, js, a);
    }
  }

  /** A read or write is served while request o is open. */
  lemma {:induction false} DataServed(wk: Work, js: Joint, n: nat, o: nat) returns (t: seq<JStep>, js': Joint)
    requires wk.Valid() && JInv(wk, js) && Rest(wk, js, n, o) && n < |wk.reqs| && Data(wk.reqs[n]) && n != o
    requires o < n && wk.reqs[n] == Read ==> wk.reqs[o] != Write
    ensures Leads(wk, js, t, js') && Rest(wk, js', n + 1, o) && js'.fx == js.fx + Deeds(wk, js.fx, n)
  {
    hide JInv, JFrom, Todo, Found, Holds;
    t := Admitted(wk, js, n, o);
    var js1 := JFrom(wk, js, t);
    FromKeeps(wk, js, t);
    Limits(wk, js, n);
    var s := Completed(wk, js1, n);
    js' := JFrom(wk, js1, s);
    LeadsOn(wk, js, t, js1, s, js');
    t := t + s;
  }

  /** What page p holds after requests n to m, one after another. */
  function Serial(wk: Work, c: Content, n: nat, m: nat, p: nat): Content
  {
    if m <= n then c else Turn(wk, Serial(wk, c, n, m - 1, p), m - 1, p)
  }

  /** Requests n to m are served one after another while request o is open. */
  lemma {:induction false} Served(wk: Work, js: Joint, n: nat, m: nat, o: nat, p: nat)
    returns (t: seq<JStep>, js': Joint)
    requires wk.Valid() && JInv(wk, js) && Rest(wk, js, n, o) && n <= m <= |wk.reqs|
    requires o == |wk.reqs| || (o < n && Lets(wk, o, m))
    ensures Leads(wk, js, t, js') && Rest(wk, js', m, o)
    ensures Holds(wk, js'.fx, p) == Serial(wk, Holds(wk, js.fx, p), n, m, p)
    decreases m
  {
    hide JInv, JFrom, Todo, Found, Holds, Deeds, Rest, Turn;
    if n == m {
      t, js' := [], js;
      FromNone(wk, js);
    } else {
      var s, js1 := Served(wk, js, n, m - 1, o, p);
      var k := m - 1;
      if o < n {
        LiveAcross(wk, o, k);
        assert Data(wk.reqs[k]);
      }
      var u;
      if Data(wk.reqs[k]) {
        u, js' := DataServed(wk, js1, k, o);
        DeedsTurn(wk, js1.fx, k, p);
      } else {
        u := PortServed(wk, js1, k);
        js' := JFrom(wk, js1, u);
        PortTurn(wk, Holds(wk, js1.fx, p), k, p);
      }
      LeadsOn(wk, js, s, js1, u, js');
      t := s + u;
    }
  }

  lemma {:induction false} PortTurn(wk: Work, c: Content, k: nat, p: nat)
    requires k < |wk.reqs| && !Data(wk.reqs[k])
    ensures Turn(wk, c, k, p) == c
  {
  }

  /** Later requests do not bring the data of write i back. */
  lemma {:induction false} NotAgain(wk: Work, c: Content, n: nat, m: nat, p: nat, i: nat)
    requires c != By(i) && i < n
    ensures Serial(wk, c, n, m, p) != By(i)
  {
    if m > n { NotAgain(wk, c, n, m - 1, p, i); }
  }

  function Begun(wk: Work): Joint
  {
    Joint(Start(wk.live0), [])
  }

  /** Requests before n are served, with o open after those before it. */
  lemma {:induction false} Around(wk: Work, o: nat, n: nat, p: nat) returns (t: seq<JStep>, js: Joint, c: Content)
    requires wk.Valid() && o < n <= |wk.reqs| && Lets(wk, o, n)
    ensures Leads(wk, Begun(wk), t, js) && Rest(wk, js, n, o) && Holds(wk, js.fx, p) == Serial(wk, c, o + 1, n, p)
  {
    hide JInv, JFrom, Holds, Rest, Terminates, Settles;
    var t1, js1, t2, js2, t3;
    t1, js1 := InTurn(wk, o, p);
    t2, js2 := Opened(wk, js1, o);
    LeadsOn(wk, Begun(wk), t1, js1, t2, js2);
    t3, js := Served(wk, js2, o + 1, n, o, p);
    LeadsOn(wk, Begun(wk), t1 + t2, js2, t3, js);
    t, c := t1 + t2 + t3, Holds(wk, js2.fx, p);
  }

  /** Requests before n are served one after another. */
  lemma {:induction false} InTurn(wk: Work, n: nat, p: nat) returns (t: seq<JStep>, js: Joint)
    requires wk.Valid() && n <= |wk.reqs|
    ensures Leads(wk, Begun(wk), t, js) && Rest(wk, js, n, |wk.reqs|)
    ensures Holds(wk, js.fx, p) == Serial(wk, Nothing, 0, n, p)
  {
    hide JInv, JFrom;
    JReachable(wk, []);
    FromNone(wk, Begun(wk));
    t, js := Served(wk, Begun(wk), 0, n, |wk.reqs|, p);
  }

  /** Then request o completes, and the others before m are served. */
  lemma {:induction false} Behind(wk: Work, o: nat, n: nat, m: nat, p: nat)
    returns (t: seq<JStep>, js: Joint, c: Content)
    requires wk.Valid() && o < n <= m <= |wk.reqs| && Lets(wk, o, n)
    ensures Leads(wk, Begun(wk), t, js) && Rest(wk, js, m, |wk.reqs|)
    ensures Holds(wk, js.fx, p) == Serial(wk, Turn(wk, c, o, p), n, m, p)
  {
    hide JInv, JFrom, Holds, Rest, Terminates, Settles, Turn, Deeds;
    var t1, js1, t2, js2, t3, c1;
    t1, js1, c1 := Around(wk, o, n, p);
    t2, js2 := Closed(wk, js1, n, o);
    DeedsTurn(wk, js1.fx, o, p);
    LeadsOn(wk, Begun(wk), t1, js1, t2, js2);
    t3, js := Served(wk, js2, n, m, |wk.reqs|, p);
    LeadsOn(wk, Begun(wk), t1 + t2, js2, t3, js);
    t, c := t1 + t2 + t3, Holds(wk, js1.fx, p);
  }

  /** A run in which request j reads something else. */
  ghost predicate Misses(wk: Work, t: seq<JStep>, j: nat, c: Content)
  {
    HasRead(JExec(wk, t), j) && !Returns(wk, JExec(wk, t), j, c)
  }

  /** Request j reads what its page holds, now or when it is served next. */
  lemma {:induction false} Misread(wk: Work, t: seq<JStep>, js: Joint, n: nat, o: nat, j: nat, c: Content)
    returns (u: seq<JStep>)
    requires wk.Valid() && Leads(wk, Begun(wk), t, js) && j < |wk.reqs| && wk.reqs[j] == Read
    requires if o == j then j < n && Rest(wk, js, n, j) else n == j && Rest(wk, js, j, o) && o == |wk.reqs|
    requires Holds(wk, js.fx, wk.pages[j]) != c
    ensures Misses(wk, u, j, c)
  {
    hide JInv, JFrom, Holds, Rest, Returns;
    var s, js';
    if o == j {
      s, js' := Closed(wk, js, n, j);
    } else {
      s, js' := DataServed(wk, js, j, o);
    }
    LeadsOn(wk, Begun(wk), t, js, s, js');
    u := t + s;
    assert js'.fx[|js.fx|] == Looked(j);
    assert js'.fx[..|js.fx|] == js.fx;
    ReadOnce(wk, js', j, |js.fx|, c);
  }

  lemma {:induction false} ReadOnce(wk: Work, js: Joint, j: nat, a: nat, c: Content)
    requires JInv(wk, js) && a < |js.fx| && js.fx[a] == Looked(j) && j < |wk.pages|
    ensures Returns(wk, js, j, c) <==> Holds(wk, js.fx[..a], wk.pages[j]) == c
  {
    hide Inv, EffectOK, EndedOK, Termed, InTime, LookedOK, Holds;
    if Holds(wk, js.fx[..a], wk.pages[j]) == c {
      assert ReadsAt(wk, js, j, a, c);
    }
    forall b: nat | b < |js.fx| && ReadsAt(wk, js, j, b, c) ensures b == a {
      assert Once(js, a, b) && Once(js, b, a);
    }
  }

  lemma {:induction false} SerialEnds(wk: Work, c: Content, n: nat, k: nat, p: nat)
    requires n <= k
    ensures Serial(wk, c, n, k + 1, p) == Turn(wk, Serial(wk, c, n, k, p), k, p)
  {
  }

  /** A later request that changes the page, with no terminate before it, overtakes the read. */
  lemma {:induction false} Overtakes(wk: Work, j: nat, k: nat, c: Content) returns (u: seq<JStep>)
    requires wk.Valid() && j < k < |wk.reqs| && wk.reqs[j] == Read && !Terminates(wk.reqs, j, k)
    requires var p := wk.pages[j];
      (wk.Writes(k, p) && c != By(k)) || (wk.Releases(k, p) && c != Nothing)
    ensures Misses(wk, u, j, c)
  {
    hide JInv, JFrom, Holds, Rest, Leads, Misses, WellFormed, Serial;
    assert !Terminates(wk.reqs, j, k + 1);
    var t, js, d := Around(wk, j, k + 1, wk.pages[j]);
    SerialEnds(wk, d, j + 1, k, wk.pages[j]);
    u := Misread(wk, t, js, k + 1, j, j, c);
  }

  /** An earlier request that changes the page after write i. */
  lemma {:induction false} Lags(wk: Work, o: nat, i: nat, j: nat) returns (u: seq<JStep>)
    requires wk.Valid() && o < i < j < |wk.reqs| && wk.reqs[j] == Read && wk.reqs[i] == Write
    requires var p := wk.pages[j];
      (wk.Writes(o, p) && !Settles(wk.reqs, o, i)) || (wk.Releases(o, p) && !Terminates(wk.reqs, o, i))
    ensures Misses(wk, u, j, By(i))
  {
    hide JInv, JFrom, Holds, Rest, Leads, Misses, WellFormed, Serial;
    var p := wk.pages[j];
    assert !Terminates(wk.reqs, o, i + 1);
    assert wk.reqs[o] == Write ==> !Settles(wk.reqs, o, i + 1);
    var t, js, d := Behind(wk, o, i + 1, j, p);
    NotAgain(wk, Turn(wk, d, o, p), i + 1, j, p, i);
    u := Misread(wk, t, js, j, |wk.reqs|, j, By(i));
  }

  /** A release between write i and the read. */
  lemma {:induction false} Between(wk: Work, i: nat, k: nat, j: nat) returns (u: seq<JStep>)
    requires wk.Valid() && i < k < j < |wk.reqs| && wk.reqs[j] == Read && wk.Releases(k, wk.pages[j])
    ensures Misses(wk, u, j, By(i))
  {
    hide JInv, JFrom, Holds, Rest, Misses, WellFormed, Serial;
    var p := wk.pages[j];
    var t, js := InTurn(wk, k + 1, p);
    SerialEnds(wk, Nothing, 0, k, p);
    var s, js' := Served(wk, js, k + 1, j, |wk.reqs|, p);
    LeadsOn(wk, Begun(wk), t, js, s, js');
    NotAgain(wk, Nothing, k + 1, j, p, i);
    u := Misread(wk, t + s, js', j, |wk.reqs|, j, By(i));
  }

  /** If the condition fails, some interleaving does not return write i. */
  lemma {:induction false} UnsafeMisses(wk: Work, i: nat, j: nat) returns (u: seq<JStep>)
    requires wk.Valid() && j < |wk.reqs| && wk.reqs[j] == Read && LastBefore(wk, j, wk.pages[j]) == By(i)
    requires !Safe(wk, wk.pages[j], i, j)
    ensures Misses(wk, u, j, By(i))
  {
    hide Misses, Terminates, Settles, LastBefore;
    var p := wk.pages[j];
    if w: nat :| w < i && wk.Writes(w, p) && !Settles(wk.reqs, w, i) {
      u := Lags(wk, w, i, j);
    } else if x: nat :| j < x < |wk.reqs| && wk.Writes(x, p) && !Terminates(wk.reqs, j, x) {
      u := Overtakes(wk, j, x, By(i));
    } else {
      var k: nat :| k < |wk.reqs| && k != j && wk.Releases(k, p) &&
        !((k < i ==> Terminates(wk.reqs, k, i)) && !(i < k < j) && (k > j ==> Terminates(wk.reqs, j, k)));
      if k < i {
        u := Lags(wk, k, i, j);
      } else if k < j {
        u := Between(wk, i, k, j);
      } else {
        u := Overtakes(wk, j, k, By(i));
      }
    }
  }

  // ----- the main results -----

  /** Read j returns write i, the last before it to its page, in every interleaving if and only if
      earlier writes to the page are settled before i, later ones come after a terminate, and no
      release of the page can come between. */
  lemma {:induction false} ReturnsLastIff(wk: Work, i: nat, j: nat)
    requires wk.Valid() && j < |wk.reqs| && wk.reqs[j] == Read && LastBefore(wk, j, wk.pages[j]) == By(i)
    ensures Safe(wk, wk.pages[j], i, j) <==>
            forall t :: HasRead(JExec(wk, t), j) ==> Returns(wk, JExec(wk, t), j, By(i))
  {
    hide JInv, JExec, Safe, LastBefore, ReadsAt;
    if Safe(wk, wk.pages[j], i, j) {
      forall t | HasRead(JExec(wk, t), j) ensures Returns(wk, JExec(wk, t), j, By(i)) {
        var js := JExec(wk, t);
        JReachable(wk, t);
        var a: nat :| a < |js.fx| && js.fx[a] == Looked(j);
        SafeReturns(wk, js, i, j, a);
      }
    } else {
      var u := UnsafeMisses(wk, i, j);
    }
  }

  /** With no earlier write to its page it finds nothing in every interleaving if and only if every later
      write to the page comes after a terminate. */
  lemma {:induction false} ReturnsNothingIff(wk: Work, j: nat)
    requires wk.Valid() && j < |wk.reqs| && wk.reqs[j] == Read && LastBefore(wk, j, wk.pages[j]) == Nothing
    ensures NotOvertaken(wk, wk.pages[j], j) <==>
            forall t :: HasRead(JExec(wk, t), j) ==> Returns(wk, JExec(wk, t), j, Nothing)
  {
    hide JInv, JExec, LastBefore, Terminates, ReadsAt;
    if NotOvertaken(wk, wk.pages[j], j) {
      forall t | HasRead(JExec(wk, t), j) ensures Returns(wk, JExec(wk, t), j, Nothing) {
        var js := JExec(wk, t);
        JReachable(wk, t);
        var a: nat :| a < |js.fx| && js.fx[a] == Looked(j);
        SafeNothing(wk, js, j, a);
      }
    } else {
      var x: nat :| j < x < |wk.reqs| && wk.Writes(x, wk.pages[j]) && !Terminates(wk.reqs, j, x);
      var u := Overtakes(wk, j, x, Nothing);
    }
  }

  /** Every read is read in some interleaving, so that neither result is about no run at all. */
  lemma {:induction false} SomeRunReads(wk: Work, j: nat) returns (t: seq<JStep>)
    requires wk.Valid() && j < |wk.reqs| && wk.reqs[j] == Read
    ensures Returns(wk, JExec(wk, t), j, Serial(wk, Nothing, 0, j, wk.pages[j]))
  {
    hide JInv, JFrom, Holds, Rest, Returns;
    var s, js := InTurn(wk, j, wk.pages[j]);
    var u, js' := DataServed(wk, js, j, |wk.reqs|);
    LeadsOn(wk, Begun(wk), s, js, u, js');
    t := s + u;
    assert js'.fx[|js.fx|] == Looked(j);
    assert js'.fx[..|js.fx|] == js.fx;
    ReadOnce(wk, js', j, |js.fx|, Serial(wk, Nothing, 0, j, wk.pages[j]));
  }
}
