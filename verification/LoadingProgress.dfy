/** Progress of the loading protocol: no reachable state is stuck, and every request in
    flight can still be served. */
module LoadingProgress {
  import opened Options
  import opened LoadingProtocol
  import opened LoadingSafety

  /** The state after taking the offered actions in order, if each of them is offered. */
  function Exec(m: Model, s: State, acts: seq<Action>): (r: Option<State>) {
    if acts == [] then Some(s)
    else
      var n := |acts| - 1;
      var r := Exec(m, s, acts[..n]);
      if r.Some? && Ranges(m, r.value) && Offered(m, r.value, acts[n])
      then Apply(m, r.value, acts[n]) else None
  }

  lemma {:induction false} ExecConcat(m: Model, s: State, xs: seq<Action>, t: State, ys: seq<Action>)
    requires Exec(m, s, xs) == Some(t)
    ensures Exec(m, s, xs + ys) == Exec(m, t, ys)
  {
    hide Apply, Offered, Ranges;
    if ys == [] {
      assert xs + ys == xs;
    } else {
      var n := |ys| - 1;
      assert (xs + ys)[..|xs| + n] == xs + ys[..n];
      ExecConcat(m, s, xs, t, ys[..n]);
    }
  }

  /** Every offered action yields a state: `next_state` never returns None, indexes outside a
      vector or underflows a pin count on an action that `actions` offers. */
  lemma OfferedApplies(m: Model, s: State, a: Action)
    requires Inv(m, s) && Ranges(m, s) && Offered(m, s, a)
    ensures Apply(m, s, a).Some?
  {
    InvAlways(m, s);
  }

  /** Take one offered action. */
  lemma Take(m: Model, s: State, a: Action) returns (t: State)
    requires Inv(m, s) && Ranges(m, s) && Offered(m, s, a)
    ensures Step(m, s, a, t) && Inv(m, t) && Ranges(m, t)
    ensures Exec(m, s, [a]) == Some(t)
  {
    OfferedApplies(m, s, a);
    t := Apply(m, s, a).value;
    StepKeeps(m, s, a, t);
    assert [a][..0] == [];
    assert Exec(m, s, [a][..0]) == Some(s);
  }

  /** t is reached from s by at most `bound` offered actions. */
  ghost predicate Within(m: Model, s: State, t: State, bound: nat) {
    exists acts :: |acts| <= bound && Exec(m, s, acts) == Some(t)
  }

  lemma WithinRefl(m: Model, s: State, n: nat)
    ensures Within(m, s, s, n)
  {
    assert Exec(m, s, []) == Some(s);
  }

  lemma WithinStep(m: Model, s: State, a: Action, t: State)
    requires Exec(m, s, [a]) == Some(t)
    ensures Within(m, s, t, 1)
  {
  }

  lemma WithinTrans(m: Model, s: State, t: State, u: State, i: nat, j: nat)
    requires Within(m, s, t, i) && Within(m, t, u, j)
    ensures Within(m, s, u, i + j)
  {
    var xs :| |xs| <= i && Exec(m, s, xs) == Some(t);
    var ys :| |ys| <= j && Exec(m, t, ys) == Some(u);
    ExecConcat(m, s, xs, t, ys);
    assert |xs + ys| <= i + j;
  }

  /** Extend a path by one offered action. */
  lemma Then(m: Model, s: State, t: State, n: nat, a: Action) returns (u: State)
    requires Within(m, s, t, n) && Inv(m, t) && Ranges(m, t) && Offered(m, t, a)
    ensures Step(m, t, a, u) && Inv(m, u) && Ranges(m, u)
    ensures Within(m, s, u, n + 1)
  {
    u := Take(m, t, a);
    WithinStep(m, t, a, u);
    WithinTrans(m, s, t, u, n, 1);
  }

  predicate InFlight(b: Backend) {
    b.Request? || b.Miss? || b.Reserved? || b.Waiting?
  }

  /** Backend b holds a pin on page p. */
  predicate Served(t: State, b: nat, p: nat) {
    b < |t.backends| && t.backends[b].Pinned? && t.backends[b].page == p
  }

  lemma FromWaiting(m: Model, s: State, b: nat) returns (t: State)
    requires Inv(m, s) && b < m.backendCount && s.backends[b].Waiting?
    ensures Within(m, s, t, 2) && Served(t, b, s.backends[b].page)
  {
    InvAlways(m, s);
    var f := s.backends[b].frame;
    t := s;
    WithinRefl(m, s, 0);
    if !s.frames[f].ioStarted {
      t := Then(m, s, s, 0, Submit(f));
    } else {
      WithinRefl(m, s, 1);
    }
    t := Then(m, s, t, 1, LoadDone(f, true));
  }

  lemma FromOwnFrame(m: Model, s: State, b: nat) returns (t: State)
    requires Inv(m, s) && Ranges(m, s) && b < m.backendCount && s.backends[b].Reserved?
    requires s.frames[s.backends[b].frame].Reserved? && s.pageTable[s.backends[b].page] == None
    ensures Within(m, s, t, 3) && Served(t, b, s.backends[b].page)
  {
    WithinRefl(m, s, 0);
    var u := Then(m, s, s, 0, Publish(b));
    t := FromWaiting(m, u, b);
    WithinTrans(m, s, u, t, 1, 2);
  }

  /** A miss with an evictable frame at hand: reserve, write back if dirty, publish, load. */
  lemma FromVictim(m: Model, s: State, b: nat, f: nat) returns (t: State)
    requires Inv(m, s) && Ranges(m, s) && b < m.backendCount && f < m.frameCount
    requires s.backends[b].Miss? && s.pageTable[s.backends[b].page] == None && Evictable(s.frames[f])
    ensures Within(m, s, t, 5) && Served(t, b, s.backends[b].page)
  {
    WithinRefl(m, s, 0);
    var u := Then(m, s, s, 0, Reserve(b, f));
    if u.frames[f].Flushing? {
      u := Then(m, s, u, 1, FlushDone(f, true));
      t := FromOwnFrame(m, u, b);
      WithinTrans(m, s, u, t, 2, 3);
    } else {
      t := FromOwnFrame(m, u, b);
      WithinTrans(m, s, u, t, 1, 3);
      Weaken(m, s, t, 4, 5);
    }
  }

  lemma Weaken(m: Model, s: State, t: State, i: nat, j: nat)
    requires Within(m, s, t, i) && i <= j
    ensures Within(m, s, t, j)
  {
    var xs :| |xs| <= i && Exec(m, s, xs) == Some(t);
    assert |xs| <= j;
  }

  /** A request or miss whose page is published joins it, first cancelling a writeback by
      letting it fail. */
  lemma FromMapped(m: Model, s: State, b: nat) returns (t: State)
    requires Inv(m, s) && Ranges(m, s) && b < m.backendCount
    requires s.backends[b].Request? || s.backends[b].Miss?
    requires s.pageTable[s.backends[b].page].Some?
    ensures Within(m, s, t, 4) && Served(t, b, s.backends[b].page)
  {
    InvAlways(m, s);
    var p := s.backends[b].page;
    var w := s.pageTable[p].value;
    var u := s;
    WithinRefl(m, s, 1);
    if s.frames[w].Flushing? {
      WithinRefl(m, s, 0);
      u := Then(m, s, s, 0, FlushDone(w, false));
    }
    assert u.backends[b] == s.backends[b] && u.pageTable[p] == Some(w);
    var v := Then(m, s, u, 1, Lookup(b));
    if v.backends[b].Waiting? {
      t := FromWaiting(m, v, b);
      WithinTrans(m, s, v, t, 2, 2);
    } else {
      t := v;
      Weaken(m, s, t, 2, 4);
    }
  }

  /** Abort the load of a frame: submit it if need be, then let it fail. */
  lemma AbortLoad(m: Model, s: State, f: nat) returns (t: State)
    requires Inv(m, s) && Ranges(m, s) && f < m.frameCount && s.frames[f].Loading?
    ensures Within(m, s, t, 2) && Inv(m, t) && Ranges(m, t)
    ensures t.frames[f].Free? && t.pageTable == s.pageTable[s.frames[f].page := None]
    ensures forall c | 0 <= c < m.backendCount && s.backends[c].Miss? :: t.backends[c] == s.backends[c]
  {
    t := s;
    if !s.frames[f].ioStarted {
      WithinRefl(m, s, 0);
      t := Then(m, s, s, 0, Submit(f));
    } else {
      WithinRefl(m, s, 1);
    }
    t := Then(m, s, t, 1, LoadDone(f, false));
  }

  /** Drop one pin of a frame. */
  lemma DropPin(m: Model, s: State, f: nat) returns (t: State)
    requires Inv(m, s) && Ranges(m, s) && f < m.frameCount && s.frames[f].Ready? && s.frames[f].pins > 0
    ensures Within(m, s, t, 2) && Inv(m, t) && Ranges(m, t)
    ensures t.frames[f] == s.frames[f].(pins := s.frames[f].pins - 1) && t.pageTable == s.pageTable
    ensures forall c | 0 <= c < m.backendCount && s.backends[c].Miss? :: t.backends[c] == s.backends[c]
  {
    var c := PinCountWitness(s.backends, f);
    t := s;
    if !s.backends[c].Pinned? {
      WithinRefl(m, s, 0);
      t := Then(m, s, s, 0, EndAccess(c));
    } else {
      WithinRefl(m, s, 1);
    }
    t := Then(m, s, t, 1, Unpin(c));
  }

  lemma {:induction false} DropPins(m: Model, s: State, f: nat) returns (t: State)
    requires Inv(m, s) && Ranges(m, s) && f < m.frameCount && s.frames[f].Ready?
    ensures Within(m, s, t, 2 * s.frames[f].pins) && Inv(m, t) && Ranges(m, t)
    ensures Evictable(t.frames[f]) && t.pageTable == s.pageTable
    ensures forall c | 0 <= c < m.backendCount && s.backends[c].Miss? :: t.backends[c] == s.backends[c]
    decreases s.frames[f].pins
  {
    if s.frames[f].pins == 0 {
      t := s;
      WithinRefl(m, s, 0);
    } else {
      var u := DropPin(m, s, f);
      t := DropPins(m, u, f);
      WithinTrans(m, s, u, t, 2, 2 * u.frames[f].pins);
    }
  }

  /** Let the owner of a reserved frame publish: it loses the race or its load is aborted. */
  lemma DropReservation(m: Model, s: State, f: nat, p: nat) returns (t: State)
    requires Inv(m, s) && Ranges(m, s) && f < m.frameCount && p < m.pageCount && s.pageTable[p] == None
    requires s.frames[f].Reserved?
    ensures Within(m, s, t, 3) && Inv(m, t) && Ranges(m, t)
    ensures Evictable(t.frames[f]) && t.pageTable[p] == None
    ensures forall c | 0 <= c < m.backendCount && s.backends[c].Miss? :: t.backends[c] == s.backends[c]
  {
    assert FrameOk(m, s, f);
    var owner := s.frames[f].owner;
    WithinRefl(m, s, 0);
    var u := Then(m, s, s, 0, Publish(owner));
    var q := s.backends[owner].page;
    if s.pageTable[q].Some? {
      assert TableOk(m, s, q);
      t := u;
      Weaken(m, s, t, 1, 3);
    } else {
      t := AbortLoad(m, u, f);
      WithinTrans(m, s, u, t, 1, 2);
    }
  }

  /** Any frame can be made evictable without disturbing the misses of other backends, even
      one that another backend has reserved for the same page. */
  lemma FreeFrame(m: Model, s: State, f: nat, p: nat) returns (t: State)
    requires Inv(m, s) && Ranges(m, s) && f < m.frameCount && p < m.pageCount && s.pageTable[p] == None
    ensures Within(m, s, t, 2 * m.backendCount + 3) && Inv(m, t) && Ranges(m, t)
    ensures Evictable(t.frames[f]) && t.pageTable[p] == None
    ensures forall c | 0 <= c < m.backendCount && s.backends[c].Miss? :: t.backends[c] == s.backends[c]
  {
    var bound := 2 * m.backendCount + 3;
    WithinRefl(m, s, 0);
    match s.frames[f] {
      case Free =>
        t := s;
        WithinRefl(m, s, bound);
      case Ready(_, pins, _) =>
        t := DropPins(m, s, f);
        PinCountBound(s.backends, f);
        Weaken(m, s, t, 2 * pins, bound);
      case Loading(_, _) =>
        t := AbortLoad(m, s, f);
        Weaken(m, s, t, 2, bound);
      case Flushing(_, _, _) =>
        t := Then(m, s, s, 0, FlushDone(f, false));
        Weaken(m, s, t, 1, bound);
      case Reserved(_, owner) =>
        t := DropReservation(m, s, f, p);
        Weaken(m, s, t, 3, bound);
    }
  }

  lemma {:induction false} PinCountBound(bs: seq<Backend>, f: nat)
    ensures PinCount(bs, f) <= |bs|
  {
    if bs != [] { PinCountBound(bs[..|bs| - 1], f); }
  }

  lemma FromRequestOrMiss(m: Model, s: State, b: nat) returns (t: State)
    requires ValidModel(m) && Inv(m, s) && b < m.backendCount
    requires s.backends[b].Request? || s.backends[b].Miss?
    ensures Within(m, s, t, 2 * m.backendCount + 9) && Served(t, b, s.backends[b].page)
  {
    InvAlways(m, s);
    var p := s.backends[b].page;
    if s.pageTable[p].Some? {
      t := FromMapped(m, s, b);
      Weaken(m, s, t, 4, 2 * m.backendCount + 9);
    } else {
      var u := s;
      WithinRefl(m, s, 1);
      if s.backends[b].Request? {
        WithinRefl(m, s, 0);
        u := Then(m, s, s, 0, Lookup(b));
      }
      var v := FreeFrame(m, u, 0, p);
      t := FromVictim(m, v, b, 0);
      WithinTrans(m, u, v, t, 2 * m.backendCount + 3, 5);
      WithinTrans(m, s, u, t, 1, 2 * m.backendCount + 8);
    }
  }

  /** A backend that asked, waits or already pins. */
  lemma FromAsked(m: Model, s: State, b: nat) returns (t: State)
    requires ValidModel(m) && Inv(m, s) && b < m.backendCount
    requires s.backends[b].Waiting? || s.backends[b].Request? || s.backends[b].Pinned?
    ensures Within(m, s, t, 2 * m.backendCount + 9) && Served(t, b, s.backends[b].page)
  {
    if s.backends[b].Waiting? {
      t := FromWaiting(m, s, b);
      Weaken(m, s, t, 2, 2 * m.backendCount + 9);
    } else if s.backends[b].Request? {
      t := FromRequestOrMiss(m, s, b);
    } else {
      t := s;
      WithinRefl(m, s, 2 * m.backendCount + 9);
    }
  }

  /** Publishing a reserved frame wins, joins the winner, or asks again. */
  lemma PublishOutcome(m: Model, s: State, b: nat, t: State)
    requires Step(m, s, Publish(b), t)
    ensures t.backends[b].Waiting? || t.backends[b].Request? || t.backends[b].Pinned?
    ensures t.backends[b].page == s.backends[b].page
  {
  }

  lemma FromPublish(m: Model, s: State, b: nat) returns (t: State)
    requires ValidModel(m) && Inv(m, s) && Ranges(m, s) && b < m.backendCount && s.backends[b].Reserved?
    requires s.frames[s.backends[b].frame].Reserved?
    ensures Within(m, s, t, 2 * m.backendCount + 10) && Served(t, b, s.backends[b].page)
  {
    var v := Take(m, s, Publish(b));
    WithinStep(m, s, Publish(b), v);
    PublishOutcome(m, s, b, v);
    t := FromAsked(m, v, b);
    WithinTrans(m, s, v, t, 1, 2 * m.backendCount + 9);
  }

  /** A reserved frame first finishes its writeback. */
  lemma FromReserved(m: Model, s: State, b: nat) returns (t: State)
    requires ValidModel(m) && Inv(m, s) && Ranges(m, s) && b < m.backendCount && s.backends[b].Reserved?
    ensures Within(m, s, t, 2 * m.backendCount + 11) && Served(t, b, s.backends[b].page)
  {
    assert BackendOk(m, s, b);
    var f := s.backends[b].frame;
    if s.frames[f].Flushing? {
      WithinRefl(m, s, 0);
      var u := Then(m, s, s, 0, FlushDone(f, true));
      t := FromPublish(m, u, b);
      WithinTrans(m, s, u, t, 1, 2 * m.backendCount + 10);
    } else {
      t := FromPublish(m, s, b);
      Weaken(m, s, t, 2 * m.backendCount + 10, 2 * m.backendCount + 11);
    }
  }

  /** From every reachable state, a backend with a request in flight has a run of at most
      2 * backends + 11 offered actions that ends with it pinned on the page it asked for. */
  lemma EveryRequestCanBeServed(m: Model, s: State, b: nat)
    requires ValidModel(m) && Reachable(m, s) && b < |s.backends| && InFlight(s.backends[b])
    ensures exists t :: Within(m, s, t, 2 * m.backendCount + 11) && Served(t, b, s.backends[b].page)
  {
    SafetyOfEveryRun(m, s);
    var bound := 2 * m.backendCount + 11;
    var t;
    if s.backends[b].Waiting? {
      t := FromWaiting(m, s, b);
      Weaken(m, s, t, 2, bound);
    } else if s.backends[b].Reserved? {
      t := FromReserved(m, s, b);
    } else {
      t := FromRequestOrMiss(m, s, b);
      Weaken(m, s, t, 2 * m.backendCount + 9, bound);
    }
  }

  /** No reachable state is stuck, and every action offered in it yields a state. */
  lemma NeverStuck(m: Model, s: State)
    requires ValidModel(m) && Reachable(m, s)
    ensures Ranges(m, s)
    ensures exists a :: Offered(m, s, a)
    ensures forall a | Offered(m, s, a) :: Apply(m, s, a).Some?
  {
    SafetyOfEveryRun(m, s);
    forall a | Offered(m, s, a) ensures Apply(m, s, a).Some? { OfferedApplies(m, s, a); }
    var k := s.backends[0];
    match k {
      case Idle => assert Offered(m, s, DoRequest(0, 0));
      case Pinned(_, _) => assert Offered(m, s, Unpin(0));
      case Waiting(_, _, _) => assert Offered(m, s, Cancel(0));
      case Reserved(f, _, _) =>
        assert s.frames[f].Reserved? ==> Offered(m, s, Publish(0));
        assert s.frames[f].Flushing? ==> Offered(m, s, FlushDone(f, true));
      case Request(p, _) =>
        if s.pageTable[p].Some? && s.frames[s.pageTable[p].value].Flushing? {
          assert Offered(m, s, FlushDone(s.pageTable[p].value, true));
        } else {
          assert Offered(m, s, Lookup(0));
        }
      case Miss(_, _) => MissNotStuck(m, s);
      case _ => assert Offered(m, s, EndAccess(0));
    }
  }

  lemma MissNotStuck(m: Model, s: State)
    requires ValidModel(m) && Inv(m, s) && Ranges(m, s) && s.backends[0].Miss?
    ensures exists a :: Offered(m, s, a)
  {
    InvAlways(m, s);
    match s.frames[0] {
      case Free => assert Offered(m, s, Reserve(0, 0));
      case Reserved(_, owner) => assert Offered(m, s, Publish(owner));
      case Flushing(_, _, _) => assert Offered(m, s, FlushDone(0, true));
      case Loading(_, started) =>
        assert started ==> Offered(m, s, LoadDone(0, true));
        assert !started ==> Offered(m, s, Submit(0));
      case Ready(_, pins, _) =>
        if pins == 0 {
          assert Offered(m, s, Reserve(0, 0));
        } else {
          var c := PinCountWitness(s.backends, 0);
          assert s.backends[c].Pinned? ==> Offered(m, s, Unpin(c));
          assert !s.backends[c].Pinned? ==> Offered(m, s, EndAccess(c));
        }
    }
  }
}
