/** The reachability witnesses of the loading protocol, for every model size: each one is
    reachable exactly under the condition on which the source registers it. */
module LoadingWitnesses {
  import opened Options
  import opened LoadingProtocol
  import opened LoadingSafety
  import opened LoadingProgress

  /** "cancelled waiters leave IO owned loading frame" */
  ghost predicate OrphanLoad(s: State) {
    exists f | 0 <= f < |s.frames| ::
      && s.frames[f].Loading? && s.frames[f].ioStarted
      && forall b | 0 <= b < |s.backends| :: !WaitsOn(s.backends[b], f)
  }

  /** "duplicate waiters join one load" */
  ghost predicate SharedLoad(s: State) {
    exists b, c | 0 <= c < b < |s.backends| ::
      s.backends[b].Waiting? && WaitsOn(s.backends[c], s.backends[b].frame)
  }

  lemma InitReachable(m: Model)
    ensures Reachable(m, Init(m))
  {
    assert IsRun(m, [Init(m)], []);
  }

  lemma Go(m: Model, s: State, a: Action) returns (t: State)
    requires Reachable(m, s) && Ranges(m, s) && Offered(m, s, a)
    ensures Reachable(m, t) && Ranges(m, t) && Step(m, s, a, t)
  {
    SafetyOfEveryRun(m, s);
    t := Take(m, s, a);
    var states: seq<State>, actions: seq<Action> :| IsRun(m, states, actions) && states[|actions|] == s;
    var states', actions' := states + [t], actions + [a];
    forall i | 0 <= i < |actions'| ensures Step(m, states'[i], actions'[i], states'[i + 1]) {
      if i < |actions| { assert Step(m, states[i], actions[i], states[i + 1]); }
    }
    assert IsRun(m, states', actions') && states'[|actions'|] == t;
  }

  /** From a request for an unmapped page and a free frame to a submitted load. */
  lemma StartLoad(m: Model, s: State, b: nat, f: nat) returns (t: State)
    requires Reachable(m, s) && Ranges(m, s) && b < m.backendCount && f < m.frameCount
    requires s.backends[b].Request? && s.pageTable[s.backends[b].page] == None && s.frames[f].Free?
    ensures Reachable(m, t) && Ranges(m, t)
    ensures var k := s.backends[b];
            && t.frames == s.frames[f := Loading(k.page, true)]
            && t.backends == s.backends[b := Waiting(f, k.page, k.retry)]
            && t.pageTable == s.pageTable[k.page := Some(f)]
  {
    t := Go(m, s, Lookup(b));
    t := Go(m, t, Reserve(b, f));
    t := Go(m, t, Publish(b));
    t := Go(m, t, Submit(f));
  }

  /** From the initial state to a submitted load of page p by backend b into frame 0. */
  lemma FirstLoad(m: Model, s: State, b: nat, p: nat) returns (t: State)
    requires ValidModel(m) && Reachable(m, s) && Ranges(m, s) && b < m.backendCount && p < m.pageCount
    requires s.backends[b].Idle? && s.frames[0].Free? && s.pageTable[p] == None
    ensures Reachable(m, t) && Ranges(m, t)
    ensures && t.frames == s.frames[0 := Loading(p, true)]
            && t.backends == s.backends[b := Waiting(0, p, false)]
            && t.pageTable == s.pageTable[p := Some(0)]
  {
    var u := Go(m, s, DoRequest(b, p));
    t := StartLoad(m, u, b, 0);
  }

  lemma RetryReachable(m: Model) returns (t: State)
    requires ValidModel(m)
    ensures Reachable(m, t) && t.event == RetrySucceeded
  {
    InitReachable(m);
    t := FirstLoad(m, Init(m), 0, 0);
    t := Go(m, t, LoadDone(0, false));
    t := StartLoad(m, t, 0, 0);
    assert WaitsOn(t.backends[0], 0) && t.backends[0].retry;
    t := Go(m, t, LoadDone(0, true));
  }

  lemma OrphanReachable(m: Model) returns (t: State)
    requires ValidModel(m)
    ensures Reachable(m, t) && OrphanLoad(t)
  {
    InitReachable(m);
    t := FirstLoad(m, Init(m), 0, 0);
    t := Go(m, t, Cancel(0));
    assert t.frames[0].Loading?;
  }

  lemma SharedReachable(m: Model) returns (t: State)
    requires ValidModel(m) && m.backendCount >= 2
    ensures Reachable(m, t) && SharedLoad(t)
  {
    InitReachable(m);
    t := FirstLoad(m, Init(m), 0, 0);
    t := Go(m, t, DoRequest(1, 0));
    t := Go(m, t, Lookup(1));
    assert WaitsOn(t.backends[0], t.backends[1].frame);
  }

  lemma RaceReachable(m: Model) returns (t: State)
    requires ValidModel(m) && m.backendCount >= 2 && m.frameCount >= 2
    ensures Reachable(m, t) && t.event.RaceReleased?
  {
    InitReachable(m);
    t := MissBy(m, Init(m), 0);
    t := MissBy(m, t, 1);
    t := Go(m, t, Reserve(0, 0));
    t := Go(m, t, Reserve(1, 1));
    t := Go(m, t, Publish(0));
    t := Go(m, t, Publish(1));
  }

  /** An idle backend requests unmapped page 0 and misses. */
  lemma MissBy(m: Model, s: State, b: nat) returns (t: State)
    requires ValidModel(m) && Reachable(m, s) && Ranges(m, s) && b < m.backendCount
    requires s.backends[b].Idle? && s.pageTable[0] == None
    ensures Reachable(m, t) && Ranges(m, t)
    ensures t.frames == s.frames && t.pageTable == s.pageTable && t.backends == s.backends[b := Miss(0, false)]
  {
    t := Go(m, s, DoRequest(b, 0));
    t := Go(m, t, Lookup(b));
  }

  /** A loaded page 0 is written and unpinned: frame 0 holds it dirty. */
  lemma DirtyPage(m: Model, s: State) returns (t: State)
    requires ValidModel(m) && Reachable(m, s) && Ranges(m, s)
    requires s.backends[0] == Waiting(0, 0, false) && s.frames[0] == Loading(0, true)
    requires forall b | 1 <= b < m.backendCount :: s.backends[b].Idle? || s.backends[b].Miss?
    ensures Reachable(m, t) && Ranges(m, t) && t.frames == s.frames[0 := Ready(0, 0, true)]
    ensures t.backends == s.backends[0 := Idle] && t.pageTable == s.pageTable
  {
    OneWaiter(s.backends);
    t := Go(m, s, LoadDone(0, true));
    assert t.backends == s.backends[0 := Pinned(0, 0)];
    t := WriteAndUnpin(m, t);
  }

  lemma WriteAndUnpin(m: Model, s: State) returns (t: State)
    requires ValidModel(m) && Reachable(m, s) && Ranges(m, s)
    requires s.backends[0] == Pinned(0, 0) && s.frames[0] == Ready(0, 1, false)
    requires forall b | 1 <= b < m.backendCount :: s.backends[b].Idle? || s.backends[b].Miss?
    ensures Reachable(m, t) && Ranges(m, t) && t.frames == s.frames[0 := Ready(0, 0, true)]
    ensures t.backends == s.backends[0 := Idle] && t.pageTable == s.pageTable
  {
    t := Go(m, s, Write(0));
    t := Go(m, t, EndAccess(0));
    t := Go(m, t, Unpin(0));
  }

  lemma {:induction false} OneWaiter(bs: seq<Backend>)
    requires |bs| > 0 && WaitsOn(bs[0], 0) && forall b | 1 <= b < |bs| :: !WaitsOn(bs[b], 0)
    ensures WaiterCount(bs, 0) == 1
  {
    if |bs| > 1 { OneWaiter(bs[..|bs| - 1]); }
  }

  lemma FailFlush(m: Model, s: State, b: nat) returns (t: State)
    requires ValidModel(m) && Reachable(m, s) && Ranges(m, s) && b < m.backendCount
    requires s.backends[b].Miss? && s.frames[0] == Ready(0, 0, true)
    ensures Reachable(m, t) && t.event.FlushFailed?
  {
    t := Go(m, s, Reserve(b, 0));
    t := Go(m, t, FlushDone(0, false));
  }

  lemma FlushFailureReachable(m: Model) returns (t: State)
    requires ValidModel(m) && (m.pageCount >= 2 || m.backendCount >= 2)
    ensures Reachable(m, t) && t.event.FlushFailed?
  {
    InitReachable(m);
    if m.backendCount >= 2 {
      t := MissBy(m, Init(m), 1);
      t := FirstLoad(m, t, 0, 0);
      t := DirtyPage(m, t);
      t := FailFlush(m, t, 1);
    } else {
      t := FirstLoad(m, Init(m), 0, 0);
      t := DirtyPage(m, t);
      t := Go(m, t, DoRequest(0, 1));
      t := Go(m, t, Lookup(0));
      t := FailFlush(m, t, 0);
    }
  }

  // ---------- and not otherwise ----------

  /** A lone backend that missed or reserved finds its page still unmapped. */
  predicate Solo(m: Model, s: State)
    requires Ranges(m, s) && m.backendCount == 1
  {
    s.backends[0].Miss? || s.backends[0].Reserved? ==> s.pageTable[s.backends[0].page] == None
  }

  lemma SoloStep(m: Model, s: State, a: Action, t: State)
    requires m.backendCount == 1 && Inv(m, s) && Step(m, s, a, t) && Ranges(m, t) && Solo(m, s)
    ensures Solo(m, t) && !t.event.RaceReleased?
    ensures m.pageCount == 1 ==> !t.event.FlushFailed?
  {
    if a.FlushDone? { assert FrameOk(m, s, a.frame); }
  }

  lemma {:induction false} SoloRun(m: Model, states: seq<State>, actions: seq<Action>, i: nat)
    requires m.backendCount == 1 && IsRun(m, states, actions) && i < |states|
    ensures Ranges(m, states[i]) && Solo(m, states[i]) && !states[i].event.RaceReleased?
    ensures m.pageCount == 1 ==> !states[i].event.FlushFailed?
  {
    RunInv(m, states, actions, i);
    if i > 0 {
      SoloRun(m, states, actions, i - 1);
      RunInv(m, states, actions, i - 1);
      SoloStep(m, states[i - 1], actions[i - 1], states[i]);
    }
  }

  lemma RaceNeedsTwoFrames(m: Model, s: State)
    requires ValidModel(m) && Reachable(m, s) && s.event.RaceReleased?
    ensures m.backendCount >= 2 && m.frameCount >= 2
  {
    var states: seq<State>, actions: seq<Action> :| IsRun(m, states, actions) && states[|actions|] == s;
    if m.backendCount == 1 { SoloRun(m, states, actions, |actions|); }
    var n := |actions| - 1;
    RunInv(m, states, actions, n);
    var b := actions[n].backend;
    assert BackendOk(m, states[n], b) && TableOk(m, states[n], states[n].backends[b].page);
  }

  lemma FlushFailureNeedsTwo(m: Model, s: State)
    requires ValidModel(m) && Reachable(m, s) && s.event.FlushFailed?
    ensures m.pageCount >= 2 || m.backendCount >= 2
  {
    var states: seq<State>, actions: seq<Action> :| IsRun(m, states, actions) && states[|actions|] == s;
    if m.backendCount == 1 { SoloRun(m, states, actions, |actions|); }
  }

  /** The five witnesses, each with the exact condition on the model size. */
  lemma WitnessesExactly(m: Model)
    requires ValidModel(m)
    ensures exists s :: Reachable(m, s) && s.event == RetrySucceeded
    ensures exists s :: Reachable(m, s) && OrphanLoad(s)
    ensures (exists s :: Reachable(m, s) && SharedLoad(s)) <==> m.backendCount >= 2
    ensures (exists s :: Reachable(m, s) && s.event.RaceReleased?) <==> m.backendCount >= 2 && m.frameCount >= 2
    ensures (exists s :: Reachable(m, s) && s.event.FlushFailed?) <==> m.pageCount >= 2 || m.backendCount >= 2
  {
    var retry := RetryReachable(m);
    var orphan := OrphanReachable(m);
    if m.backendCount >= 2 { var shared := SharedReachable(m); }
    if m.backendCount >= 2 && m.frameCount >= 2 { var race := RaceReachable(m); }
    if m.pageCount >= 2 || m.backendCount >= 2 { var flush := FlushFailureReachable(m); }
    forall s | Reachable(m, s) && SharedLoad(s) ensures m.backendCount >= 2 { SafetyOfEveryRun(m, s); }
    forall s | Reachable(m, s) && s.event.RaceReleased? ensures m.backendCount >= 2 && m.frameCount >= 2 {
      RaceNeedsTwoFrames(m, s);
    }
    forall s | Reachable(m, s) && s.event.FlushFailed? ensures m.pageCount >= 2 || m.backendCount >= 2 {
      FlushFailureNeedsTwo(m, s);
    }
  }
}
