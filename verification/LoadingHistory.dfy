/** What a state of the loading protocol says about the run that led to it. Histories are read
    off the actions of the run, never off `Apply`. */
module LoadingHistory {
  import opened Options
  import opened LoadingProtocol
  import opened LoadingSafety

  /** The first n actions of a run, with the states they were taken in. */
  predicate Upto(states: seq<State>, actions: seq<Action>, n: nat) {
    n <= |actions| && |states| == |actions| + 1
  }

  // ---------- what the actions say ----------

  /** The action opens page p for writing in frame f. */
  predicate WritesTo(s: State, a: Action, f: nat, p: nat) {
    && a.Write? && a.backend < |s.backends|
    && s.backends[a.backend].Pinned? && s.backends[a.backend].frame == f && s.backends[a.backend].page == p
  }

  /** Page p was opened for writing in frame f since the last successful load of the frame. */
  predicate WrittenSinceLoad(states: seq<State>, actions: seq<Action>, n: nat, f: nat, p: nat)
    requires Upto(states, actions, n)
  {
    n > 0 &&
    (WritesTo(states[n - 1], actions[n - 1], f, p)
     || (actions[n - 1] != LoadDone(f, true) && WrittenSinceLoad(states, actions, n - 1, f, p)))
  }

  /** The frame's I/O was submitted since a backend last published a page in it. */
  predicate SubmittedSincePublish(states: seq<State>, actions: seq<Action>, n: nat, f: nat)
    requires Upto(states, actions, n)
  {
    n > 0 &&
    (actions[n - 1] == Submit(f)
     || (!PublishesIn(states[n - 1], actions[n - 1], f) && SubmittedSincePublish(states, actions, n - 1, f)))
  }

  predicate PublishesIn(s: State, a: Action, f: nat) {
    && a.Publish? && a.backend < |s.backends|
    && s.backends[a.backend].Reserved? && s.backends[a.backend].frame == f
  }

  /** The page that backend b asked for last and has neither given up nor released. */
  function Wanted(actions: seq<Action>, n: nat, b: nat): (p: Option<nat>)
    requires n <= |actions|
  {
    if n == 0 then None
    else match actions[n - 1]
         case DoRequest(c, p) => if c == b then Some(p) else Wanted(actions, n - 1, b)
         case Cancel(c) => if c == b then None else Wanted(actions, n - 1, b)
         case Unpin(c) => if c == b then None else Wanted(actions, n - 1, b)
         case _ => Wanted(actions, n - 1, b)
  }

  datatype Use = Unused | ForReading | ForWriting

  /** How backend b uses the page it holds. */
  function UseOf(actions: seq<Action>, n: nat, b: nat): (u: Use)
    requires n <= |actions|
  {
    if n == 0 then Unused
    else match actions[n - 1]
         case Read(c) => if c == b then ForReading else UseOf(actions, n - 1, b)
         case Write(c) => if c == b then ForWriting else UseOf(actions, n - 1, b)
         case EndAccess(c) => if c == b then Unused else UseOf(actions, n - 1, b)
         case _ => UseOf(actions, n - 1, b)
  }

  /** A load that backend b waited for has failed since it made its request. */
  predicate FailedSinceRequest(states: seq<State>, actions: seq<Action>, n: nat, b: nat)
    requires Upto(states, actions, n)
  {
    n > 0 &&
    (LosesLoad(states[n - 1], actions[n - 1], b)
     || (!(actions[n - 1].DoRequest? && actions[n - 1].backend == b)
         && FailedSinceRequest(states, actions, n - 1, b)))
  }

  predicate LosesLoad(s: State, a: Action, b: nat) {
    a.LoadDone? && !a.success && b < |s.backends| && WaitsOn(s.backends[b], a.frame)
  }

  // ---------- frames ----------

  /** The dirty bit and the I/O flag of a frame, as the history has them. */
  predicate FrameTells(states: seq<State>, actions: seq<Action>, n: nat, f: nat)
    requires Upto(states, actions, n) && f < |states[n].frames|
  {
    match states[n].frames[f]
    case Ready(p, _, dirty) => dirty <==> WrittenSinceLoad(states, actions, n, f, p)
    case Flushing(p, _, _) => WrittenSinceLoad(states, actions, n, f, p)
    case Loading(_, started) => started <==> SubmittedSincePublish(states, actions, n, f)
    case _ => true
  }

  /** In every state of every run a resident page is dirty exactly if it was opened for writing
      since it was loaded, only such pages are written back, and a load has been submitted
      exactly if its frame says so. */
  lemma {:induction false} FramesTell(m: Model, states: seq<State>, actions: seq<Action>, n: nat, f: nat)
    requires IsRun(m, states, actions) && n <= |actions| && f < m.frameCount
    ensures f < |states[n].frames| && FrameTells(states, actions, n, f)
    decreases n
  {
    RunInv(m, states, actions, n);
    if n > 0 {
      var s, a, t := states[n - 1], actions[n - 1], states[n];
      FramesTell(m, states, actions, n - 1, f);
      RunInv(m, states, actions, n - 1);
      assert Step(m, s, a, t) && FrameOk(m, s, f);
      if a.Write? || a.Publish? || a.Unpin? || a.Lookup? { assert BackendOk(m, s, a.backend); }
      FrameStep(m, s, a, t, f);
    }
  }

  /** What one step may do to a frame. */
  predicate FrameMoves(s: State, a: Action, f: nat, g: Frame, h: Frame) {
    match h
    case Free => true
    case Reserved(_, _) => true
    case Loading(p, started) =>
      if PublishesIn(s, a, f) then !started
      else g.Loading? && (if a == Submit(f) then started else g.ioStarted == started)
    case Flushing(p, _, _) =>
      && !WritesTo(s, a, f, p) && a != LoadDone(f, true)
      && (g == h || (g.Ready? && g.page == p && g.dirty))
    case Ready(p, _, dirty) =>
      if WritesTo(s, a, f, p) then dirty
      else if a == LoadDone(f, true) then !dirty
      else (g.Ready? && g.page == p && g.dirty == dirty) || (g.Flushing? && g.oldPage == p && dirty)
  }

  lemma FrameStep(m: Model, s: State, a: Action, t: State, f: nat)
    requires Inv(m, s) && Step(m, s, a, t) && f < m.frameCount && |t.frames| == m.frameCount && FrameOk(m, s, f)
    requires a.Write? || a.Publish? || a.Unpin? || a.Lookup? ==> BackendOk(m, s, a.backend)
    ensures FrameMoves(s, a, f, s.frames[f], t.frames[f])
  {
    if a.Lookup? && s.pageTable[s.backends[a.backend].page].Some? {
      assert TableOk(m, s, s.backends[a.backend].page);
    } else if a.Publish? && s.pageTable[s.backends[a.backend].page].Some? {
      assert TableOk(m, s, s.backends[a.backend].page);
    }
  }

  // ---------- backends ----------

  /** What a backend is doing, as the history has it. */
  predicate BackendTells(states: seq<State>, actions: seq<Action>, n: nat, b: nat)
    requires Upto(states, actions, n) && b < |states[n].backends|
  {
    var k := states[n].backends[b];
    && (k.Idle? <==> Wanted(actions, n, b).None?)
    && (!k.Idle? ==> Wanted(actions, n, b) == Some(k.page))
    && (k.Reading? <==> UseOf(actions, n, b) == ForReading)
    && (k.Writing? <==> UseOf(actions, n, b) == ForWriting)
    && (k.Request? || k.Miss? || k.Reserved? || k.Waiting? ==>
          (k.retry <==> FailedSinceRequest(states, actions, n, b)))
  }

  lemma NothingTold(m: Model, states: seq<State>, actions: seq<Action>, b: nat)
    requires IsRun(m, states, actions) && b < m.backendCount
    ensures b < |states[0].backends| && BackendTells(states, actions, 0, b)
  {
  }

  /** In every state of every run a backend works for the page it asked for last, uses it as it
      said last, and remembers exactly whether a load has failed it since. */
  lemma {:induction false} BackendsTell(m: Model, states: seq<State>, actions: seq<Action>, n: nat, b: nat)
    requires IsRun(m, states, actions) && n <= |actions| && b < m.backendCount
    ensures b < |states[n].backends| && BackendTells(states, actions, n, b)
    decreases n
  {
    hide BackendTells, BackendMoves, Apply, Wanted, UseOf, FailedSinceRequest;
    RunInv(m, states, actions, n);
    if n == 0 {
      assert BackendTells(states, actions, n, b) by { NothingTold(m, states, actions, b); }
    } else {
      var s, a, t := states[n - 1], actions[n - 1], states[n];
      BackendsTell(m, states, actions, n - 1, b);
      RunInv(m, states, actions, n - 1);
      assert Step(m, s, a, t) && BackendOk(m, s, b);
      if a.FlushDone? { assert FrameOk(m, s, a.frame); }
      BackendStep(m, s, a, t, b);
      BackendTold(states, actions, n, b);
    }
  }

  lemma BackendTold(states: seq<State>, actions: seq<Action>, n: nat, b: nat)
    requires Upto(states, actions, n) && n > 0 && b < |states[n - 1].backends| && b < |states[n].backends|
    requires BackendTells(states, actions, n - 1, b)
    requires var s, a := states[n - 1], actions[n - 1]; var l := states[n].backends[b];
             && BackendMoves(s, a, b, s.backends[b], l)
             && (LosesLoad(s, a, b) ==> l == Request(s.backends[b].page, true))
    ensures BackendTells(states, actions, n, b)
  {
  }

  predicate ByOther(a: Action, b: nat) {
    a.Submit? || a.LoadDone? || a.FlushDone? || a.backend != b
  }

  predicate Asking(k: Backend) { k.Request? || k.Miss? || k.Reserved? || k.Waiting? }

  /** A request goes on, for the same page. */
  predicate Advances(k: Backend, l: Backend) {
    Asking(k) && !l.Idle? && l.page == k.page && (if Asking(l) then l.retry == k.retry else l.Pinned?)
  }

  /** What one step may do to a backend. */
  predicate BackendMoves(s: State, a: Action, b: nat, k: Backend, l: Backend) {
    if ByOther(a, b) then
      || l == k
      || (Asking(k) && l.Request? && l.page == k.page && (l.retry <==> k.retry || LosesLoad(s, a, b)))
      || (k.Waiting? && l.Pinned? && l.page == k.page && !LosesLoad(s, a, b))
    else match a
         case DoRequest(_, p) => k.Idle? && l == Request(p, false)
         case Cancel(_) => l == Idle && k.Waiting?
         case Unpin(_) => l == Idle && k.Pinned?
         case Read(_) => k.Pinned? && l == Reading(k.frame, k.page)
         case Write(_) => k.Pinned? && l == Writing(k.frame, k.page)
         case EndAccess(_) => (k.Reading? || k.Writing?) && l == Pinned(k.frame, k.page)
         case _ => Advances(k, l)
  }

  lemma BackendStep(m: Model, s: State, a: Action, t: State, b: nat)
    requires Inv(m, s) && Step(m, s, a, t) && b < m.backendCount && |t.backends| == m.backendCount
    requires BackendOk(m, s, b) && (a.FlushDone? ==> FrameOk(m, s, a.frame))
    ensures BackendMoves(s, a, b, s.backends[b], t.backends[b])
    ensures LosesLoad(s, a, b) ==> t.backends[b] == Request(s.backends[b].page, true)
  {
  }

  // ---------- events, and lookups through the page table ----------

  predicate Publishes(s: State, f: nat, p: nat) {
    f < |s.frames| && Published(s.frames[f]) == Some(p)
  }

  /** A lookup finds a page exactly if some frame publishes it, and that frame: ready ones are
      pinned, loading ones waited for. */
  lemma LookupFinds(m: Model, s: State, b: nat, t: State, f: nat)
    requires Inv(m, s) && Step(m, s, Lookup(b), t)
    ensures var p := s.backends[b].page;
            && (t.backends[b].Miss? <==> forall g: nat :: !Publishes(s, g, p))
            && (Publishes(s, f, p) && s.frames[f].Ready? ==> t.backends[b] == Pinned(f, p))
            && (Publishes(s, f, p) && s.frames[f].Loading? ==> t.backends[b].Waiting? && t.backends[b].frame == f)
  {
    var p := s.backends[b].page;
    assert TableOk(m, s, p);
    if s.pageTable[p].Some? { assert Publishes(s, s.pageTable[p].value, p); }
    if Publishes(s, f, p) { assert FrameOk(m, s, f); }
    if g: nat :| Publishes(s, g, p) { assert FrameOk(m, s, g); }
  }

  /** A publication wins exactly if no frame publishes the page: then the frame loads it and
      the backend waits for it. Otherwise the frame is free again. */
  lemma PublishWinsExactly(m: Model, s: State, b: nat, t: State)
    requires Inv(m, s) && Step(m, s, Publish(b), t)
    ensures var k := s.backends[b];
            if forall g: nat :: !Publishes(s, g, k.page)
            then t.frames == s.frames[k.frame := Loading(k.page, false)]
                 && t.backends[b] == Waiting(k.frame, k.page, k.retry) && t.event == NoEvent
            else t.frames[k.frame] == Free && t.event == RaceReleased(k.frame)
  {
    var k := s.backends[b];
    assert BackendOk(m, s, b) && TableOk(m, s, k.page);
    if s.pageTable[k.page].Some? { assert Publishes(s, s.pageTable[k.page].value, k.page); }
    if g: nat :| Publishes(s, g, k.page) { assert FrameOk(m, s, g); }
  }

  /** A retry is reported exactly when a load succeeds for a backend that an earlier load of
      the same request had failed; failures are reported exactly when they happen. */
  lemma EventsTell(m: Model, states: seq<State>, actions: seq<Action>, n: nat)
    requires IsRun(m, states, actions) && n < |actions|
    ensures var s, a, e := states[n], actions[n], states[n + 1].event;
            && (e == RetrySucceeded <==>
                  a.LoadDone? && a.success
                  && exists b: nat | b < |s.backends| :: WaitsOn(s.backends[b], a.frame)
                                                         && FailedSinceRequest(states, actions, n, b))
            && (e.LoadFailed? <==> a.LoadDone? && !a.success)
            && (e.FlushFailed? <==> a.FlushDone? && !a.success)
            && (e.LoadFailed? || e.FlushFailed? ==>
                  a.frame < |s.frames| && e.frame == a.frame && Published(s.frames[a.frame]) == Some(e.page))
            && (e.RaceReleased? ==> a.Publish?)
  {
    var s, a := states[n], actions[n];
    RunInv(m, states, actions, n);
    assert Step(m, s, a, states[n + 1]);
    if a.LoadDone? && a.success {
      forall b: nat | b < |s.backends| && WaitsOn(s.backends[b], a.frame)
        ensures s.backends[b].retry <==> FailedSinceRequest(states, actions, n, b)
      {
        BackendsTell(m, states, actions, n, b);
      }
    }
  }
}
