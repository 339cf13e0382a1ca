/** The loops of the loading protocol: enumerating the offered actions, and handing a
    completed load to its waiters. */
module LoadingActions {
  import opened LoadingProtocol

  predicate OfFrame(a: Action) {
    a.Submit? || a.LoadDone? || a.FlushDone?
  }

  /** `actions` returns the offered actions and no others. */
  method Actions(m: Model, s: State) returns (out: seq<Action>)
    requires Ranges(m, s)
    ensures forall a :: a in out <==> Offered(m, s, a)
  {
    out := [];
    for b := 0 to |s.backends|
      invariant forall a :: a in out <==> Offered(m, s, a) && !OfFrame(a) && a.backend < b
    {
      var more := BackendActions(m, s, b);
      out := out + more;
    }
    for f := 0 to |s.frames|
      invariant forall a :: a in out <==> Offered(m, s, a) && (OfFrame(a) ==> a.frame < f)
    {
      var more := FrameActions(m, s, f);
      out := out + more;
    }
  }

  method FrameActions(m: Model, s: State, f: nat) returns (out: seq<Action>)
    requires Ranges(m, s) && f < m.frameCount
    ensures forall a :: a in out <==> Offered(m, s, a) && OfFrame(a) && a.frame == f
  {
    match s.frames[f] {
      case Loading(_, false) => out := [Submit(f)];
      case Loading(_, true) => out := [LoadDone(f, true), LoadDone(f, false)];
      case Flushing(_, _, _) => out := [FlushDone(f, true), FlushDone(f, false)];
      case _ => out := [];
    }
  }

  method BackendActions(m: Model, s: State, b: nat) returns (out: seq<Action>)
    requires Ranges(m, s) && b < m.backendCount
    ensures forall a :: a in out <==> Offered(m, s, a) && !OfFrame(a) && a.backend == b
  {
    out := [];
    match s.backends[b] {
      case Idle =>
        for p := 0 to m.pageCount
          invariant forall a :: a in out <==> a.DoRequest? && a.backend == b && a.page < p
        {
          out := out + [DoRequest(b, p)];
        }
      case Request(p, _) =>
        var w := Mapped(m, s, p);
        if !(w.Some? && w.value.Flushing?) { out := [Lookup(b)]; }
      case Miss(p, _) =>
        var w := Mapped(m, s, p);
        if w.Some? && (w.value.Ready? || w.value.Loading?) { out := [Lookup(b)]; }
        for f := 0 to |s.frames|
          invariant forall a :: a in out <==>
            Offered(m, s, a) && !OfFrame(a) && a.backend == b && (a.Reserve? ==> a.frame < f)
        {
          if Evictable(s.frames[f]) { out := out + [Reserve(b, f)]; }
        }
      case Reserved(f, _, _) =>
        if s.frames[f].Reserved? { out := [Publish(b)]; }
      case Waiting(_, _, _) => out := [Cancel(b)];
      case Pinned(f, _) =>
        out := [Unpin(b)];
        var writers, users := false, false;
        for c := 0 to |s.backends|
          invariant writers <==> exists d | 0 <= d < c :: Writes(s.backends[d], f)
          invariant users <==> exists d | 0 <= d < c :: Uses(s.backends[d], f)
        {
          writers := writers || Writes(s.backends[c], f);
          users := users || Uses(s.backends[c], f);
        }
        if !writers { out := out + [Read(b)]; }
        if !users { out := out + [Write(b)]; }
      case _ => out := [EndAccess(b)];
    }
  }

  lemma WaiterCountStep(bs: seq<Backend>, i: nat, f: nat)
    requires i < |bs|
    ensures WaiterCount(bs[..i + 1], f) == WaiterCount(bs[..i], f) + if WaitsOn(bs[i], f) then 1 else 0
  {
    assert bs[..i + 1][..i] == bs[..i];
  }

  /** The loop of LoadDone: on success every waiter of the frame is pinned, counted once, and
      on failure every one asks again; all other backends are untouched. */
  method CompleteLoad(backends: seq<Backend>, f: nat, success: bool)
    returns (after: seq<Backend>, pinCount: nat, retried: bool)
    ensures after == HandOffAll(backends, f, success)
    ensures pinCount == if success then WaiterCount(backends, f) else 0
    ensures retried <==> success && RetryWaits(backends, f)
  {
    after, pinCount, retried := backends, 0, false;
    for i := 0 to |backends|
      invariant |after| == |backends|
      invariant forall j | 0 <= j < i :: after[j] == HandOff(backends[j], f, success)
      invariant forall j | i <= j < |backends| :: after[j] == backends[j]
      invariant pinCount == if success then WaiterCount(backends[..i], f) else 0
      invariant retried <==> success && exists j | 0 <= j < i :: WaitsOn(backends[j], f) && backends[j].retry
    {
      WaiterCountStep(backends, i, f);
      if WaitsOn(backends[i], f) {
        if success {
          pinCount := pinCount + 1;
          if backends[i].retry { retried := true; }
          after := after[i := Pinned(f, backends[i].page)];
        } else {
          after := after[i := Request(backends[i].page, true)];
        }
      }
    }
    assert backends[..|backends|] == backends;
  }
}
