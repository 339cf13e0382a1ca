/** Safety of the loading protocol: one inductive invariant for every model size. */
module LoadingSafety {
  import opened Options
  import opened LoadingProtocol

  // ---------- the invariant, object by object ----------

  predicate Sized(m: Model, s: State) {
    |s.frames| == m.frameCount && |s.backends| == m.backendCount && |s.pageTable| == m.pageCount
  }

  /** A pinned frame is Ready with the pinned page, a reserved frame names its owner and
      target, a frame waited on is loading the awaited page. */
  predicate BackendOk(m: Model, s: State, b: nat)
    requires Sized(m, s) && b < m.backendCount
  {
    var k := s.backends[b];
    && BackendInRange(m, k)
    && (Pins(k) ==> s.frames[k.frame].Ready? && s.frames[k.frame].page == k.page)
    && (k.Waiting? ==> s.frames[k.frame].Loading? && s.frames[k.frame].page == k.page)
    && (k.Reserved? ==>
          var f := s.frames[k.frame];
          (f.Reserved? || f.Flushing?) && f.owner == b && f.target == k.page)
  }

  /** A published page maps to its frame, and a reservation belongs to its owner. */
  predicate FrameOk(m: Model, s: State, f: nat)
    requires Sized(m, s) && f < m.frameCount
  {
    var k := s.frames[f];
    && FrameInRange(m, k)
    && (Published(k).Some? ==> s.pageTable[Published(k).value] == Some(f))
    && (k.Reserved? || k.Flushing? ==>
          s.backends[k.owner].Reserved? && s.backends[k.owner].frame == f && s.backends[k.owner].page == k.target)
  }

  predicate TableOk(m: Model, s: State, p: nat)
    requires Sized(m, s) && p < m.pageCount
  {
    s.pageTable[p].Some? ==>
      && s.pageTable[p].value < m.frameCount
      && Published(s.frames[s.pageTable[p].value]) == Some(p)
  }

  predicate ExclusiveOk(m: Model, s: State, b: nat, c: nat)
    requires Sized(m, s) && b < m.backendCount && c < m.backendCount
  {
    b != c && s.backends[b].Writing? ==> !Uses(s.backends[c], s.backends[b].frame)
  }

  /** The part of the invariant that does not count pins. */
  predicate Core(m: Model, s: State) {
    && Sized(m, s)
    && (forall b | 0 <= b < m.backendCount :: BackendOk(m, s, b))
    && (forall f | 0 <= f < m.frameCount :: FrameOk(m, s, f))
    && (forall p | 0 <= p < m.pageCount :: TableOk(m, s, p))
    && (forall b, c | 0 <= b < m.backendCount && 0 <= c < m.backendCount :: ExclusiveOk(m, s, b, c))
  }

  /** The inductive invariant. */
  predicate Inv(m: Model, s: State) {
    Core(m, s) && PinAccounting(s)
  }

  lemma CoreRanges(m: Model, s: State)
    requires Core(m, s)
    ensures Ranges(m, s)
  {
    forall f | 0 <= f < |s.frames| ensures FrameInRange(m, s.frames[f]) { assert FrameOk(m, s, f); }
    forall b | 0 <= b < |s.backends| ensures BackendInRange(m, s.backends[b]) { assert BackendOk(m, s, b); }
    forall p | 0 <= p < |s.pageTable| && s.pageTable[p].Some? ensures s.pageTable[p].value < m.frameCount {
      assert TableOk(m, s, p);
    }
  }

  // ---------- counting pins ----------

  function One(b: bool): (n: nat) { if b then 1 else 0 }

  lemma {:induction false} PinCountUpdate(bs: seq<Backend>, i: nat, x: Backend, f: nat)
    requires i < |bs|
    ensures PinCount(bs[i := x], f) == PinCount(bs, f) - One(PinsFrame(bs[i], f)) + One(PinsFrame(x, f))
  {
    var n := |bs| - 1;
    if i < n {
      assert bs[i := x][..n] == bs[..n][i := x];
      PinCountUpdate(bs[..n], i, x, f);
    } else {
      assert bs[i := x][..n] == bs[..n];
    }
  }

  lemma {:induction false} PinCountPositive(bs: seq<Backend>, i: nat, f: nat)
    requires i < |bs| && PinsFrame(bs[i], f)
    ensures PinCount(bs, f) > 0
  {
    if i < |bs| - 1 {
      PinCountPositive(bs[..|bs| - 1], i, f);
    }
  }

  /** The converse: a positive count names a pinning backend. */
  lemma {:induction false} PinCountWitness(bs: seq<Backend>, f: nat) returns (i: nat)
    requires PinCount(bs, f) > 0
    ensures i < |bs| && PinsFrame(bs[i], f)
  {
    var n := |bs| - 1;
    if PinsFrame(bs[n], f) {
      i := n;
    } else {
      i := PinCountWitness(bs[..n], f);
    }
  }

  /** Completing a load pins exactly its waiters on the loaded frame and nobody else. */
  lemma {:induction false} PinCountHandOff(bs: seq<Backend>, f: nat, success: bool, g: nat)
    requires PinCount(bs, f) == 0
    ensures PinCount(HandOffAll(bs, f, success), g)
         == if g == f then (if success then WaiterCount(bs, f) else 0) else PinCount(bs, g)
  {
    if bs != [] {
      var n := |bs| - 1;
      PinCountHandOff(bs[..n], f, success, g);
      assert HandOffAll(bs, f, success)[..n] == HandOffAll(bs[..n], f, success);
    }
  }

  lemma {:induction false} NoPins(bs: seq<Backend>, f: nat)
    requires forall i | 0 <= i < |bs| :: !PinsFrame(bs[i], f)
    ensures PinCount(bs, f) == 0
  {
    if bs != [] { NoPins(bs[..|bs| - 1], f); }
  }

  lemma Unpinned(s: State, f: nat)
    requires PinCount(s.backends, f) == 0
    ensures forall b | 0 <= b < |s.backends| :: !PinsFrame(s.backends[b], f)
  {
    forall b | 0 <= b < |s.backends| ensures !PinsFrame(s.backends[b], f) {
      if PinsFrame(s.backends[b], f) { PinCountPositive(s.backends, b, f); }
    }
  }

  /** Pin accounting after a step that moves one backend and leaves every frame's count in
      balance with that move. */
  lemma AccountingAfterMove(s: State, t: State, i: nat)
    requires PinAccounting(s) && |t.frames| == |s.frames|
    requires i < |s.backends| && i < |t.backends| && t.backends == s.backends[i := t.backends[i]]
    requires forall f | 0 <= f < |s.frames| ::
               FramePins(t.frames[f]) == FramePins(s.frames[f])
                 - One(PinsFrame(s.backends[i], f)) + One(PinsFrame(t.backends[i], f))
    ensures PinAccounting(t)
  {
    forall f | 0 <= f < |t.frames| ensures PinCount(t.backends, f) == FramePins(t.frames[f]) {
      PinCountUpdate(s.backends, i, t.backends[i], f);
    }
  }

  /** The pin count a frame claims. */
  function FramePins(f: Frame): (n: nat) { if f.Ready? then f.pins else 0 }

  /** The event-free always-properties follow from the invariant. */
  lemma InvAlways(m: Model, s: State)
    requires Inv(m, s)
    ensures Ranges(m, s)
    ensures AccessMatches(m, s) && UniquePublished(s) && Bijection(m, s) && Ownership(m, s) && WriterExclusive(s)
  {
    CoreRanges(m, s);
    forall b | 0 <= b < |s.backends| && Pins(s.backends[b])
      ensures var f := s.frames[s.backends[b].frame]; f.Ready? && f.page == s.backends[b].page && f.pins > 0
    {
      assert BackendOk(m, s, b);
      PinCountPositive(s.backends, b, s.backends[b].frame);
    }
    InvMapping(m, s);
    InvOwnership(m, s);
  }

  lemma InvMapping(m: Model, s: State)
    requires Core(m, s)
    ensures Ranges(m, s) && UniquePublished(s) && Bijection(m, s)
  {
    CoreRanges(m, s);
    forall f | 0 <= f < |s.frames| && Published(s.frames[f]).Some?
      ensures s.pageTable[Published(s.frames[f]).value] == Some(f)
    {
      assert FrameOk(m, s, f);
    }
    forall p | 0 <= p < |s.pageTable| && s.pageTable[p].Some?
      ensures Published(s.frames[s.pageTable[p].value]) == Some(p)
    {
      assert TableOk(m, s, p);
    }
  }

  lemma InvOwnership(m: Model, s: State)
    requires Core(m, s)
    ensures Ranges(m, s) && Ownership(m, s) && WriterExclusive(s)
  {
    CoreRanges(m, s);
    forall b | 0 <= b < |s.backends|
      ensures s.backends[b].Waiting? ==>
                var f := s.frames[s.backends[b].frame]; f.Loading? && f.page == s.backends[b].page
      ensures s.backends[b].Reserved? ==>
                var f := s.frames[s.backends[b].frame];
                (f.Reserved? || f.Flushing?) && f.owner == b && f.target == s.backends[b].page
    {
      assert BackendOk(m, s, b);
    }
    forall f | 0 <= f < |s.frames| && (s.frames[f].Reserved? || s.frames[f].Flushing?)
      ensures var b := s.backends[s.frames[f].owner]; b.Reserved? && b.frame == f && b.page == s.frames[f].target
    {
      assert FrameOk(m, s, f);
    }
    forall b, c | 0 <= b < |s.backends| && 0 <= c < |s.backends| && b != c && s.backends[b].Writing?
      ensures !Uses(s.backends[c], s.backends[b].frame)
    {
      assert ExclusiveOk(m, s, b, c);
    }
  }

  // ---------- the invariant holds initially and is kept by every step ----------

  lemma InitInv(m: Model)
    ensures Inv(m, Init(m)) && Ranges(m, Init(m)) && AlwaysProperties(m, Init(m))
  {
    var s := Init(m);
    forall f | 0 <= f < |s.frames| ensures PinCount(s.backends, f) == 0 {
      NoPins(s.backends, f);
    }
  }

  predicate MovesBackend(a: Action) {
    a.DoRequest? || a.Cancel? || a.Read? || a.Write? || a.EndAccess? || a.Unpin?
  }

  lemma AccessStepCore(m: Model, s: State, a: Action, t: State)
    requires Core(m, s) && Step(m, s, a, t) && (a.Read? || a.Write? || a.EndAccess?)
    ensures Core(m, t)
  {
    forall c | 0 <= c < m.backendCount ensures BackendOk(m, t, c) { assert BackendOk(m, s, c); }
    forall g | 0 <= g < m.frameCount ensures FrameOk(m, t, g) { assert FrameOk(m, s, g); }
    forall p | 0 <= p < m.pageCount ensures TableOk(m, t, p) { assert TableOk(m, s, p); }
    forall c, d | 0 <= c < m.backendCount && 0 <= d < m.backendCount ensures ExclusiveOk(m, t, c, d) {
      assert ExclusiveOk(m, s, c, d);
    }
  }

  lemma BackendStepCore(m: Model, s: State, a: Action, t: State)
    requires Core(m, s) && Step(m, s, a, t) && (a.DoRequest? || a.Cancel? || a.Unpin?)
    ensures Core(m, t)
  {
    forall c | 0 <= c < m.backendCount ensures BackendOk(m, t, c) { assert BackendOk(m, s, c); }
    forall g | 0 <= g < m.frameCount ensures FrameOk(m, t, g) { assert FrameOk(m, s, g); }
    forall p | 0 <= p < m.pageCount ensures TableOk(m, t, p) { assert TableOk(m, s, p); }
    forall c, d | 0 <= c < m.backendCount && 0 <= d < m.backendCount ensures ExclusiveOk(m, t, c, d) {
      assert ExclusiveOk(m, s, c, d);
    }
  }

  /** The invariant does not look at the last event. */
  lemma EventIrrelevant(m: Model, s: State, t: State)
    requires Inv(m, s) && t == s.(event := t.event)
    ensures Inv(m, t)
  {
    forall c | 0 <= c < m.backendCount ensures BackendOk(m, t, c) { assert BackendOk(m, s, c); }
    forall g | 0 <= g < m.frameCount ensures FrameOk(m, t, g) { assert FrameOk(m, s, g); }
    forall p | 0 <= p < m.pageCount ensures TableOk(m, t, p) { assert TableOk(m, s, p); }
    forall c, d | 0 <= c < m.backendCount && 0 <= d < m.backendCount ensures ExclusiveOk(m, t, c, d) {
      assert ExclusiveOk(m, s, c, d);
    }
  }

  lemma JoinCore(m: Model, s: State, b: nat, f: nat, p: nat, retry: bool)
    requires Core(m, s) && b < m.backendCount && p < m.pageCount && f < m.frameCount
    requires s.pageTable[p] == Some(f)
    requires s.backends[b].Request? || s.backends[b].Miss?
    ensures Core(m, Join(s, b, f, p, retry))
  {
    var t := Join(s, b, f, p, retry);
    assert TableOk(m, s, p) && BackendOk(m, s, b);
    forall c | 0 <= c < m.backendCount ensures BackendOk(m, t, c) { assert BackendOk(m, s, c); }
    forall g | 0 <= g < m.frameCount ensures FrameOk(m, t, g) { assert FrameOk(m, s, g); }
    forall p | 0 <= p < m.pageCount ensures TableOk(m, t, p) { assert TableOk(m, s, p); }
    forall c, d | 0 <= c < m.backendCount && 0 <= d < m.backendCount ensures ExclusiveOk(m, t, c, d) {
      assert ExclusiveOk(m, s, c, d);
    }
  }

  lemma JoinInv(m: Model, s: State, b: nat, f: nat, p: nat, retry: bool)
    requires Inv(m, s) && b < m.backendCount && p < m.pageCount && f < m.frameCount
    requires s.pageTable[p] == Some(f)
    requires s.backends[b].Request? || s.backends[b].Miss?
    ensures Inv(m, Join(s, b, f, p, retry))
  {
    JoinCore(m, s, b, f, p, retry);
    AccountingAfterMove(s, Join(s, b, f, p, retry), b);
  }

  lemma LookupInv(m: Model, s: State, b: nat, t: State)
    requires Inv(m, s) && Step(m, s, Lookup(b), t)
    ensures Inv(m, t)
  {
    var k := s.backends[b];
    if s.pageTable[k.page].Some? {
      var s0 := s.(event := NoEvent);
      EventIrrelevant(m, s, s0);
      JoinInv(m, s0, b, s.pageTable[k.page].value, k.page, k.retry);
    } else {
      MissCore(m, s, b, t);
      AccountingAfterMove(s, t, b);
    }
  }

  lemma MissCore(m: Model, s: State, b: nat, t: State)
    requires Core(m, s) && Step(m, s, Lookup(b), t) && s.pageTable[s.backends[b].page] == None
    ensures Core(m, t)
  {
    forall c | 0 <= c < m.backendCount ensures BackendOk(m, t, c) { assert BackendOk(m, s, c); }
    forall g | 0 <= g < m.frameCount ensures FrameOk(m, t, g) { assert FrameOk(m, s, g); }
    forall p | 0 <= p < m.pageCount ensures TableOk(m, t, p) { assert TableOk(m, s, p); }
    forall c, d | 0 <= c < m.backendCount && 0 <= d < m.backendCount ensures ExclusiveOk(m, t, c, d) {
      assert ExclusiveOk(m, s, c, d);
    }
  }

  lemma ReserveCore(m: Model, s: State, b: nat, f: nat, t: State)
    requires Core(m, s) && Step(m, s, Reserve(b, f), t)
    requires forall c | 0 <= c < |s.backends| :: !PinsFrame(s.backends[c], f)
    ensures Core(m, t)
  {
    assert FrameOk(m, s, f);
    forall c | 0 <= c < m.backendCount ensures BackendOk(m, t, c) { assert BackendOk(m, s, c); }
    forall g | 0 <= g < m.frameCount ensures FrameOk(m, t, g) { assert FrameOk(m, s, g); }
    forall p | 0 <= p < m.pageCount ensures TableOk(m, t, p) { assert TableOk(m, s, p); }
    forall c, d | 0 <= c < m.backendCount && 0 <= d < m.backendCount ensures ExclusiveOk(m, t, c, d) {
      assert ExclusiveOk(m, s, c, d);
    }
  }

  /** Losing the publish race first gives the reserved frame back. */
  function Released(s: State, b: nat): (t: State)
    requires b < |s.backends| && s.backends[b].Reserved? && s.backends[b].frame < |s.frames|
  {
    var k := s.backends[b];
    s.(event := NoEvent, frames := s.frames[k.frame := Free], backends := s.backends[b := Request(k.page, k.retry)])
  }

  lemma ReleasedCore(m: Model, s: State, b: nat)
    requires Core(m, s) && b < |s.backends| && s.backends[b].Reserved?
    requires s.backends[b].frame < m.frameCount && s.frames[s.backends[b].frame].Reserved?
    ensures Core(m, Released(s, b))
    ensures Some(s.backends[b].frame) !in s.pageTable
  {
    var t := Released(s, b);
    assert BackendOk(m, s, b);
    assert forall p | 0 <= p < m.pageCount :: TableOk(m, s, p);
    forall p | 0 <= p < m.pageCount ensures s.pageTable[p] != Some(s.backends[b].frame) { assert TableOk(m, s, p); }
    forall c | 0 <= c < m.backendCount ensures BackendOk(m, t, c) { assert BackendOk(m, s, c); }
    forall g | 0 <= g < m.frameCount ensures FrameOk(m, t, g) { assert FrameOk(m, s, g); }
    forall p | 0 <= p < m.pageCount ensures TableOk(m, t, p) { assert TableOk(m, s, p); }
    forall c, d | 0 <= c < m.backendCount && 0 <= d < m.backendCount ensures ExclusiveOk(m, t, c, d) {
      assert ExclusiveOk(m, s, c, d);
    }
  }

  lemma PublishWins(m: Model, s: State, b: nat, t: State)
    requires Core(m, s) && Step(m, s, Publish(b), t) && s.pageTable[s.backends[b].page] == None
    ensures Core(m, t)
  {
    assert BackendOk(m, s, b);
    forall c | 0 <= c < m.backendCount ensures BackendOk(m, t, c) { assert BackendOk(m, s, c); }
    forall g | 0 <= g < m.frameCount ensures FrameOk(m, t, g) { assert FrameOk(m, s, g); }
    forall p | 0 <= p < m.pageCount ensures TableOk(m, t, p) { assert TableOk(m, s, p); }
    forall c, d | 0 <= c < m.backendCount && 0 <= d < m.backendCount ensures ExclusiveOk(m, t, c, d) {
      assert ExclusiveOk(m, s, c, d);
    }
  }

  lemma PublishInv(m: Model, s: State, b: nat, t: State)
    requires Inv(m, s) && Step(m, s, Publish(b), t)
    ensures Inv(m, t) && LoserReleases(t)
  {
    var k := s.backends[b];
    if s.pageTable[k.page].Some? {
      var w := s.pageTable[k.page].value;
      var s1 := Released(s, b);
      ReleasedCore(m, s, b);
      AccountingAfterMove(s, s1, b);
      JoinInv(m, s1, b, w, k.page, k.retry);
      var u := Join(s1, b, w, k.page, k.retry);
      assert t == u.(event := t.event);
      EventIrrelevant(m, u, t);
    } else {
      PublishWins(m, s, b, t);
      AccountingAfterMove(s, t, b);
    }
  }

  lemma SubmitCore(m: Model, s: State, f: nat, t: State)
    requires Core(m, s) && Step(m, s, Submit(f), t)
    ensures Core(m, t)
  {
    forall c | 0 <= c < m.backendCount ensures BackendOk(m, t, c) { assert BackendOk(m, s, c); }
    forall g | 0 <= g < m.frameCount ensures FrameOk(m, t, g) { assert FrameOk(m, s, g); }
    forall p | 0 <= p < m.pageCount ensures TableOk(m, t, p) { assert TableOk(m, s, p); }
    forall c, d | 0 <= c < m.backendCount && 0 <= d < m.backendCount ensures ExclusiveOk(m, t, c, d) {
      assert ExclusiveOk(m, s, c, d);
    }
  }

  lemma LoadDoneCore(m: Model, s: State, f: nat, success: bool, t: State)
    requires Core(m, s) && Step(m, s, LoadDone(f, success), t)
    ensures Core(m, t) && FailedLoadReleased(t)
  {
    assert FrameOk(m, s, f);
    forall c | 0 <= c < m.backendCount ensures BackendOk(m, t, c) { assert BackendOk(m, s, c); }
    forall g | 0 <= g < m.frameCount ensures FrameOk(m, t, g) { assert FrameOk(m, s, g); }
    forall p | 0 <= p < m.pageCount ensures TableOk(m, t, p) { assert TableOk(m, s, p); }
    forall c, d | 0 <= c < m.backendCount && 0 <= d < m.backendCount ensures ExclusiveOk(m, t, c, d) {
      assert ExclusiveOk(m, s, c, d);
    }
  }

  lemma LoadDoneInv(m: Model, s: State, f: nat, success: bool, t: State)
    requires Inv(m, s) && Step(m, s, LoadDone(f, success), t)
    ensures Inv(m, t) && FailedLoadReleased(t)
  {
    LoadDoneCore(m, s, f, success, t);
    forall g | 0 <= g < |t.frames| ensures PinCount(t.backends, g) == FramePins(t.frames[g]) {
      PinCountHandOff(s.backends, f, success, g);
    }
  }

  lemma FlushDoneCore(m: Model, s: State, f: nat, success: bool, t: State)
    requires Core(m, s) && Step(m, s, FlushDone(f, success), t)
    ensures Core(m, t) && FailedFlushRetains(t)
  {
    assert FrameOk(m, s, f);
    forall c | 0 <= c < m.backendCount ensures BackendOk(m, t, c) { assert BackendOk(m, s, c); }
    forall g | 0 <= g < m.frameCount ensures FrameOk(m, t, g) { assert FrameOk(m, s, g); }
    forall p | 0 <= p < m.pageCount ensures TableOk(m, t, p) { assert TableOk(m, s, p); }
    forall c, d | 0 <= c < m.backendCount && 0 <= d < m.backendCount ensures ExclusiveOk(m, t, c, d) {
      assert ExclusiveOk(m, s, c, d);
    }
  }

  lemma ReserveInv(m: Model, s: State, b: nat, f: nat, t: State)
    requires Inv(m, s) && Step(m, s, Reserve(b, f), t)
    ensures Inv(m, t)
  {
    Unpinned(s, f);
    ReserveCore(m, s, b, f, t);
    AccountingAfterMove(s, t, b);
  }

  lemma SubmitInv(m: Model, s: State, f: nat, t: State)
    requires Inv(m, s) && Step(m, s, Submit(f), t)
    ensures Inv(m, t)
  {
    SubmitCore(m, s, f, t);
    assert forall g | 0 <= g < |t.frames| :: FramePins(t.frames[g]) == FramePins(s.frames[g]);
  }

  lemma FlushDoneInv(m: Model, s: State, f: nat, success: bool, t: State)
    requires Inv(m, s) && Step(m, s, FlushDone(f, success), t)
    ensures Inv(m, t) && FailedFlushRetains(t)
  {
    FlushDoneCore(m, s, f, success, t);
    AccountingAfterMove(s, t, s.frames[f].owner);
  }

  lemma BackendStepInv(m: Model, s: State, a: Action, t: State)
    requires Inv(m, s) && Step(m, s, a, t) && MovesBackend(a)
    ensures Inv(m, t)
  {
    if a.DoRequest? || a.Cancel? || a.Unpin? {
      BackendStepCore(m, s, a, t);
    } else {
      AccessStepCore(m, s, a, t);
    }
    assert BackendOk(m, s, a.backend);
    AccountingAfterMove(s, t, a.backend);
  }

  /** Every step keeps the invariant and establishes all always-properties. */
  lemma StepKeeps(m: Model, s: State, a: Action, t: State)
    requires Inv(m, s) && Step(m, s, a, t)
    ensures Inv(m, t) && Ranges(m, t) && AlwaysProperties(m, t)
  {
    hide Inv, Ranges;
    match a {
      case Lookup(b) => LookupInv(m, s, b, t);
      case Reserve(b, f) => ReserveInv(m, s, b, f, t);
      case Publish(b) => PublishInv(m, s, b, t);
      case Submit(f) => SubmitInv(m, s, f, t);
      case LoadDone(f, ok) => LoadDoneInv(m, s, f, ok, t);
      case FlushDone(f, ok) => FlushDoneInv(m, s, f, ok, t);
      case _ => BackendStepInv(m, s, a, t);
    }
    InvAlways(m, t);
  }

  lemma {:induction false} RunInv(m: Model, states: seq<State>, actions: seq<Action>, i: nat)
    requires IsRun(m, states, actions) && i < |states|
    ensures Inv(m, states[i]) && Ranges(m, states[i]) && AlwaysProperties(m, states[i])
  {
    if i == 0 {
      InitInv(m);
    } else {
      RunInv(m, states, actions, i - 1);
      StepKeeps(m, states[i - 1], actions[i - 1], states[i]);
    }
  }

  /** Safety: in every state of every run, for any number of frames, pages and backends, all
      nine always-properties hold together. */
  lemma SafetyOfEveryRun(m: Model, s: State)
    requires Reachable(m, s)
    ensures Inv(m, s) && Ranges(m, s) && AlwaysProperties(m, s)
  {
    var states, actions :| IsRun(m, states, actions) && states[|actions|] == s;
    RunInv(m, states, actions, |actions|);
  }
}
