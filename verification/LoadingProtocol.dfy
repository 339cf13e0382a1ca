/** The asynchronous page-loading protocol of crates/storage/src/models/buffer_pool.rs,
    for any number of frames, pages and backends. A step is an action that `actions`
    offers and `next_state` then applies. */
module LoadingProtocol {
  import opened Options

  datatype Model = Model(frameCount: nat, pageCount: nat, backendCount: nat)

  /** What `BufferModel::new` asserts. */
  predicate ValidModel(m: Model) {
    m.frameCount > 0 && m.pageCount > 0 && m.backendCount > 0
  }

  datatype Frame =
    | Free
    | Reserved(target: nat, owner: nat)
    | Flushing(oldPage: nat, target: nat, owner: nat)
    | Loading(page: nat, ioStarted: bool)
    | Ready(page: nat, pins: nat, dirty: bool)

  /** One worker: at most one outstanding request or pin. `retry` records that a load of
      the requested page has failed before. */
  datatype Backend =
    | Idle
    | Request(page: nat, retry: bool)
    | Miss(page: nat, retry: bool)
    | Reserved(frame: nat, page: nat, retry: bool)
    | Waiting(frame: nat, page: nat, retry: bool)
    | Pinned(frame: nat, page: nat)
    | Reading(frame: nat, page: nat)
    | Writing(frame: nat, page: nat)

  datatype Event =
    | NoEvent
    | RaceReleased(frame: nat)
    | LoadFailed(frame: nat, page: nat)
    | RetrySucceeded
    | FlushFailed(frame: nat, page: nat)

  datatype State = State(
    frames: seq<Frame>,
    backends: seq<Backend>,
    pageTable: seq<Option<nat>>,
    event: Event)

  datatype Action =
    | DoRequest(backend: nat, page: nat)
    | Lookup(backend: nat)
    | Reserve(backend: nat, frame: nat)
    | Publish(backend: nat)
    | Submit(frame: nat)
    | LoadDone(frame: nat, success: bool)
    | FlushDone(frame: nat, success: bool)
    | Cancel(backend: nat)
    | Read(backend: nat)
    | Write(backend: nat)
    | EndAccess(backend: nat)
    | Unpin(backend: nat)

  predicate Pins(b: Backend) {
    b.Pinned? || b.Reading? || b.Writing?
  }

  predicate PinsFrame(b: Backend, f: nat) {
    Pins(b) && b.frame == f
  }

  predicate WaitsOn(b: Backend, f: nat) {
    b.Waiting? && b.frame == f
  }

  predicate Uses(b: Backend, f: nat) {
    (b.Reading? || b.Writing?) && b.frame == f
  }

  predicate Writes(b: Backend, f: nat) {
    b.Writing? && b.frame == f
  }

  /** The page a frame publishes in the page table. */
  function Published(f: Frame): (p: Option<nat>) {
    match f
    case Ready(page, _, _) => Some(page)
    case Loading(page, _) => Some(page)
    case Flushing(oldPage, _, _) => Some(oldPage)
    case _ => None
  }

  // ---------- index ranges: the vector accesses of the source do not panic ----------

  predicate FrameInRange(m: Model, f: Frame) {
    match f
    case Free => true
    case Reserved(target, owner) => target < m.pageCount && owner < m.backendCount
    case Flushing(oldPage, target, owner) => oldPage < m.pageCount && target < m.pageCount && owner < m.backendCount
    case Loading(page, _) => page < m.pageCount
    case Ready(page, _, _) => page < m.pageCount
  }

  predicate BackendInRange(m: Model, b: Backend) {
    && (!b.Idle? ==> b.page < m.pageCount)
    && (b.Reserved? || b.Waiting? || Pins(b) ==> b.frame < m.frameCount)
  }

  predicate Ranges(m: Model, s: State) {
    && |s.frames| == m.frameCount && |s.backends| == m.backendCount && |s.pageTable| == m.pageCount
    && (forall f | 0 <= f < |s.frames| :: FrameInRange(m, s.frames[f]))
    && (forall b | 0 <= b < |s.backends| :: BackendInRange(m, s.backends[b]))
    && (forall p | 0 <= p < |s.pageTable| :: s.pageTable[p].Some? ==> s.pageTable[p].value < m.frameCount)
  }

  predicate ActionInRange(m: Model, a: Action) {
    match a
    case DoRequest(b, p) => b < m.backendCount && p < m.pageCount
    case Reserve(b, f) => b < m.backendCount && f < m.frameCount
    case Submit(f) => f < m.frameCount
    case LoadDone(f, _) => f < m.frameCount
    case FlushDone(f, _) => f < m.frameCount
    case _ => a.backend < m.backendCount
  }

  // ---------- actions ----------

  /** The frame that currently publishes page p. */
  function Mapped(m: Model, s: State, p: nat): (f: Option<Frame>)
    requires Ranges(m, s) && p < m.pageCount
  {
    match s.pageTable[p]
    case None => None
    case Some(f) => Some(s.frames[f])
  }

  predicate Evictable(f: Frame) {
    f.Free? || (f.Ready? && f.pins == 0)
  }

  /** When `actions` offers an action. */
  predicate Offered(m: Model, s: State, a: Action)
    requires Ranges(m, s)
  {
    && ActionInRange(m, a)
    && match a
       case DoRequest(b, _) => s.backends[b].Idle?
       case Lookup(b) =>
         var k := s.backends[b];
         || (k.Request? && var w := Mapped(m, s, k.page); !(w.Some? && w.value.Flushing?))
         || (k.Miss? && var w := Mapped(m, s, k.page); w.Some? && (w.value.Ready? || w.value.Loading?))
       case Reserve(b, f) => s.backends[b].Miss? && Evictable(s.frames[f])
       case Publish(b) => s.backends[b].Reserved? && s.frames[s.backends[b].frame].Reserved?
       case Submit(f) => s.frames[f].Loading? && !s.frames[f].ioStarted
       case LoadDone(f, _) => s.frames[f].Loading? && s.frames[f].ioStarted
       case FlushDone(f, _) => s.frames[f].Flushing?
       case Cancel(b) => s.backends[b].Waiting?
       case Read(b) =>
         && s.backends[b].Pinned?
         && forall c | 0 <= c < |s.backends| :: !Writes(s.backends[c], s.backends[b].frame)
       case Write(b) =>
         && s.backends[b].Pinned?
         && forall c | 0 <= c < |s.backends| :: !Uses(s.backends[c], s.backends[b].frame)
       case EndAccess(b) => s.backends[b].Reading? || s.backends[b].Writing?
       case Unpin(b) => s.backends[b].Pinned?
  }

  // ---------- transitions ----------

  /** `State::join`: pin a Ready frame, wait on a Loading one, otherwise ask again. */
  function Join(s: State, b: nat, f: nat, p: nat, retry: bool): (t: State)
    requires b < |s.backends| && f < |s.frames|
  {
    match s.frames[f]
    case Ready(q, pins, dirty) =>
      s.(frames := s.frames[f := Ready(q, pins + 1, dirty)], backends := s.backends[b := Pinned(f, p)])
    case Loading(_, _) => s.(backends := s.backends[b := Waiting(f, p, retry)])
    case _ => s.(backends := s.backends[b := Request(p, retry)])
  }

  function WaiterCount(bs: seq<Backend>, f: nat): (n: nat) {
    if bs == [] then 0
    else WaiterCount(bs[..|bs| - 1], f) + if WaitsOn(bs[|bs| - 1], f) then 1 else 0
  }

  /** What completing the load of frame f does to one backend. */
  function HandOff(b: Backend, f: nat, success: bool): (c: Backend) {
    if !WaitsOn(b, f) then b
    else if success then Pinned(f, b.page)
    else Request(b.page, true)
  }

  function HandOffAll(bs: seq<Backend>, f: nat, success: bool): (cs: seq<Backend>)
    ensures |cs| == |bs|
    ensures forall i | 0 <= i < |bs| :: cs[i] == HandOff(bs[i], f, success)
  {
    seq(|bs|, i requires 0 <= i < |bs| => HandOff(bs[i], f, success))
  }

  predicate RetryWaits(bs: seq<Backend>, f: nat) {
    exists b | 0 <= b < |bs| :: WaitsOn(bs[b], f) && bs[b].retry
  }

  /** `next_state`. None also stands for the arithmetic underflow of an unbalanced unpin. */
  function Apply(m: Model, s: State, a: Action): (r: Option<State>)
    requires Ranges(m, s) && ActionInRange(m, a)
  {
    var s := s.(event := NoEvent);
    match a
    case DoRequest(b, p) => Some(s.(backends := s.backends[b := Request(p, false)]))
    case Lookup(b) =>
      var k := s.backends[b];
      if !(k.Request? || k.Miss?) then None
      else (match s.pageTable[k.page]
            case Some(f) => Some(Join(s, b, f, k.page, k.retry))
            case None => Some(s.(backends := s.backends[b := Miss(k.page, k.retry)])))
    case Reserve(b, f) =>
      var k := s.backends[b];
      if !k.Miss? || !Evictable(s.frames[f]) then None
      else
        var s := s.(backends := s.backends[b := Backend.Reserved(f, k.page, k.retry)]);
        (match s.frames[f]
         case Ready(q, _, true) => Some(s.(frames := s.frames[f := Flushing(q, k.page, b)]))
         case Ready(q, _, false) =>
           Some(s.(frames := s.frames[f := Frame.Reserved(k.page, b)], pageTable := s.pageTable[q := None]))
         case _ => Some(s.(frames := s.frames[f := Frame.Reserved(k.page, b)])))
    case Publish(b) =>
      var k := s.backends[b];
      if !k.Reserved? then None
      else (match s.pageTable[k.page]
            case Some(w) =>
              var s := s.(frames := s.frames[k.frame := Free]);
              Some(Join(s, b, w, k.page, k.retry).(event := RaceReleased(k.frame)))
            case None =>
              Some(s.(
                   frames := s.frames[k.frame := Loading(k.page, false)],
                   backends := s.backends[b := Waiting(k.frame, k.page, k.retry)],
                   pageTable := s.pageTable[k.page := Some(k.frame)])))
    case Submit(f) =>
      if !(s.frames[f].Loading? && !s.frames[f].ioStarted) then None
      else Some(s.(frames := s.frames[f := Loading(s.frames[f].page, true)]))
    case LoadDone(f, success) =>
      if !(s.frames[f].Loading? && s.frames[f].ioStarted) then None
      else
        var p := s.frames[f].page;
        var cs := HandOffAll(s.backends, f, success);
        if success then
          Some(s.(frames := s.frames[f := Ready(p, WaiterCount(s.backends, f), false)],
               backends := cs,
               event := if RetryWaits(s.backends, f) then RetrySucceeded else NoEvent))
        else
          Some(s.(frames := s.frames[f := Free],
               backends := cs,
               pageTable := s.pageTable[p := None],
               event := LoadFailed(f, p)))
    case FlushDone(f, success) =>
      if !s.frames[f].Flushing? then None
      else
        var Flushing(oldPage, target, owner) := s.frames[f];
        if success then
          Some(s.(frames := s.frames[f := Frame.Reserved(target, owner)], pageTable := s.pageTable[oldPage := None]))
        else if !s.backends[owner].Reserved? then None
        else
          Some(s.(frames := s.frames[f := Ready(oldPage, 0, true)],
               backends := s.backends[owner := Request(target, s.backends[owner].retry)],
               event := FlushFailed(f, oldPage)))
    case Cancel(b) => Some(s.(backends := s.backends[b := Idle]))
    case Read(b) =>
      var k := s.backends[b];
      if !k.Pinned? then None
      else Some(s.(backends := s.backends[b := Reading(k.frame, k.page)]))
    case Write(b) =>
      var k := s.backends[b];
      if !k.Pinned? then None
      else
        var s := s.(backends := s.backends[b := Writing(k.frame, k.page)]);
        (match s.frames[k.frame]
         case Ready(q, pins, _) => Some(s.(frames := s.frames[k.frame := Ready(q, pins, true)]))
         case _ => Some(s))
    case EndAccess(b) =>
      var k := s.backends[b];
      if !Pins(k) then None
      else Some(s.(backends := s.backends[b := Pinned(k.frame, k.page)]))
    case Unpin(b) =>
      var k := s.backends[b];
      if !k.Pinned? then None
      else
        var s := s.(backends := s.backends[b := Idle]);
        (match s.frames[k.frame]
         case Ready(q, pins, dirty) =>
           if pins == 0 then None
           else Some(s.(frames := s.frames[k.frame := Ready(q, pins - 1, dirty)]))
         case _ => Some(s))
  }

  function Init(m: Model): (s: State) {
    State(seq(m.frameCount, _ => Free), seq(m.backendCount, _ => Idle), seq(m.pageCount, _ => None), NoEvent)
  }

  predicate Step(m: Model, s: State, a: Action, t: State) {
    Ranges(m, s) && Offered(m, s, a) && Apply(m, s, a) == Some(t)
  }

  /** A run from the initial state: states[i] steps to states[i + 1] by actions[i]. */
  ghost predicate IsRun(m: Model, states: seq<State>, actions: seq<Action>) {
    && |states| == |actions| + 1
    && states[0] == Init(m)
    && forall i | 0 <= i < |actions| :: Step(m, states[i], actions[i], states[i + 1])
  }

  ghost predicate Reachable(m: Model, s: State) {
    exists states, actions :: IsRun(m, states, actions) && states[|actions|] == s
  }

  // ---------- the always-properties, as the source states them ----------

  /** "access requires ready matching pinned frame" */
  predicate AccessMatches(m: Model, s: State)
    requires Ranges(m, s)
  {
    forall b | 0 <= b < |s.backends| :: Pins(s.backends[b]) ==>
      var f := s.frames[s.backends[b].frame];
      f.Ready? && f.page == s.backends[b].page && f.pins > 0
  }

  /** "unique published page independent of map" */
  predicate UniquePublished(s: State) {
    forall f, g | 0 <= g < f < |s.frames| ::
      Published(s.frames[f]).Some? ==> Published(s.frames[g]) != Published(s.frames[f])
  }

  /** "mapping bijection" */
  predicate Bijection(m: Model, s: State)
    requires Ranges(m, s)
  {
    && (forall f | 0 <= f < |s.frames| ::
         Published(s.frames[f]).Some? ==> s.pageTable[Published(s.frames[f]).value] == Some(f))
    && (forall p | 0 <= p < |s.pageTable| ::
         s.pageTable[p].Some? ==> Published(s.frames[s.pageTable[p].value]) == Some(p))
  }

  function PinCount(bs: seq<Backend>, f: nat): (n: nat) {
    if bs == [] then 0
    else PinCount(bs[..|bs| - 1], f) + if PinsFrame(bs[|bs| - 1], f) then 1 else 0
  }

  /** "pin accounting and no pinned eviction" */
  predicate PinAccounting(s: State) {
    forall f | 0 <= f < |s.frames| ::
      PinCount(s.backends, f) == if s.frames[f].Ready? then s.frames[f].pins else 0
  }

  /** "reservation and waiter ownership" */
  predicate Ownership(m: Model, s: State)
    requires Ranges(m, s)
  {
    && (forall b | 0 <= b < |s.backends| :: s.backends[b].Reserved? ==>
         var f := s.frames[s.backends[b].frame];
         (f.Reserved? || f.Flushing?) && f.owner == b && f.target == s.backends[b].page)
    && (forall b | 0 <= b < |s.backends| :: s.backends[b].Waiting? ==>
         var f := s.frames[s.backends[b].frame];
         f.Loading? && f.page == s.backends[b].page)
    && (forall f | 0 <= f < |s.frames| :: s.frames[f].Reserved? || s.frames[f].Flushing? ==>
         var b := s.backends[s.frames[f].owner];
         b.Reserved? && b.frame == f && b.page == s.frames[f].target)
  }

  /** "writer exclusivity" */
  predicate WriterExclusive(s: State) {
    forall b, c | 0 <= b < |s.backends| && 0 <= c < |s.backends| && b != c ::
      s.backends[b].Writing? ==> !Uses(s.backends[c], s.backends[b].frame)
  }

  /** "failed load immediately reusable and waiters notified" */
  predicate FailedLoadReleased(s: State) {
    s.event.LoadFailed? ==>
      && s.event.frame < |s.frames| && s.frames[s.event.frame] == Free
      && s.event.page < |s.pageTable| && s.pageTable[s.event.page] == None
      && forall b | 0 <= b < |s.backends| :: !WaitsOn(s.backends[b], s.event.frame)
  }

  /** "failed writeback retains dirty old page" */
  predicate FailedFlushRetains(s: State) {
    s.event.FlushFailed? ==>
      && s.event.frame < |s.frames| && s.frames[s.event.frame] == Ready(s.event.page, 0, true)
      && s.event.page < |s.pageTable| && s.pageTable[s.event.page] == Some(s.event.frame)
  }

  /** "publication loser releases extra frame" */
  predicate LoserReleases(s: State) {
    s.event.RaceReleased? ==>
      && s.event.frame < |s.frames| && s.frames[s.event.frame] == Free
      && Some(s.event.frame) !in s.pageTable
  }

  predicate AlwaysProperties(m: Model, s: State)
    requires Ranges(m, s)
  {
    && AccessMatches(m, s) && UniquePublished(s) && Bijection(m, s) && PinAccounting(s)
    && Ownership(m, s) && WriterExclusive(s)
    && FailedLoadReleased(s) && FailedFlushRetains(s) && LoserReleases(s)
  }
}
