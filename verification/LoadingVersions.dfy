/** No write is lost: the loading protocol carries page bytes between the store and the
    frames, under arbitrary interleavings of failures, cancellations and lost races. */
module LoadingVersions {
  import opened Options
  import opened LoadingProtocol
  import opened LoadingSafety

  type Bytes = seq<bv8>

  /** The protocol state with the bytes it moves: `latest` is what the last write to each page
      left, `stored` the backing store, `held` the frames. */
  datatype Carried = Carried(proto: State, latest: seq<Bytes>, stored: seq<Bytes>, held: seq<Bytes>)

  /** A protocol step, or a writer changing its page again before it ends its access. `bytes`
      is what a write writes, what a failed writeback leaves in the store, or what a failed
      load leaves in the frame. */
  datatype Move = Move(action: Action, bytes: Bytes) | Modify(backend: nat, bytes: Bytes)

  predicate Shaped(m: Model, c: Carried) {
    Sized(m, c.proto) && |c.latest| == m.pageCount && |c.stored| == m.pageCount && |c.held| == m.frameCount
  }

  /** The bytes after an offered action. */
  function Carry(m: Model, c: Carried, a: Action, bytes: Bytes, t: State): (d: Carried)
    requires Shaped(m, c) && Step(m, c.proto, a, t)
  {
    var s := c.proto;
    match a
    case Write(b) =>
      c.(proto := t, latest := c.latest[s.backends[b].page := bytes], held := c.held[s.backends[b].frame := bytes])
    case LoadDone(f, success) =>
      c.(proto := t, held := c.held[f := if success then c.stored[s.frames[f].page] else bytes])
    case FlushDone(f, success) =>
      c.(proto := t, stored := c.stored[s.frames[f].oldPage := if success then c.held[f] else bytes])
    case _ => c.(proto := t)
  }

  ghost predicate Moves(m: Model, c: Carried, v: Move, d: Carried) {
    && Shaped(m, c) && Ranges(m, c.proto)
    && match v
       case Move(a, bytes) => Step(m, c.proto, a, d.proto) && d == Carry(m, c, a, bytes, d.proto)
       case Modify(b, bytes) =>
         && b < m.backendCount && c.proto.backends[b].Writing?
         && d == c.(latest := c.latest[c.proto.backends[b].page := bytes],
                    held := c.held[c.proto.backends[b].frame := bytes])
  }

  /** A run that starts with every page's latest bytes in the store. */
  ghost predicate IsCarriedRun(m: Model, states: seq<Carried>, moves: seq<Move>) {
    && |states| == |moves| + 1
    && Shaped(m, states[0]) && states[0].proto == Init(m) && states[0].latest == states[0].stored
    && forall i | 0 <= i < |moves| :: Moves(m, states[i], moves[i], states[i + 1])
  }

  /** The page a move writes, if any. */
  function Written(s: State, v: Move): (p: Option<nat>) {
    match v
    case Move(Write(b), _) => if b < |s.backends| && Pins(s.backends[b]) then Some(s.backends[b].page) else None
    case Modify(b, _) => if b < |s.backends| && Pins(s.backends[b]) then Some(s.backends[b].page) else None
    case _ => None
  }

  /** The history's answer: what the last write to page p wrote, else its initial bytes. */
  ghost function LastWritten(m: Model, states: seq<Carried>, moves: seq<Move>, p: nat): (bytes: Bytes)
    requires IsCarriedRun(m, states, moves) && p < m.pageCount
    decreases |moves|
  {
    if moves == [] then states[0].stored[p]
    else
      var n := |moves| - 1;
      if Written(states[n].proto, moves[n]) == Some(p) then moves[n].bytes
      else LastWritten(m, states[..n + 1], moves[..n], p)
  }

  /** Where the latest bytes of page p are. */
  predicate PageCoherent(m: Model, c: Carried, p: nat)
    requires Shaped(m, c) && Ranges(m, c.proto) && p < m.pageCount
  {
    match c.proto.pageTable[p]
    case None => c.stored[p] == c.latest[p]
    case Some(f) =>
      match c.proto.frames[f]
      case Ready(_, _, dirty) => c.held[f] == c.latest[p] && (!dirty ==> c.stored[p] == c.latest[p])
      case Flushing(_, _, _) => c.held[f] == c.latest[p]
      case _ => c.stored[p] == c.latest[p]
  }

  predicate WriterDirty(m: Model, s: State, b: nat)
    requires Ranges(m, s) && b < m.backendCount
  {
    s.backends[b].Writing? ==>
      var f := s.frames[s.backends[b].frame]; f.Ready? && f.dirty
  }

  predicate Coherent(m: Model, c: Carried) {
    && Shaped(m, c) && Ranges(m, c.proto) && Inv(m, c.proto)
    && (forall p | 0 <= p < m.pageCount :: PageCoherent(m, c, p))
    && (forall b | 0 <= b < m.backendCount :: WriterDirty(m, c.proto, b))
  }

  lemma StepCoherent(m: Model, c: Carried, a: Action, bytes: Bytes, t: State)
    requires Coherent(m, c) && Step(m, c.proto, a, t)
    ensures Coherent(m, Carry(m, c, a, bytes, t))
  {
    var s := c.proto;
    StepKeeps(m, s, a, t);
    forall p | 0 <= p < m.pageCount ensures PageCoherent(m, Carry(m, c, a, bytes, t), p) {
      PageStepCoherent(m, c, a, bytes, t, p);
    }
    forall b | 0 <= b < m.backendCount ensures WriterDirty(m, t, b) {
      WriterStepDirty(m, s, a, t, b);
    }
  }

  lemma WriterStepDirty(m: Model, s: State, a: Action, t: State, b: nat)
    requires Inv(m, s) && Inv(m, t) && Ranges(m, t) && Step(m, s, a, t) && b < m.backendCount
    requires WriterDirty(m, s, b)
    ensures WriterDirty(m, t, b)
  {
    hide PinCount;
    assert BackendOk(m, s, b) && BackendOk(m, t, b);
    if t.backends[b].Writing? && s.backends[b].Writing? {
      var f := s.backends[b].frame;
      PinCountPositive(s.backends, b, f);
      assert s.frames[f].pins > 0;
    }
  }

  lemma PageStepCoherent(m: Model, c: Carried, a: Action, bytes: Bytes, t: State, p: nat)
    requires Coherent(m, c) && Step(m, c.proto, a, t) && Inv(m, t) && Ranges(m, t) && p < m.pageCount
    ensures PageCoherent(m, Carry(m, c, a, bytes, t), p)
  {
    var s := c.proto;
    assert PageCoherent(m, c, p);
    assert TableOk(m, s, p) && TableOk(m, t, p);
    match a {
      case Reserve(b, f) =>
        assert FrameOk(m, s, f);
        ReserveCoherent(m, c, b, f, t, p);
      case Publish(b) =>
        assert BackendOk(m, s, b);
        PublishCoherent(m, c, b, t, p);
      case LoadDone(f, ok) =>
        assert FrameOk(m, s, f);
        LoadDoneCoherent(m, c, f, ok, bytes, t, p);
      case FlushDone(f, ok) =>
        assert FrameOk(m, s, f);
        FlushDoneCoherent(m, c, f, ok, bytes, t, p);
      case Write(b) =>
        assert BackendOk(m, s, b);
        assert FrameOk(m, s, s.backends[b].frame);
        WriteCoherent(m, c, b, bytes, t, p);
      case _ => QuietCoherent(m, c, a, bytes, t, p);
    }
  }

  /** What the page lemmas below know about page p before and after the step. */
  predicate Before(m: Model, c: Carried, t: State, p: nat) {
    && Shaped(m, c) && Ranges(m, c.proto) && Sized(m, t) && Ranges(m, t) && p < m.pageCount
    && PageCoherent(m, c, p) && TableOk(m, c.proto, p) && TableOk(m, t, p)
  }

  lemma QuietCoherent(m: Model, c: Carried, a: Action, bytes: Bytes, t: State, p: nat)
    requires Step(m, c.proto, a, t) && Before(m, c, t, p)
    requires MovesBackend(a) || a.Lookup? || a.Submit?
    requires !a.Write?
    ensures PageCoherent(m, Carry(m, c, a, bytes, t), p)
  {
  }

  lemma ReserveCoherent(m: Model, c: Carried, b: nat, f: nat, t: State, p: nat)
    requires Step(m, c.proto, Reserve(b, f), t) && Before(m, c, t, p) && FrameOk(m, c.proto, f)
    ensures PageCoherent(m, c.(proto := t), p)
  {
  }

  lemma PublishCoherent(m: Model, c: Carried, b: nat, t: State, p: nat)
    requires Step(m, c.proto, Publish(b), t) && Before(m, c, t, p) && BackendOk(m, c.proto, b)
    ensures PageCoherent(m, c.(proto := t), p)
  {
  }

  lemma LoadDoneCoherent(m: Model, c: Carried, f: nat, success: bool, bytes: Bytes, t: State, p: nat)
    requires Step(m, c.proto, LoadDone(f, success), t) && Before(m, c, t, p) && FrameOk(m, c.proto, f)
    ensures PageCoherent(m, Carry(m, c, LoadDone(f, success), bytes, t), p)
  {
  }

  lemma FlushDoneCoherent(m: Model, c: Carried, f: nat, success: bool, bytes: Bytes, t: State, p: nat)
    requires Step(m, c.proto, FlushDone(f, success), t) && Before(m, c, t, p) && FrameOk(m, c.proto, f)
    ensures PageCoherent(m, Carry(m, c, FlushDone(f, success), bytes, t), p)
  {
  }

  lemma WriteCoherent(m: Model, c: Carried, b: nat, bytes: Bytes, t: State, p: nat)
    requires Step(m, c.proto, Write(b), t) && Before(m, c, t, p) && BackendOk(m, c.proto, b)
    requires FrameOk(m, c.proto, c.proto.backends[b].frame)
    ensures PageCoherent(m, Carry(m, c, Write(b), bytes, t), p)
  {
  }

  lemma ModifyCoherent(m: Model, c: Carried, b: nat, bytes: Bytes, d: Carried)
    requires Coherent(m, c) && Moves(m, c, Modify(b, bytes), d)
    ensures Coherent(m, d)
  {
    var k := c.proto.backends[b];
    assert BackendOk(m, c.proto, b) && WriterDirty(m, c.proto, b);
    assert FrameOk(m, c.proto, k.frame);
    forall p | 0 <= p < m.pageCount ensures PageCoherent(m, d, p) {
      assert PageCoherent(m, c, p) && TableOk(m, c.proto, p);
    }
    assert forall e | 0 <= e < m.backendCount :: WriterDirty(m, c.proto, e);
  }

  lemma {:induction false} RunCoherent(m: Model, states: seq<Carried>, moves: seq<Move>, i: nat)
    requires IsCarriedRun(m, states, moves) && i < |states|
    ensures Coherent(m, states[i])
  {
    if i == 0 {
      InitInv(m);
    } else {
      RunCoherent(m, states, moves, i - 1);
      match moves[i - 1] {
        case Move(a, bytes) => StepCoherent(m, states[i - 1], a, bytes, states[i].proto);
        case Modify(b, bytes) => ModifyCoherent(m, states[i - 1], b, bytes, states[i]);
      }
    }
  }

  /** `latest` is what the history of the run says was written last. */
  lemma {:induction false} LatestIsLastWritten(m: Model, states: seq<Carried>, moves: seq<Move>, p: nat)
    requires IsCarriedRun(m, states, moves) && p < m.pageCount
    ensures Shaped(m, states[|moves|]) && states[|moves|].latest[p] == LastWritten(m, states, moves, p)
    decreases |moves|
  {
    RunCoherent(m, states, moves, |moves|);
    if moves != [] {
      var n := |moves| - 1;
      assert states[..n + 1][n] == states[n];
      LatestIsLastWritten(m, states[..n + 1], moves[..n], p);
      RunCoherent(m, states, moves, n);
      if moves[n].Modify? { assert BackendOk(m, states[n].proto, moves[n].backend); }
    }
  }

  /** At the end of every run the bytes last written to a page are in the store, or in a frame
      that publishes the page and is dirty or being written back. */
  lemma NoWriteIsLost(m: Model, states: seq<Carried>, moves: seq<Move>, p: nat)
    requires IsCarriedRun(m, states, moves) && p < m.pageCount
    ensures var c := states[|moves|]; var last := LastWritten(m, states, moves, p);
            || (Shaped(m, c) && c.stored[p] == last)
            || exists f: nat :: f < |c.held| && f < |c.proto.frames| && Published(c.proto.frames[f]) == Some(p)
                 && (c.proto.frames[f].Flushing? || (c.proto.frames[f].Ready? && c.proto.frames[f].dirty))
                 && c.held[f] == last
  {
    LatestIsLastWritten(m, states, moves, p);
    RunCoherent(m, states, moves, |moves|);
    var c := states[|moves|];
    assert PageCoherent(m, c, p) && TableOk(m, c.proto, p);
  }

  /** A backend that pins a page, reading or writing it or not, always sees the bytes last
      written to that page. */
  lemma AccessSeesLastWrite(m: Model, states: seq<Carried>, moves: seq<Move>, b: nat)
    requires IsCarriedRun(m, states, moves)
    requires var c := states[|moves|]; b < |c.proto.backends| && Pins(c.proto.backends[b])
    ensures var c := states[|moves|]; var k := c.proto.backends[b];
            k.frame < |c.held| && k.page < m.pageCount && c.held[k.frame] == LastWritten(m, states, moves, k.page)
  {
    RunCoherent(m, states, moves, |moves|);
    var c := states[|moves|];
    var k := c.proto.backends[b];
    assert BackendOk(m, c.proto, b);
    assert FrameOk(m, c.proto, k.frame) && PageCoherent(m, c, k.page);
    LatestIsLastWritten(m, states, moves, k.page);
  }
}
