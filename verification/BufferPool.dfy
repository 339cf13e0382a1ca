/** Page stores and the synchronous buffer pool of crates/storage/src/store.rs and buffer.rs. */
module BufferPools {
  import opened Options
  import opened Utf8

  const PAGE_SIZE: nat := 8192
  const MAX_PINS: nat := 0xFFFF_FFFF

  type Page = p: seq<byte> | |p| == PAGE_SIZE witness seq(PAGE_SIZE, _ => 0)
  const PAGE_IDS: nat := 0x1_0000_0000
  type PageId = x: int | 0 <= x < 0x1_0000_0000

  function ZeroPage(): (p: Page)
    ensures forall i | 0 <= i < PAGE_SIZE :: p[i] == 0
  {
    seq(PAGE_SIZE, _ => 0)
  }

  datatype BufferError = AllPinned | InvalidVictim(buffer: nat) | PinOverflow | Io

  /** A live `PinnedBuffer`. */
  datatype Pin = Pin(index: nat, page: PageId)

  /** The pool's state: frame bytes, the descriptors' tag, pin count and dirty bit, the page
      mapping, and the outstanding pins. */
  datatype Frames = Frames(
    buffers: seq<Page>,
    tags: seq<Option<PageId>>,
    pins: seq<nat>,
    dirty: seq<bool>,
    pages: map<PageId, nat>,
    live: multiset<Pin>)

  predicate Sized(f: Frames) {
    |f.buffers| == |f.tags| == |f.pins| == |f.dirty|
  }

  /** A frame holds the page its tag names, clean frames equal the store, and the pin count is
      the number of outstanding pins on the frame. */
  predicate FrameOk(f: Frames, disk: seq<Page>, i: nat)
    requires Sized(f) && i < |f.tags|
  {
    match f.tags[i]
    case None => f.pins[i] == 0
    case Some(p) =>
      && p in f.pages && f.pages[p] == i && p < |disk|
      && (!f.dirty[i] ==> f.buffers[i] == disk[p])
      && f.pins[i] == f.live[Pin(i, p)]
  }

  predicate MappingOk(f: Frames, p: PageId) {
    p in f.pages ==> f.pages[p] < |f.tags| && f.tags[f.pages[p]] == Some(p)
  }

  /** An outstanding pin's frame still holds its page. */
  predicate PinOk(f: Frames, h: Pin) {
    h in f.live ==> h.index < |f.tags| && f.tags[h.index] == Some(h.page)
  }

  /** Assigned frames are exactly the first `pages.len()`. */
  predicate Dense(f: Frames) {
    |f.pages| <= |f.tags| && forall i | 0 <= i < |f.tags| :: f.tags[i].Some? <==> i < |f.pages|
  }

  ghost predicate Coherent(f: Frames, disk: seq<Page>) {
    && |disk| <= PAGE_IDS && Sized(f) && |f.tags| > 0 && Dense(f)
    && (forall i | 0 <= i < |f.tags| :: FrameOk(f, disk, i))
    && (forall p :: MappingOk(f, p))
    && (forall h :: PinOk(f, h))
  }

  /** The bytes of page p: its frame's if it is resident, the store's otherwise. */
  function Content(f: Frames, disk: seq<Page>, p: PageId): (data: Page)
    requires Sized(f) && MappingOk(f, p) && p < |disk|
  {
    if p in f.pages then f.buffers[f.pages[p]] else disk[p]
  }

  /** The pool as a plain map from page ID to bytes. */
  ghost function Logical(f: Frames, disk: seq<Page>): (c: seq<Page>)
    requires Coherent(f, disk)
    ensures |c| == |disk| && forall p | 0 <= p < |c| :: c[p] == Content(f, disk, p)
  {
    seq(|disk|, p requires 0 <= p < |disk| => assert MappingOk(f, p); Content(f, disk, p))
  }

  // ---------- the pool's updates, on values ----------

  /** Frame i holds `page` with the given bytes, clean, with one pin. */
  function Installed(f: Frames, i: nat, page: PageId, data: Page): (g: Frames)
    requires Sized(f) && i < |f.tags|
  {
    var rest := match f.tags[i] case Some(p) => f.pages - {p} case None => f.pages;
    Frames(f.buffers[i := data], f.tags[i := Some(page)], f.pins[i := 1], f.dirty[i := false],
           rest[page := i], f.live + multiset{Pin(i, page)})
  }

  /** A frame that may be given to another page: unpinned, and its old page is in the store. */
  predicate Replaceable(f: Frames, disk: seq<Page>, i: nat) {
    && Sized(f) && i < |f.tags| && f.pins[i] == 0
    && match f.tags[i]
       case None => i == |f.pages|
       case Some(p) => p < |disk| && disk[p] == f.buffers[i]
  }

  lemma NoPinsOn(f: Frames, disk: seq<Page>, i: nat)
    requires Coherent(f, disk) && i < |f.tags| && f.pins[i] == 0
    ensures forall p :: Pin(i, p) !in f.live
  {
    forall p ensures Pin(i, p) !in f.live {
      assert PinOk(f, Pin(i, p)) && FrameOk(f, disk, i);
    }
  }

  /** Replacing a page loses nothing: the logical contents do not change, whichever frame a
      policy picked, because the mapping is a bijection and the frame has no pins. */
  lemma InstallOk(f: Frames, disk: seq<Page>, i: nat, page: PageId)
    requires Coherent(f, disk) && Replaceable(f, disk, i) && page < |disk| && page !in f.pages
    ensures Coherent(Installed(f, i, page, disk[page]), disk)
    ensures Logical(Installed(f, i, page, disk[page]), disk) == Logical(f, disk)
  {
    var g := Installed(f, i, page, disk[page]);
    assert FrameOk(f, disk, i);
    NoPinsOn(f, disk, i);
    InstallSize(f, disk, i, page);
    forall p ensures MappingOk(g, p) { assert MappingOk(f, p); }
    forall j | 0 <= j < |g.tags| ensures FrameOk(g, disk, j) { assert FrameOk(f, disk, j); }
    forall h ensures PinOk(g, h) { assert PinOk(f, h); }
    forall p | 0 <= p < |disk| ensures Content(g, disk, p) == Content(f, disk, p) { assert MappingOk(f, p); }
  }

  lemma InstallSize(f: Frames, disk: seq<Page>, i: nat, page: PageId)
    requires Coherent(f, disk) && Replaceable(f, disk, i) && page !in f.pages
    ensures |Installed(f, i, page, ZeroPage()).pages| == |f.pages| + if f.tags[i].None? then 1 else 0
  {
    assert FrameOk(f, disk, i);
    var g := Installed(f, i, page, ZeroPage());
    if f.tags[i].Some? {
      var p := f.tags[i].value;
      assert g.pages.Keys == f.pages.Keys - {p} + {page};
    } else {
      assert g.pages.Keys == f.pages.Keys + {page};
    }
  }

  /** What pinning a page may do to the others: nothing if it was resident, and none of them
      leaves while a frame is unused. */
  predicate Resident(f: Frames, g: Frames, capacity: nat, page: PageId) {
    && page in g.pages && DirtyPages(g) == DirtyPages(f) * g.pages.Keys
    && (page in f.pages ==> g.pages == f.pages)
    && (|f.pages| < capacity ==> f.pages.Keys <= g.pages.Keys)
  }

  /** The new page is clean, and the page it replaces is the one that leaves. */
  lemma InstallResident(f: Frames, disk: seq<Page>, i: nat, page: PageId, data: Page)
    requires Coherent(f, disk) && Replaceable(f, disk, i) && page !in f.pages
    requires |f.pages| < |f.tags| ==> f.tags[i].None?
    ensures Resident(f, Installed(f, i, page, data), |f.tags|, page)
  {
    var g := Installed(f, i, page, data);
    forall p: PageId ensures p in DirtyPages(g) <==> p in DirtyPages(f) && p in g.pages {
      assert MappingOk(f, p);
    }
    assert FrameOk(f, disk, i);
  }

  lemma SameDirty(f: Frames, g: Frames)
    requires g.pages == f.pages && g.dirty == f.dirty
    ensures DirtyPages(g) == DirtyPages(f)
  {
  }

  lemma DirtyResident(f: Frames)
    ensures DirtyPages(f) == DirtyPages(f) * f.pages.Keys
  {
  }

  lemma AbsentPage(f: Frames, disk: seq<Page>, page: PageId)
    requires Coherent(f, disk) && page !in f.pages
    ensures DirtyPages(f) == DirtyPages(f) - {page}
    ensures page < |disk| ==> |Logical(f, disk)| == |disk| && Logical(f, disk)[page] == disk[page]
  {
  }

  lemma SameStore(disk: seq<Page>, page: PageId)
    ensures Wrote(disk, disk, page)
  {
  }

  lemma OverwrittenDirty(f: Frames, disk: seq<Page>, h: Pin, data: Page)
    requires Coherent(f, disk) && h in f.live && h.index < |f.tags|
    ensures DirtyPages(Overwritten(f, h.index, data)) == DirtyPages(f) + {h.page}
  {
    assert PinOk(f, h) && FrameOk(f, disk, h.index);
    forall p: PageId ensures p in DirtyPages(Overwritten(f, h.index, data)) <==> p in DirtyPages(f) || p == h.page {
      assert MappingOk(f, p);
    }
  }

  lemma CleanedPages(f: Frames, disk: seq<Page>, h: Pin)
    requires Coherent(f, disk) && h in f.live && h.index < |f.tags|
    ensures DirtyPages(f.(dirty := f.dirty[h.index := false])) == DirtyPages(f) - {h.page}
  {
    assert PinOk(f, h) && FrameOk(f, disk, h.index);
    var g := f.(dirty := f.dirty[h.index := false]);
    forall p: PageId ensures p in DirtyPages(g) <==> p in DirtyPages(f) && p != h.page {
      assert MappingOk(f, p);
    }
  }

  /** The store after an attempt to write one page: the page itself may hold anything. */
  predicate Wrote(before: seq<Page>, after: seq<Page>, p: PageId) {
    |after| == |before| && forall q | 0 <= q < |before| && q != p :: after[q] == before[q]
  }

  /** Writing a dirty resident page back, even a failed or torn write, is invisible. */
  lemma WritebackOk(f: Frames, disk: seq<Page>, disk': seq<Page>, i: nat)
    requires Coherent(f, disk) && i < |f.tags| && f.tags[i].Some? && f.dirty[i] && Wrote(disk, disk', f.tags[i].value)
    ensures Coherent(f, disk') && Logical(f, disk') == Logical(f, disk)
  {
    assert FrameOk(f, disk, i);
    forall j | 0 <= j < |f.tags| ensures FrameOk(f, disk', j) { assert FrameOk(f, disk, j); }
    forall p | 0 <= p < |disk| ensures Content(f, disk', p) == Content(f, disk, p) { assert MappingOk(f, p); }
  }

  lemma ResidentStored(f: Frames, disk: seq<Page>, p: PageId)
    requires Coherent(f, disk) && p in f.pages
    ensures p < |disk|
  {
    assert MappingOk(f, p);
    assert FrameOk(f, disk, f.pages[p]);
  }

  /** Allocating a page appends to the store and changes no existing page. */
  lemma AllocateOk(f: Frames, disk: seq<Page>, data: Page)
    requires Coherent(f, disk) && |disk| < PAGE_IDS
    ensures |disk| !in f.pages
    ensures Coherent(f, disk + [data]) && Logical(f, disk + [data]) == Logical(f, disk) + [data]
  {
    var disk' := disk + [data];
    forall p | p in f.pages ensures p < |disk| { ResidentStored(f, disk, p); }
    forall j | 0 <= j < |f.tags| ensures FrameOk(f, disk', j) { assert FrameOk(f, disk, j); }
    forall p | 0 <= p < |disk'|
      ensures Logical(f, disk')[p] == (Logical(f, disk) + [data])[p]
    {
      assert MappingOk(f, p);
    }
  }

  /** Marking frame i clean is right once the store holds its bytes. */
  lemma CleanOk(f: Frames, disk: seq<Page>, i: nat)
    requires Coherent(f, disk) && i < |f.tags| && f.tags[i].Some? && f.tags[i].value < |disk| &&
               disk[f.tags[i].value] == f.buffers[i]
    ensures var g := f.(dirty := f.dirty[i := false]); Coherent(g, disk) && Logical(g, disk) == Logical(f, disk)
  {
    var g := f.(dirty := f.dirty[i := false]);
    forall j | 0 <= j < |g.tags| ensures FrameOk(g, disk, j) { assert FrameOk(f, disk, j); }
    forall p ensures MappingOk(g, p) { assert MappingOk(f, p); }
    forall h ensures PinOk(g, h) { assert PinOk(f, h); }
  }

  function Pinned(f: Frames, i: nat, page: PageId): (g: Frames)
    requires Sized(f) && i < |f.tags|
  {
    f.(pins := f.pins[i := f.pins[i] + 1], live := f.live + multiset{Pin(i, page)})
  }

  lemma PinnedOk(f: Frames, disk: seq<Page>, page: PageId)
    requires Coherent(f, disk) && page in f.pages && f.pages[page] < |f.tags|
    ensures Coherent(Pinned(f, f.pages[page], page), disk) &&
              Logical(Pinned(f, f.pages[page], page), disk) == Logical(f, disk)
  {
    var g := Pinned(f, f.pages[page], page);
    assert MappingOk(f, page);
    forall j | 0 <= j < |g.tags| ensures FrameOk(g, disk, j) { assert FrameOk(f, disk, j); }
    forall p ensures MappingOk(g, p) { assert MappingOk(f, p); }
    forall h ensures PinOk(g, h) { assert PinOk(f, h); }
  }

  function Dropped(f: Frames, h: Pin): (g: Frames)
    requires Sized(f) && h.index < |f.tags| && f.pins[h.index] > 0
  {
    f.(pins := f.pins[h.index := f.pins[h.index] - 1], live := f.live - multiset{h})
  }

  lemma DroppedOk(f: Frames, disk: seq<Page>, h: Pin)
    requires Coherent(f, disk) && h in f.live
    ensures h.index < |f.tags| && f.pins[h.index] > 0
    ensures Coherent(Dropped(f, h), disk) && Logical(Dropped(f, h), disk) == Logical(f, disk)
  {
    assert PinOk(f, h) && FrameOk(f, disk, h.index);
    var g := Dropped(f, h);
    forall j | 0 <= j < |g.tags| ensures FrameOk(g, disk, j) { assert FrameOk(f, disk, j); }
    forall p ensures MappingOk(g, p) { assert MappingOk(f, p); }
    forall k ensures PinOk(g, k) { assert PinOk(f, k); }
  }

  function Overwritten(f: Frames, i: nat, data: Page): (g: Frames)
    requires Sized(f) && i < |f.tags|
  {
    f.(buffers := f.buffers[i := data], dirty := f.dirty[i := true])
  }

  /** Writing through a pin changes the pinned page and no other. */
  lemma OverwrittenOk(f: Frames, disk: seq<Page>, h: Pin, data: Page)
    requires Coherent(f, disk) && h in f.live
    ensures h.index < |f.tags| && h.page < |disk|
    ensures Coherent(Overwritten(f, h.index, data), disk)
    ensures Logical(Overwritten(f, h.index, data), disk) == Logical(f, disk)[h.page := data]
  {
    assert PinOk(f, h) && FrameOk(f, disk, h.index);
    var g := Overwritten(f, h.index, data);
    forall j | 0 <= j < |g.tags| ensures FrameOk(g, disk, j) { assert FrameOk(f, disk, j); }
    forall p ensures MappingOk(g, p) { assert MappingOk(f, p); }
    forall k ensures PinOk(g, k) { assert PinOk(f, k); }
    forall p | 0 <= p < |disk|
      ensures Logical(g, disk)[p] == Logical(f, disk)[h.page := data][p]
    {
      assert MappingOk(f, p);
    }
  }

  // ---------- the store and the pool ----------

  /** Any page store: every operation may fail, and a failed write may leave any bytes in the
      page it was writing. `faults` counts the device failures, `unread` says that the last one
      was of a read, and `synced` is what the last successful sync made durable. */
  class PageStore {
    var pages: seq<Page>
    ghost var faults: nat
    ghost var unread: bool
    ghost var synced: seq<Page>

    constructor ()
      ensures pages == []
    {
      pages, faults, unread, synced := [], 0, false, [];
    }

    /** Append-only allocation of a zeroed page. */
    method AllocatePage() returns (r: Option<PageId>)
      modifies this
      ensures r.None? ==> pages == old(pages) && (faults == old(faults) + 1 || |pages| >= PAGE_IDS)
      ensures r.Some? ==> r.value == |old(pages)| && pages == old(pages) + [ZeroPage()]
      ensures r.Some? ==> faults == old(faults)
      ensures old(faults) <= faults
    {
      if * {
        faults, unread := faults + 1, false;
        return None;
      }
      if |pages| >= PAGE_IDS { return None; }
      r := Some(|pages|);
      pages := pages + [ZeroPage()];
    }

    method ReadPage(id: PageId) returns (r: Option<Page>)
      modifies this`faults, this`unread
      ensures r.Some? ==> id < |pages| && r.value == pages[id] && faults == old(faults)
      ensures r.None? ==> (faults == old(faults) + 1 && unread) || id >= |pages|
      ensures old(faults) <= faults
    {
      if * {
        faults, unread := faults + 1, true;
        return None;
      }
      if id >= |pages| { return None; }
      r := Some(pages[id]);
    }

    method WritePage(id: PageId, data: Page) returns (ok: bool)
      modifies this
      ensures Wrote(old(pages), pages, id)
      ensures ok ==> id < |pages| && pages[id] == data && faults == old(faults)
      ensures !ok ==> (faults == old(faults) + 1 && !unread) || id >= |pages|
      ensures old(faults) <= faults
    {
      if id >= |pages| { return false; }
      if * {
        faults, unread := faults + 1, false;
        var torn: Page := *;
        pages := pages[id := torn];
        return false;
      }
      pages := pages[id := data];
      return true;
    }

    method Sync() returns (ok: bool)
      modifies this`faults, this`unread, this`synced
      ensures faults == old(faults) + if ok then 0 else 1
      ensures synced == if ok then pages else old(synced)
    {
      ok := *;
      if ok { synced := pages; } else { faults, unread := faults + 1, false; }
    }
  }

  lemma UnpinnedFrames(f: Frames, disk: seq<Page>)
    requires Coherent(f, disk) && f.live == multiset{}
    ensures !FullyPinned(f) && forall i | 0 <= i < |f.pins| :: f.pins[i] == 0
  {
    forall i | 0 <= i < |f.pins| ensures f.pins[i] == 0 { assert FrameOk(f, disk, i); }
    assert f.pins[0] == 0;
  }

  /** A policy's answer is honest if it names a frame that may be evicted, or none when there
      is none. */
  predicate Honest(f: Frames, answer: Option<nat>) {
    match answer
    case Some(i) => i < |f.pins| && f.pins[i] == 0
    case None => FullyPinned(f)
  }

  predicate FullCounter(f: Frames, page: PageId) {
    page in f.pages && f.pages[page] < |f.pins| && f.pins[f.pages[page]] >= MAX_PINS
  }

  predicate FullyPinned(f: Frames) {
    forall i | 0 <= i < |f.pins| :: f.pins[i] > 0
  }

  /** The resident pages that differ from the store, as far as the pool knows. */
  function DirtyPages(f: Frames): (ps: set<PageId>) {
    set p | p in f.pages && f.pages[p] < |f.dirty| && f.dirty[f.pages[p]]
  }

  /** What a policy is told: a client pinned a resident page, or a page was installed. */
  datatype Notice = Access(buffer: nat) | Load(buffer: nat)

  /** `answer` is what the policy said last, after `asked` questions; `honest` whether that was
      true of the frames it was asked about; `told` all that it was told. */
  class BufferPool {
    const store: PageStore
    const capacity: nat
    var frames: Frames
    ghost var asked: nat
    ghost var answer: Option<nat>
    ghost var honest: bool
    ghost var told: seq<Notice>

    constructor (capacity: nat, store: PageStore)
      requires capacity > 0 && |store.pages| <= PAGE_IDS
      ensures Valid() && this.store == store && this.capacity == capacity
      ensures frames.live == multiset{} && Contents() == store.pages
    {
      this.capacity, this.store := capacity, store;
      frames := Frames(seq(capacity, _ => ZeroPage()), seq(capacity, _ => None), seq(capacity, _ => 0),
                       seq(capacity, _ => false), map[], multiset{});
      asked, answer, honest, told := 0, None, true, [];
    }

    ghost predicate Valid()
      reads this, store
    {
      Coherent(frames, store.pages) && |frames.tags| == capacity
    }

    ghost function Contents(): (c: seq<Page>)
      requires Valid()
      reads this, store
    {
      Logical(frames, store.pages)
    }

    /** Device failures and questions to the policy are never forgotten. */
    twostate predicate Later()
      reads this, store
    {
      old(store.faults) <= store.faults && old(asked) <= asked
    }

    /** Why an operation may fail: the device failed, a pin counter is full, or all frames are
        assigned and the policy offered none of them, or one that cannot be evicted. A policy
        that offered none in honesty was asked when every frame had a pin that it still has. */
    twostate predicate Refused(e: BufferError)
      reads this, store
    {
      match e
      case AllPinned =>
        && |frames.pages| == capacity && old(asked) < asked && answer == None
        && (honest ==> FullyPinned(frames))
      case InvalidVictim(i) => |frames.pages| == capacity && old(asked) < asked && answer == Some(i) && !honest
      case PinOverflow => exists i | 0 <= i < |frames.pins| :: frames.pins[i] >= MAX_PINS
      case Io => old(store.faults) < store.faults
    }

    /** Whatever holds no pin when it fails, in a pool of any size and with a policy that is
        honest, has met a device failure. */
    twostate lemma OnlyTheDevice(e: BufferError)
      requires Valid() && frames.live == multiset{} && Refused(e) && (old(asked) < asked ==> honest)
      ensures e == Io && old(store.faults) < store.faults
    {
      UnpinnedFrames(frames, store.pages);
    }

    /** A replacement policy of which nothing is assumed. */
    method AskPolicy() returns (r: Option<nat>)
      modifies this`asked, this`answer, this`honest
      ensures asked == old(asked) + 1 && answer == r && honest == Honest(frames, r)
    {
      r := *;
      asked, answer, honest := asked + 1, r, Honest(frames, r);
    }

    /** `State::victim`: the next unused frame, else the policy's choice if it is a frame in
        range without pins. */
    method Victim() returns (r: Result<nat, BufferError>)
      requires Valid()
      modifies this`asked, this`answer, this`honest
      ensures Valid() && Later() && (r.Err? ==> Refused(r.error) && !r.error.Io? && !r.error.PinOverflow?)
      ensures r.Ok? ==> r.value < capacity && frames.pins[r.value] == 0
      ensures r.Ok? ==> if |frames.pages| < capacity then r.value == |frames.pages| else frames.tags[r.value].Some?
      ensures |frames.pages| < capacity ==> r.Ok? && asked == old(asked)
    {
      if |frames.pages| < capacity {
        assert FrameOk(frames, store.pages, |frames.pages|);
        return Ok(|frames.pages|);
      }
      var choice := AskPolicy();
      if choice.None? { return Err(AllPinned); }
      var i := choice.value;
      if !(i < capacity && frames.pins[i] == 0) { return Err(InvalidVictim(i)); }
      return Ok(i);
    }

    /** `flush_victim`: write a dirty victim's page back; on failure the frame keeps it. */
    method FlushVictim(i: nat) returns (ok: bool)
      requires Valid() && i < capacity && frames.pins[i] == 0 && (frames.tags[i].None? ==> i == |frames.pages|)
      modifies store
      ensures Valid() && Contents() == old(Contents()) && |store.pages| == |old(store.pages)|
      ensures forall p | 0 <= p < |store.pages| && p !in frames.pages :: store.pages[p] == old(store.pages[p])
      ensures ok ==> Replaceable(frames, store.pages, i) && store.faults == old(store.faults)
      ensures !ok ==> store.faults > old(store.faults) && !store.unread
    {
      assert FrameOk(frames, store.pages, i);
      if frames.dirty[i] && frames.tags[i].Some? {
        ok := store.WritePage(frames.tags[i].value, frames.buffers[i]);
        WritebackOk(frames, old(store.pages), store.pages, i);
      } else {
        ok := true;
      }
    }

    /** Tell the policy. */
    method Tell(notice: Notice)
      modifies this`told
      ensures told == old(told) + [notice]
    {
      told := told + [notice];
    }

    /** `resident_pin`, for a client if `record`. */
    method ResidentPin(page: PageId, record: bool) returns (r: Result<Option<Pin>, BufferError>)
      requires Valid()
      modifies this
      ensures Valid() && Contents() == old(Contents())
      ensures r.Ok? && r.value.Some? ==>
                && r.value.value.page == page && page in old(frames.pages) && old(frames.pages)[page] < capacity
                && frames == Pinned(old(frames), old(frames.pages)[page], page)
                && r.value.value == Pin(old(frames.pages)[page], page)
      ensures r.Err? || r.value.None? ==> frames == old(frames)
      ensures r.Ok? && r.value.None? <==> page !in old(frames.pages)
      ensures asked == old(asked)
      ensures told == old(told) + if record && r.Ok? && r.value.Some? then [Access(r.value.value.index)] else []
      ensures r.Err? ==>
                && r.error == PinOverflow && FullCounter(frames, page)
                && exists i | 0 <= i < |frames.pins| :: frames.tags[i] == Some(page) && frames.pins[i] >= MAX_PINS
    {
      if page !in frames.pages { return Ok(None); }
      assert MappingOk(frames, page);
      var i := frames.pages[page];
      if frames.pins[i] >= MAX_PINS { return Err(PinOverflow); }
      PinnedOk(frames, store.pages, page);
      frames := Pinned(frames, i, page);
      if record { Tell(Access(i)); }
      return Ok(Some(Pin(i, page)));
    }

    /** Pin a stored page. Success or failure, the logical contents are unchanged. Nothing
        becomes dirty, no page leaves while a frame is unused, and nothing is written if the
        page cannot be read. The policy is told of a hit or of an installation, and of nothing
        else. */
    method PinPage(page: PageId) returns (r: Result<Pin, BufferError>)
      requires Valid()
      modifies this, store
      ensures Valid() && Contents() == old(Contents()) && Later()
      ensures r.Ok? ==> r.value.page == page < |Contents()| && frames.live == old(frames.live) + multiset{r.value}
      ensures r.Ok? ==> Resident(old(frames), frames, capacity, page) && store.faults == old(store.faults)
      ensures r.Ok? ==>
                told == old(told) + [if page in old(frames.pages) then Access(r.value.index) else Load(r.value.index)]
      ensures r.Err? ==> frames == old(frames) && told == old(told)
      ensures r.Err? ==> Refused(r.error) || (r.error.Io? && page >= |Contents()|)
      ensures r.Err? && store.pages != old(store.pages) ==> page < |Contents()| && !store.unread
      ensures r.Err? && r.error.PinOverflow? ==> FullCounter(frames, page)
      ensures page in old(frames.pages) ==>
                && asked == old(asked) && store.faults == old(store.faults) && store.pages == old(store.pages)
                && (r.Ok? || r.error.PinOverflow?)
      ensures old(|frames.pages|) < capacity ==> asked == old(asked)
    {
      hide Coherent, Logical, Honest, FullyPinned, DirtyPages;
      var resident := ResidentPin(page, true);
      match resident {
        case Err(e) => return Err(e);
        case Ok(Some(h)) =>
          ResidentStored(old(frames), store.pages, page);
          SameDirty(old(frames), frames);
          DirtyResident(frames);
          return Ok(h);
        case Ok(None) => r := LoadPage(page);
      }
    }

    /** The second half of `pin`: a page that is not resident. */
    method LoadPage(page: PageId) returns (r: Result<Pin, BufferError>)
      requires Valid() && page !in frames.pages
      modifies this, store
      ensures Valid() && Contents() == old(Contents()) && Later()
      ensures r.Ok? ==> r.value.page == page < |Contents()| && frames.live == old(frames.live) + multiset{r.value}
      ensures r.Ok? ==> Resident(old(frames), frames, capacity, page) && store.faults == old(store.faults)
      ensures r.Ok? ==> told == old(told) + [Load(r.value.index)]
      ensures r.Err? ==> frames == old(frames) && told == old(told) && !r.error.PinOverflow?
      ensures r.Err? ==> Refused(r.error) || (r.error.Io? && page >= |Contents()|)
      ensures r.Err? && store.pages != old(store.pages) ==> page < |Contents()| && !store.unread
      ensures old(|frames.pages|) < capacity ==> asked == old(asked)
    {
      hide Logical, Honest, FullyPinned, Resident;
      var victim := Victim();
      if victim.Err? { return Err(victim.error); }
      var i := victim.value;
      var incoming := store.ReadPage(page);
      if incoming.None? { return Err(Io); }
      var flushed := FlushVictim(i);
      if !flushed { return Err(Io); }
      InstallOk(frames, store.pages, i, page);
      InstallResident(frames, store.pages, i, page, incoming.value);
      frames := Installed(frames, i, page, incoming.value);
      Tell(Load(i));
      return Ok(Pin(i, page));
    }

    /** Allocate a zeroed page and pin it. */
    method NewPage() returns (r: Result<Pin, BufferError>)
      requires Valid()
      modifies this, store
      ensures Valid() && Later()
      ensures r.Ok? ==> Contents() == old(Contents()) + [ZeroPage()] && r.value.page == |old(Contents())|
      ensures r.Ok? ==> frames.live == old(frames.live) + multiset{r.value}
      ensures r.Ok? ==> Resident(old(frames), frames, capacity, r.value.page) && store.faults == old(store.faults)
      ensures r.Ok? ==> told == old(told) + [Load(r.value.index)]
      ensures r.Err? ==> Contents() == old(Contents()) && frames == old(frames) && told == old(told)
      ensures r.Err? ==> !r.error.PinOverflow? && (Refused(r.error) || (r.error.Io? && |Contents()| >= PAGE_IDS))
      ensures old(|frames.pages|) < capacity ==> asked == old(asked)
    {
      var victim := Victim();
      if victim.Err? { return Err(victim.error); }
      var i := victim.value;
      var flushed := FlushVictim(i);
      if !flushed { return Err(Io); }
      ghost var disk := store.pages;
      var page := store.AllocatePage();
      if page.None? { return Err(Io); }
      AllocateOk(frames, disk, ZeroPage());
      InstallOk(frames, store.pages, i, page.value);
      InstallResident(frames, store.pages, i, page.value, ZeroPage());
      frames := Installed(frames, i, page.value, ZeroPage());
      Tell(Load(i));
      return Ok(Pin(i, page.value));
    }

    /** `PinnedBuffer::read`. */
    method Read(h: Pin) returns (data: Page)
      requires Valid() && h in frames.live
      ensures h.page < |Contents()| && data == Contents()[h.page]
    {
      assert PinOk(frames, h) && FrameOk(frames, store.pages, h.index);
      data := frames.buffers[h.index];
    }

    /** `PinnedBuffer::write`: the callback's result replaces the page, which is marked dirty. */
    method Write(h: Pin, data: Page)
      requires Valid() && h in frames.live
      modifies this
      ensures Valid() && frames.live == old(frames.live) && asked == old(asked)
      ensures h.page < |old(Contents())| && Contents() == old(Contents())[h.page := data]
      ensures frames.pages == old(frames.pages) && frames.pins == old(frames.pins)
      ensures DirtyPages(frames) == old(DirtyPages(frames)) + {h.page}
    {
      OverwrittenOk(frames, store.pages, h, data);
      OverwrittenDirty(frames, store.pages, h, data);
      frames := Overwritten(frames, h.index, data);
    }

    /** `PinnedBuffer::drop`. */
    method Unpin(h: Pin)
      requires Valid() && h in frames.live
      modifies this
      ensures Valid() && Contents() == old(Contents()) && frames.live == old(frames.live) - multiset{h}
      ensures asked == old(asked) && told == old(told)
      ensures frames == old(frames).(pins := frames.pins, live := frames.live)
    {
      DroppedOk(frames, store.pages, h);
      frames := Dropped(frames, h);
    }

    /** Under a pin: write the page if it is dirty and mark it clean. */
    method WriteBack(h: Pin) returns (ok: bool)
      requires Valid() && h in frames.live
      modifies this, store
      ensures Valid() && Contents() == old(Contents()) && frames == old(frames).(dirty := frames.dirty)
      ensures Wrote(old(store.pages), store.pages, h.page) && asked == old(asked) && told == old(told)
      ensures ok ==> h.page < |store.pages| && store.pages[h.page] == Contents()[h.page]
      ensures if ok then store.faults == old(store.faults) else store.faults > old(store.faults)
      ensures DirtyPages(frames) == old(DirtyPages(frames)) - if ok then {h.page} else {}
    {
      ghost var disk := store.pages;
      assert PinOk(frames, h) && FrameOk(frames, disk, h.index);
      ok := true;
      if frames.dirty[h.index] {
        ok := store.WritePage(h.page, frames.buffers[h.index]);
        WritebackOk(frames, disk, store.pages, h.index);
        if ok {
          CleanOk(frames, store.pages, h.index);
          CleanedPages(frames, store.pages, h);
          frames := frames.(dirty := frames.dirty[h.index := false]);
        }
      }
    }

    /** Write a resident dirty page back. */
    method FlushPage(page: PageId) returns (r: Result<bool, BufferError>)
      requires Valid()
      modifies this, store
      ensures Valid() && Contents() == old(Contents()) && frames.live == old(frames.live)
      ensures frames.pages == old(frames.pages) && Wrote(old(store.pages), store.pages, page)
      ensures r.Ok? ==> r.value == (page in frames.pages)
      ensures r.Ok? ==> DirtyPages(frames) == old(DirtyPages(frames)) - {page} && store.faults == old(store.faults)
      ensures r.Err? ==> Refused(r.error) && DirtyPages(frames) == old(DirtyPages(frames))
      ensures r.Err? && r.error.PinOverflow? ==> FullCounter(frames, page)
      ensures asked == old(asked) && told == old(told) && Later()
      ensures r.Ok? && page < |store.pages| ==> store.pages[page] == Contents()[page]
    {
      hide Coherent, Logical, DirtyPages, Wrote;
      SameStore(store.pages, page);
      var resident := ResidentPin(page, false);
      match resident {
        case Err(e) => return Err(e);
        case Ok(None) =>
          AbsentPage(frames, store.pages, page);
          return Ok(false);
        case Ok(Some(h)) =>
          SameDirty(old(frames), frames);
          var ok := WriteBack(h);
          ghost var flushed := frames;
          Unpin(h);
          SameDirty(flushed, frames);
          if !ok { return Err(Io); }
          return Ok(true);
      }
    }

    /** With writers quiesced, a successful `flush_all` leaves exactly the logical contents in
        the store and makes them durable, in whatever order it visits the resident pages. */
    method FlushAll() returns (r: Result<(), BufferError>)
      requires Valid()
      modifies this, store
      ensures Valid() && Contents() == old(Contents()) && frames.live == old(frames.live)
      ensures r.Ok? ==> store.pages == store.synced == Contents() && DirtyPages(frames) == {}
      ensures r.Err? ==> Refused(r.error)
      ensures asked == old(asked) && Later()
    {
      var rest := frames.pages.Keys;
      while rest != {}
        invariant Valid() && Contents() == old(Contents()) && frames.live == old(frames.live)
        invariant frames.pages == old(frames.pages) && |store.pages| == |old(store.pages)|
        invariant forall p | 0 <= p < |store.pages| && p !in rest :: store.pages[p] == Contents()[p]
        invariant DirtyPages(frames) <= rest && asked == old(asked) && Later()
        decreases rest
      {
        var page :| page in rest;
        var flushed := FlushPage(page);
        if flushed.Err? { return Err(flushed.error); }
        rest := rest - {page};
      }
      var ok := store.Sync();
      if !ok { return Err(Io); }
      return Ok(());
    }
  }
}
