/** Heap tables of crates/heapam/src/heap.rs: chains of slotted pages in a buffer pool. */
module HeapTables {
  import opened Options
  import opened BufferPools
  import opened HeapPage
  import opened PageOps

  datatype Ctid = Ctid(page: PageId, slot: nat)

  datatype HeapError =
    | Buffer(error: BufferError)
    | CorruptHeap
    | BadTupleSize
    | InvalidCtid(ctid: Ctid)
    | NoSpace

  /** The abstract table: for each page of the chain, its slots. */
  type Table = seq<seq<Option<Tuple>>>

  // ---------- chains ----------

  function Successor(pages: seq<PageId>, i: nat): (n: Option<PageId>)
  {
    if i + 1 < |pages| then Some(pages[i + 1]) else None
  }

  /** `checked_header`: well formed, owned by this heap, and linked as the handle remembers. */
  predicate CheckedHeader(data: Page, head: PageId, pages: seq<PageId>, i: nat) {
    WellFormed(data) && ViewOf(data).owner == head && ViewOf(data).next == Successor(pages, i)
  }

  lemma CheckedIsWellFormed(data: Page, head: PageId, pages: seq<PageId>, i: nat)
    requires CheckedHeader(data, head, pages, i)
    ensures WellFormed(data)
  {
  }

  predicate PageInChain(c: seq<Page>, head: PageId, pages: seq<PageId>, i: nat)
    requires i < |pages|
  {
    pages[i] < |c| && CheckedHeader(c[pages[i]], head, pages, i)
  }

  predicate Distinct(pages: seq<PageId>) {
    forall i, j | 0 <= i < j < |pages| :: pages[i] != pages[j]
  }

  /** The pages' bytes form the chain that starts at head and visits exactly `pages`. */
  predicate Chain(c: seq<Page>, head: PageId, pages: seq<PageId>) {
    && |pages| > 0 && pages[0] == head && Distinct(pages)
    && forall i | 0 <= i < |pages| :: PageInChain(c, head, pages, i)
  }

  function TableOf(c: seq<Page>, head: PageId, pages: seq<PageId>): (t: Table)
    requires Chain(c, head, pages)
    ensures |t| == |pages|
    ensures forall i | 0 <= i < |t| :: PageInChain(c, head, pages, i) && t[i] == ViewOf(c[pages[i]]).records
  {
    seq(|pages|, i requires 0 <= i < |pages| => assert PageInChain(c, head, pages, i); ViewOf(c[pages[i]]).records)
  }

  predicate Inverse(pages: seq<PageId>, indices: map<PageId, nat>) {
    && (forall i | 0 <= i < |pages| :: pages[i] in indices && indices[pages[i]] == i)
    && forall p | p in indices :: indices[p] < |pages| && pages[indices[p]] == p
  }

  predicate Allocated(pages: seq<PageId>, n: nat) {
    forall i | 0 <= i < |pages| :: pages[i] < n
  }

  /** The bytes determine the chain. */
  lemma {:induction false} ChainUnique(c: seq<Page>, head: PageId, ps: seq<PageId>, qs: seq<PageId>, k: nat)
    requires Chain(c, head, ps) && Chain(c, head, qs) && k < |ps|
    ensures k < |qs| && qs[k] == ps[k]
  {
    hide WellFormed, ViewOf;
    if k > 0 {
      ChainUnique(c, head, ps, qs, k - 1);
      assert PageInChain(c, head, ps, k - 1) && PageInChain(c, head, qs, k - 1);
    }
  }

  lemma ChainsEqual(c: seq<Page>, head: PageId, ps: seq<PageId>, qs: seq<PageId>)
    requires Chain(c, head, ps) && Chain(c, head, qs)
    ensures ps == qs
  {
    hide WellFormed, ViewOf;
    forall k | 0 <= k < |ps| ensures k < |qs| && qs[k] == ps[k] { ChainUnique(c, head, ps, qs, k); }
    forall k | 0 <= k < |qs| ensures k < |ps| && qs[k] == ps[k] { ChainUnique(c, head, qs, ps, k); }
    if |ps| < |qs| { ChainUnique(c, head, qs, ps, |ps|); }
    if |qs| < |ps| { ChainUnique(c, head, ps, qs, |qs|); }
  }

  /** Heaps with different roots share no page. */
  lemma HeapsApart(c: seq<Page>, head: PageId, pages: seq<PageId>, head': PageId, pages': seq<PageId>)
    requires Chain(c, head, pages) && Chain(c, head', pages') && head != head'
    ensures forall p | p in pages :: p !in pages'
  {
    hide WellFormed, ViewOf;
    forall p | p in pages ensures p !in pages' {
      var i :| 0 <= i < |pages| && pages[i] == p;
      assert PageInChain(c, head, pages, i);
      forall j | 0 <= j < |pages'| ensures pages'[j] != p { assert PageInChain(c, head', pages', j); }
    }
  }

  /** A heap whose pages keep their bytes keeps its chain and its table. */
  lemma ChainFrame(c: seq<Page>, c': seq<Page>, head: PageId, pages: seq<PageId>)
    requires Chain(c, head, pages) && |c| <= |c'| && forall i | 0 <= i < |pages| :: pages[i] < |c| ==>
               c'[pages[i]] == c[pages[i]]
    ensures Chain(c', head, pages) && TableOf(c', head, pages) == TableOf(c, head, pages)
  {
    hide WellFormed, ViewOf;
    forall i | 0 <= i < |pages| ensures PageInChain(c', head, pages, i) { assert PageInChain(c, head, pages, i); }
  }

  /** Rewriting one page of the chain with the same owner and successor changes its row only. */
  lemma ChainUpdate(c: seq<Page>, head: PageId, pages: seq<PageId>, i: nat, data: Page)
    requires Chain(c, head, pages) && i < |pages| && CheckedHeader(data, head, pages, i) && pages[i] < |c|
    ensures Chain(c[pages[i] := data], head, pages)
    ensures TableOf(c[pages[i] := data], head, pages) == TableOf(c, head, pages)[i := ViewOf(data).records]
  {
    hide WellFormed, ViewOf;
    var c' := c[pages[i] := data];
    forall j | 0 <= j < |pages| ensures PageInChain(c', head, pages, j) { assert PageInChain(c, head, pages, j); }
    forall j | 0 <= j < |pages|
      ensures TableOf(c', head, pages)[j] == TableOf(c, head, pages)[i := ViewOf(data).records][j]
    {
      assert PageInChain(c, head, pages, j);
    }
  }

  /** Linking a fresh page behind the tail extends the chain by one row. */
  lemma ChainExtend(c: seq<Page>, head: PageId, pages: seq<PageId>, tail: Page, new': PageId)
    requires Chain(c, head, pages) && new' < |c| && new' !in pages
    requires CheckedHeader(c[new'], head, [new'], 0)
    requires pages[|pages| - 1] < |c| && WellFormed(c[pages[|pages| - 1]])
    requires WellFormed(tail) && ViewOf(tail) == ViewOf(c[pages[|pages| - 1]]).(next := Some(new'))
    ensures var c' := c[pages[|pages| - 1] := tail];
            && Chain(c', head, pages + [new'])
            && TableOf(c', head, pages + [new']) == TableOf(c, head, pages) + [ViewOf(c[new']).records]
  {
    hide WellFormed, ViewOf;
    var n, grown := |pages| - 1, pages + [new'];
    var c' := c[pages[n] := tail];
    assert PageInChain(c, head, pages, n);
    forall j | 0 <= j < |grown| ensures PageInChain(c', head, grown, j) {
      if j < |pages| { assert PageInChain(c, head, pages, j); }
    }
    assert Chain(c', head, grown);
    forall j | 0 <= j < |grown|
      ensures TableOf(c', head, grown)[j] == (TableOf(c, head, pages) + [ViewOf(c[new']).records])[j]
    {
      if j < |pages| { assert PageInChain(c, head, pages, j); }
    }
  }

  /** A heap starts at the page. */
  ghost predicate HasChain(c: seq<Page>, head: PageId) { exists ps :: Chain(c, head, ps) }

  /** No row shrinks: what a scan's upper bounds and the uniqueness of slot IDs rest on. */
  predicate Grows(before: Table, after: Table) {
    |before| <= |after| && forall i | 0 <= i < |before| :: |before[i]| <= |after[i]|
  }

  /** Pages may have been added, and only the listed ones may have changed. */
  predicate SameElsewhere(c: seq<Page>, c': seq<Page>, pages: seq<PageId>) {
    |c| <= |c'| && forall p: int | 0 <= p < |c| && p !in pages :: c'[p] == c[p]
  }

  lemma ElsewhereTrans(a: seq<Page>, b: seq<Page>, c: seq<Page>, pages: seq<PageId>)
    requires SameElsewhere(a, b, pages) && SameElsewhere(b, c, pages)
    ensures SameElsewhere(a, c, pages)
  {
  }

  lemma ElsewhereGrown(c: seq<Page>, c': seq<Page>, pages: seq<PageId>)
    requires |c| <= |c'| && c'[..|c|] == c
    ensures SameElsewhere(c, c', pages)
  {
    forall p: int | 0 <= p < |c| ensures c'[p] == c[p] { assert c'[..|c|][p] == c'[p]; }
  }

  lemma ElsewhereSet(c: seq<Page>, pages: seq<PageId>, i: nat, data: Page)
    requires i < |pages| && pages[i] < |c|
    ensures SameElsewhere(c, c[pages[i] := data], pages)
  {
  }

  lemma ElsewhereSame(c: seq<Page>, pages: seq<PageId>)
    ensures SameElsewhere(c, c, pages)
  {
  }

  class HeapTable {
    const pool: BufferPool
    const head: PageId
    var pages: seq<PageId>
    var indices: map<PageId, nat>

    constructor (pool: BufferPool, head: PageId, pages: seq<PageId>, indices: map<PageId, nat>)
      ensures this.pool == pool && this.head == head && this.pages == pages && this.indices == indices
    {
      this.pool, this.head, this.pages, this.indices := pool, head, pages, indices;
    }

    /** The cached page list and its inverse; nothing is said about the bytes. */
    ghost predicate Handle()
      reads this, pool, pool.store
    {
      && pool.Valid() && |pages| > 0 && pages[0] == head && Distinct(pages) && Inverse(pages, indices)
      && Allocated(pages, |pool.Contents()|)
    }

    /** The bytes agree with the cached chain. */
    ghost predicate Sound()
      reads this, pool, pool.store
    {
      Handle() && Chain(pool.Contents(), head, pages)
    }

    ghost function Rows(): (t: Table)
      requires Sound()
      reads this, pool, pool.store
    {
      TableOf(pool.Contents(), head, pages)
    }

    /** Pages outside this heap keep their bytes, and no pin is left behind. */
    twostate predicate Contained()
      requires old(pool.Valid())
      reads this, pool, pool.store
    {
      && pool.Valid() && pool.frames.live == old(pool.frames.live) && pool.Later()
      && SameElsewhere(old(pool.Contents()), pool.Contents(), old(pages))
    }

    /** A buffer error has its cause in the device, the policy or the pins of others. */
    twostate predicate Caused(e: HeapError)
      reads this, pool, pool.store
    {
      e.Buffer? ==> pool.Refused(e.error)
    }

    /** One page access under a pin: `write` gives the bytes to leave in the page. */
    method Fetch(id: PageId) returns (r: Result<(Pin, Page), BufferError>)
      requires pool.Valid()
      modifies pool, pool.store
      ensures pool.Valid() && pool.Contents() == old(pool.Contents()) && pool.Later()
      ensures r.Err? && id < |pool.Contents()| ==> pool.Refused(r.error)
      ensures r.Ok? ==> r.value.0.page == id < |pool.Contents()| && r.value.1 == pool.Contents()[id]
      ensures r.Ok? ==> pool.frames.live == old(pool.frames.live) + multiset{r.value.0}
      ensures r.Err? ==> pool.frames.live == old(pool.frames.live)
    {
      var pinned := pool.PinPage(id);
      if pinned.Err? { return Err(pinned.error); }
      var data := pool.Read(pinned.value);
      return Ok((pinned.value, data));
    }

    /** Leave `data` in the pinned page and drop the pin. */
    method Store(h: Pin, data: Page)
      requires pool.Valid() && h in pool.frames.live
      modifies pool
      ensures pool.Valid() && h.page < |old(pool.Contents())|
      ensures pool.Contents() == old(pool.Contents())[h.page := data]
      ensures pool.frames.live == old(pool.frames.live) - multiset{h} && pool.asked == old(pool.asked)
    {
      pool.Write(h, data);
      pool.Unpin(h);
    }

    /** Pin and check page i of the chain. */
    method EnterAt(i: nat) returns (r: Result<(Pin, Page), HeapError>)
      requires Handle() && i < |pages|
      modifies pool, pool.store
      ensures Handle() && pool.Contents() == old(pool.Contents()) && pool.Later()
      ensures r.Err? ==> pool.frames.live == old(pool.frames.live) && Caused(r.error)
      ensures r.Err? ==> r.error.Buffer? || (r.error.CorruptHeap? && !old(Sound()))
      ensures r.Ok? ==>
                var (h, data) := r.value;
                && pages[i] == h.page < |pool.Contents()|
                && data == pool.Contents()[h.page] && CheckedHeader(data, head, pages, i)
                && pool.frames.live == old(pool.frames.live) + multiset{h}
    {
      hide WellFormed, ViewOf, Coherent, Logical, Distinct, Inverse;
      hide Chain, CheckedHeader, TableOf, BufferPool.Valid, BufferPool.Contents;
      var got := Fetch(pages[i]);
      if got.Err? { return Err(Buffer(got.error)); }
      var (h, data) := got.value;
      if old(Sound()) { RowIs(pool.Contents(), head, pages, i); }
      if !CheckedHeader(data, head, pages, i) {
        pool.Unpin(h);
        return Err(CorruptHeap);
      }
      return Ok((h, data));
    }

    /** Find, pin and check the page of an address. */
    method Enter(ctid: Ctid) returns (r: Result<(Pin, Page, nat), HeapError>)
      requires Handle()
      modifies pool, pool.store
      ensures Handle() && pool.Contents() == old(pool.Contents()) && pool.Later()
      ensures r.Err? ==> pool.frames.live == old(pool.frames.live) && Caused(r.error)
      ensures r.Err? && r.error.InvalidCtid? <==> ctid.page !in indices
      ensures r.Err? && ctid.page in indices ==> r.error.Buffer? || (r.error.CorruptHeap? && !old(Sound()))
      ensures r.Ok? ==>
                var (h, data, i) := r.value;
                && ctid.page in indices && i == indices[ctid.page] < |pages| &&
                     pages[i] == h.page == ctid.page < |pool.Contents()|
                && data == pool.Contents()[h.page] && CheckedHeader(data, head, pages, i)
                && pool.frames.live == old(pool.frames.live) + multiset{h}
    {
      hide WellFormed, ViewOf, Coherent, Logical, Distinct, Inverse;
      hide Chain, CheckedHeader, TableOf, BufferPool.Valid, BufferPool.Contents;
      if ctid.page !in indices { return Err(InvalidCtid(ctid)); }
      var i := indices[ctid.page];
      IndexOf(pages, indices, ctid.page);
      var got := EnterAt(i);
      if got.Err? { return Err(got.error); }
      return Ok((got.value.0, got.value.1, i));
    }

    /** `get`: the record at an address, None for a slot that was never filled or was deleted. */
    method Get(ctid: Ctid) returns (r: Result<Option<Tuple>, HeapError>)
      requires Handle() && ctid.slot >= 1
      modifies pool, pool.store
      ensures Handle() && pool.Contents() == old(pool.Contents()) && pool.frames.live == old(pool.frames.live)
      ensures pool.Later() && (r.Err? ==> Caused(r.error) && !r.error.NoSpace? && !r.error.BadTupleSize?)
      ensures r.Err? && r.error.InvalidCtid? <==> ctid.page !in indices
      ensures old(Sound()) ==>
                && Sound() && (r.Err? ==> !r.error.CorruptHeap?)
                && (r.Ok? ==> r.value == At(Rows(), indices[ctid.page], ctid.slot))
    {
      hide WellFormed, ViewOf, Coherent, Logical, TableOf, At, InSlot;
      hide Distinct, Inverse, Chain, Allocated, BufferPool.Refused, BufferPool.Valid, BufferPool.Contents;
      var entered := Enter(ctid);
      if entered.Err? { return Err(entered.error); }
      var (h, data, i) := entered.value;
      pool.Unpin(h);
      if old(Sound()) { RowAt(pool.Contents(), head, pages, i, ctid.slot); }
      var record := ReadRecord(data, ctid.slot);
      return Ok(record);
    }

    /** Empty a slot of its page if it is live. */
    method DropAt(ctid: Ctid) returns (r: Result<bool, HeapError>, ghost after: Page)
      requires Handle() && ctid.slot >= 1
      modifies pool, pool.store
      ensures Handle() && pool.Later() && pool.frames.live == old(pool.frames.live)
      ensures r.Err? ==> pool.Contents() == old(pool.Contents()) && Caused(r.error)
      ensures r.Err? && r.error.InvalidCtid? <==> ctid.page !in indices
      ensures r.Err? && ctid.page in indices ==> r.error.Buffer? || (r.error.CorruptHeap? && !old(Sound()))
      ensures r.Ok? ==>
                && ctid.page in indices && indices[ctid.page] < |pages| && pages[indices[ctid.page]] == ctid.page
                && var c, p := old(pool.Contents()), ctid.page;
                   && p < |c| && pool.Contents() == c[p := after] && WellFormed(c[p])
                   && (r.value <==> InSlot(ViewOf(c[p]).records, ctid.slot).Some?)
                   && PageSet(c[p], after, ctid.slot, None, r.value)
    {
      hide WellFormed, ViewOf, PageSet, InSlot, HasRoom, Coherent, Logical, TableOf, Distinct, Inverse, Chain;
      hide Allocated, BufferPool.Refused, BufferPool.Valid, BufferPool.Contents;
      var entered := Enter(ctid);
      if entered.Err? { return Err(entered.error), ZeroPage(); }
      var (h, data, i) := entered.value;
      var dropped, done := DeleteRecord(data, ctid.slot);
      after := dropped;
      Store(h, dropped);
      return Ok(done), after;
    }

    /** `delete`: empties the slot, or reports that it was not live. */
    method Delete(ctid: Ctid) returns (r: Result<bool, HeapError>)
      requires Handle() && ctid.slot >= 1
      modifies pool, pool.store
      ensures Handle() && Contained()
      ensures r.Err? ==> Caused(r.error) && !r.error.NoSpace? && !r.error.BadTupleSize?
      ensures r.Err? && r.error.InvalidCtid? <==> ctid.page !in indices
      ensures old(Sound()) ==>
                && Sound() && (r.Err? ==> !r.error.CorruptHeap? && Rows() == old(Rows()))
                && (r.Ok? ==>
                      var i := indices[ctid.page];
                      && (r.value <==> At(old(Rows()), i, ctid.slot).Some?)
                      && (!r.value ==> Rows() == old(Rows()))
                      && (r.value ==> Rows() == SetAt(old(Rows()), i, ctid.slot, None)))
    {
      hide WellFormed, ViewOf, PageSet, InSlot, Coherent, Logical, TableOf, At, SetAt, Distinct, Inverse, Chain;
      hide Allocated, BufferPool.Refused, BufferPool.Valid, BufferPool.Contents, SameElsewhere;
      ghost var c := pool.Contents();
      ElsewhereSame(c, pages);
      ghost var after;
      r, after := DropAt(ctid);
      if r.Ok? {
        ghost var i := indices[ctid.page];
        ElsewhereSet(c, pages, i, after);
        if old(Sound()) {
          RowAt(c, head, pages, i, ctid.slot);
          RewriteRow(c, head, pages, i, after, ctid.slot, None, r.value);
        }
      }
    }

    /** `replace`: changes the record at the same address, or leaves it when the slot is not
        live or the new record does not fit the page. */
    method Replace(ctid: Ctid, bytes: Tuple) returns (r: Result<bool, HeapError>)
      requires Handle() && ctid.slot >= 1
      modifies pool, pool.store
      ensures Handle() && Contained() && (r.Err? ==> Caused(r.error))
      ensures r.Err? && r.error.BadTupleSize? <==> !TupleOk(bytes)
      ensures r.Err? && r.error.InvalidCtid? <==> TupleOk(bytes) && ctid.page !in indices
      ensures old(Sound()) ==> Sound() && (r.Err? ==> !r.error.CorruptHeap? && Rows() == old(Rows()))
      ensures old(Sound()) && ctid.page in indices && (r.Ok? || r.error.NoSpace?) ==>
                var i := indices[ctid.page];
                && (r == Ok(false) <==> At(old(Rows()), i, ctid.slot).None?)
                && (r == Ok(false) ==> Rows() == old(Rows()))
                && (r == Ok(true) ==> Rows() == SetAt(old(Rows()), i, ctid.slot, Some(bytes)))
                && (r == Ok(true) ==> RoomAt(old(Rows()), i, ctid.slot, bytes))
                && (r == Err(NoSpace) ==> !RoomAt(old(Rows()), i, ctid.slot, bytes))
    {
      hide Coherent, Logical, TableOf, At, SetAt, RoomAt, Distinct;
      hide Inverse, Chain, Allocated, BufferPool.Refused, BufferPool.Valid, BufferPool.Contents;
      if !TupleOk(bytes) { return Err(BadTupleSize); }
      r := ReplaceValid(ctid, bytes);
    }

    /** Change a slot of its page if it is live and the record fits. */
    method ReplaceAt(ctid: Ctid, bytes: Tuple)
      returns (r: Result<bool, HeapError>, ghost after: Page, done: bool)
      requires Handle() && ctid.slot >= 1 && TupleOk(bytes)
      modifies pool, pool.store
      ensures Handle() && pool.Later() && pool.frames.live == old(pool.frames.live)
      ensures r.Err? ==> pool.Contents() == old(pool.Contents()) && Caused(r.error)
      ensures r.Err? && r.error.InvalidCtid? <==> ctid.page !in indices
      ensures r.Err? && ctid.page in indices ==> r.error.Buffer? || (r.error.CorruptHeap? && !old(Sound()))
      ensures r.Ok? ==>
                && ctid.page in indices && indices[ctid.page] < |pages| && pages[indices[ctid.page]] == ctid.page
                && var c, p := old(pool.Contents()), ctid.page;
                   && p < |c| && pool.Contents() == c[p := after] && WellFormed(c[p])
                   && (r.value <==> InSlot(ViewOf(c[p]).records, ctid.slot).Some?)
                   && (done <==> r.value && HasRoom(ViewOf(c[p]).records, ctid.slot, bytes))
                   && PageSet(c[p], after, ctid.slot, Some(bytes), done)
    {
      hide WellFormed, ViewOf, PageSet, InSlot, HasRoom, Coherent, Logical, TableOf, Distinct, Inverse, Chain;
      hide Allocated, BufferPool.Refused, BufferPool.Valid, BufferPool.Contents;
      var entered := Enter(ctid);
      if entered.Err? { return Err(entered.error), ZeroPage(), false; }
      var (h, data, i) := entered.value;
      var live, replaced;
      live, replaced, done := ReplaceRecord(data, ctid.slot, bytes);
      after := replaced;
      Store(h, replaced);
      return Ok(live), after, done;
    }

    method ReplaceValid(ctid: Ctid, bytes: Tuple) returns (r: Result<bool, HeapError>)
      requires Handle() && ctid.slot >= 1 && TupleOk(bytes)
      modifies pool, pool.store
      ensures Handle() && Contained() && (r.Err? ==> Caused(r.error))
      ensures r.Err? ==> !r.error.BadTupleSize?
      ensures r.Err? && r.error.InvalidCtid? <==> ctid.page !in indices
      ensures old(Sound()) ==> Sound() && (r.Err? ==> !r.error.CorruptHeap? && Rows() == old(Rows()))
      ensures old(Sound()) && ctid.page in indices && (r.Ok? || r.error.NoSpace?) ==>
                var i := indices[ctid.page];
                && (r == Ok(false) <==> At(old(Rows()), i, ctid.slot).None?)
                && (r == Ok(false) ==> Rows() == old(Rows()))
                && (r == Ok(true) ==> Rows() == SetAt(old(Rows()), i, ctid.slot, Some(bytes)))
                && (r == Ok(true) ==> RoomAt(old(Rows()), i, ctid.slot, bytes))
                && (r == Err(NoSpace) ==> !RoomAt(old(Rows()), i, ctid.slot, bytes))
    {
      hide WellFormed, ViewOf, PageSet, InSlot, HasRoom, Coherent, Logical, TableOf, At, SetAt, RoomAt;
      hide Distinct, Inverse, Chain, Allocated;
      hide BufferPool.Refused, BufferPool.Valid, BufferPool.Contents, SameElsewhere;
      ghost var c := pool.Contents();
      ElsewhereSame(c, pages);
      ghost var after;
      var live, done;
      live, after, done := ReplaceAt(ctid, bytes);
      if live.Err? { return live; }
      ghost var i := indices[ctid.page];
      ElsewhereSet(c, pages, i, after);
      if old(Sound()) {
        RowRoom(c, head, pages, i, ctid.slot, bytes);
        RewriteRow(c, head, pages, i, after, ctid.slot, Some(bytes), done);
      }
      if !live.value { return Ok(false); }
      if !done { return Err(NoSpace); }
      return Ok(true);
    }

    /** Add the record to the tail page if it has room. */
    method PutTail(bytes: Tuple) returns (r: Result<Option<nat>, HeapError>, ghost after: Page)
      requires Handle() && TupleOk(bytes)
      modifies pool, pool.store
      ensures Handle() && pool.Later() && pool.frames.live == old(pool.frames.live)
      ensures r.Err? ==> pool.Contents() == old(pool.Contents()) && Caused(r.error)
      ensures r.Err? ==> r.error.Buffer? || (r.error.CorruptHeap? && !old(Sound()))
      ensures r.Ok? ==>
                var p, c := pages[|pages| - 1], old(pool.Contents());
                && p < |c| && pool.Contents() == c[p := after] && WellFormed(c[p])
                && PageAppended(c[p], after, r.value, bytes)
                && (r.value.Some? <==> Fits(ViewOf(c[p]).records + [Some(bytes)]))
    {
      hide WellFormed, ViewOf, PageAppended, Coherent, Logical, TableOf, Distinct, Inverse, Chain, Allocated;
      hide BufferPool.Refused, Fits, BufferPool.Valid, BufferPool.Contents;
      var n := |pages| - 1;
      var got := EnterAt(n);
      if got.Err? { return Err(got.error), ZeroPage(); }
      var (h, data) := got.value;
      var slot;
      CheckedIsWellFormed(data, head, pages, n);
      var put;
      put, slot := InsertRecord(data, bytes);
      after := put;
      Store(h, put);
      return Ok(slot), after;
    }

    /** Try the tail page. */
    method InsertTail(bytes: Tuple) returns (r: Result<Option<nat>, HeapError>)
      requires Handle() && TupleOk(bytes)
      modifies pool, pool.store
      ensures Handle() && Contained() && |pool.Contents()| == |old(pool.Contents())|
      ensures r.Err? ==> (r.error.Buffer? || r.error.CorruptHeap?) && Caused(r.error)
      ensures old(Sound()) ==>
                && Sound() && (r.Err? ==> !r.error.CorruptHeap?)
                && (r.Ok? ==> (r.value.Some? <==> TailRoom(old(Rows()), bytes)))
                && var n := |pages| - 1;
                   if r.Ok? && r.value.Some?
                   then r.value.value == |old(Rows())[n]| + 1 &&
                       Rows() == old(Rows())[n := old(Rows())[n] + [Some(bytes)]]
                   else Rows() == old(Rows())
    {
      hide WellFormed, ViewOf, PageAppended, Coherent, Logical, TableOf, Distinct, Inverse, Chain, Allocated;
      hide BufferPool.Refused, Fits, BufferPool.Valid, BufferPool.Contents, SameElsewhere;
      ghost var n, c := |pages| - 1, pool.Contents();
      ElsewhereSame(c, pages);
      ghost var after;
      r, after := PutTail(bytes);
      if r.Ok? {
        ElsewhereSet(c, pages, n, after);
        if old(Sound()) { AppendRow(c, head, pages, n, after, r.value, bytes); }
      }
    }

    /** Allocate a page of this heap that holds just the record; nothing links to it yet. */
    method NewTail(bytes: Tuple) returns (r: Result<PageId, HeapError>)
      requires Handle() && TupleOk(bytes)
      modifies pool, pool.store
      ensures pool.Valid() && pool.frames.live == old(pool.frames.live) && pool.Later()
      ensures r.Err? ==> r.error.Buffer? && pool.Contents() == old(pool.Contents())
      ensures r.Err? ==> Caused(r.error) || (r.error == Buffer(Io) && |pool.Contents()| >= PAGE_IDS)
      ensures r.Ok? ==>
                && r.value == |old(pool.Contents())| && |pool.Contents()| == r.value + 1
                && pool.Contents()[..r.value] == old(pool.Contents())
                && CheckedHeader(pool.Contents()[r.value], head, [r.value], 0)
                && ViewOf(pool.Contents()[r.value]).records == [Some(bytes)]
    {
      hide WellFormed, ViewOf, InsertPage, InitPage, Coherent, Logical, BufferPool.Valid, BufferPool.Contents;
      var pinned := pool.NewPage();
      if pinned.Err? { return Err(Buffer(pinned.error)); }
      var h := pinned.value;
      InitView(head);
      InsertView(InitPage(head), bytes);
      InsertIntoFresh(head, bytes);
      var data := InsertPage(InitPage(head), bytes).value.0;
      assert ViewOf(data) == View(head, None, [] + [Some(bytes)]);
      Store(h, data);
      return Ok(h.page);
    }

    /** Write the link to a new page into the tail page. */
    method WriteLink(new': PageId) returns (r: Result<(), HeapError>, ghost after: Page)
      requires Handle()
      modifies pool, pool.store
      ensures Handle() && pool.Later() && pool.frames.live == old(pool.frames.live)
      ensures r.Err? ==> pool.Contents() == old(pool.Contents()) && Caused(r.error)
      ensures r.Err? ==> r.error.Buffer? || (r.error.CorruptHeap? && !old(Sound()))
      ensures r.Ok? ==>
                var p, c := pages[|pages| - 1], old(pool.Contents());
                && p < |c| && pool.Contents() == c[p := after] && WellFormed(c[p])
                && WellFormed(after) && ViewOf(after) == ViewOf(c[p]).(next := Some(new'))
    {
      hide WellFormed, ViewOf, Coherent, Logical, TableOf, Chain, Inverse, Distinct, CheckedHeader;
      hide BufferPool.Refused, BufferPool.Valid, BufferPool.Contents, Allocated;
      var n := |pages| - 1;
      var got := EnterAt(n);
      if got.Err? { return Err(got.error), ZeroPage(); }
      var (h, data) := got.value;
      CheckedIsWellFormed(data, head, pages, n);
      var linked := LinkRecord(data, new');
      after := linked;
      Store(h, linked);
      return Ok(()), after;
    }

    /** Link a new page behind the tail and publish it in the handle. */
    method LinkTail(new': PageId) returns (r: Result<(), HeapError>)
      requires Handle() && new' !in pages && new' < |pool.Contents()|
      requires CheckedHeader(pool.Contents()[new'], head, [new'], 0)
      modifies this, pool, pool.store
      ensures Handle() && pool.frames.live == old(pool.frames.live) && |pool.Contents()| == |old(pool.Contents())|
      ensures pool.Later() && (r.Err? ==> Caused(r.error))
      ensures SameElsewhere(old(pool.Contents()), pool.Contents(), old(pages))
      ensures r.Err? ==> pages == old(pages) && indices == old(indices) && (r.error.Buffer? || r.error.CorruptHeap?)
      ensures r.Ok? ==> pages == old(pages) + [new']
      ensures old(Sound()) ==>
                && Sound()
                && (r.Err? ==> !r.error.CorruptHeap? && Rows() == old(Rows()))
                && (r.Ok? ==> Rows() == old(Rows()) + [ViewOf(old(pool.Contents()[new'])).records])
    {
      hide WellFormed, ViewOf, Coherent, Logical, TableOf, Chain, Inverse, Distinct, CheckedHeader;
      hide BufferPool.Refused, BufferPool.Valid, BufferPool.Contents, SameElsewhere;
      ghost var n, c := |pages| - 1, pool.Contents();
      ElsewhereSame(c, pages);
      ghost var after;
      r, after := WriteLink(new');
      if r.Err? { return; }
      ElsewhereSet(c, pages, n, after);
      if old(Sound()) { ChainExtend(c, head, pages, after, new'); }
      InverseExtend(pages, indices, new');
      indices := indices[new' := |pages|];
      pages := pages + [new'];
    }

    /** `insert`: into the tail page, or into a new page linked behind it. Whatever fails, the
        table is as before; an address that is returned was never in use. */
    method Insert(bytes: Tuple) returns (r: Result<Ctid, HeapError>)
      requires Handle()
      modifies this, pool, pool.store
      ensures Handle() && Contained()
      ensures r.Err? ==> pages == old(pages) && indices == old(indices)
      ensures r.Err? && r.error.BadTupleSize? <==> !TupleOk(bytes)
      ensures r.Err? ==> r.error.Buffer? || r.error.CorruptHeap? || r.error.BadTupleSize?
      ensures r.Err? ==> Caused(r.error) || (r.error == Buffer(Io) && |pool.Contents()| >= PAGE_IDS)
      ensures |pool.Contents()| <= |old(pool.Contents())| + 1
      ensures old(Sound()) ==> Sound() && (r.Err? ==> !r.error.CorruptHeap? && Rows() == old(Rows()))
      ensures old(Sound()) && r.Ok? ==> Inserted(old(pages), old(Rows()), pages, Rows(), r.value, bytes)
      ensures old(Sound()) && r.Ok? ==> (r.value.page == old(pages[|pages| - 1]) <==> TailRoom(old(Rows()), bytes))
      ensures old(Sound()) && TailRoom(old(Rows()), bytes) ==> |pool.Contents()| == |old(pool.Contents())|
    {
      hide WellFormed, ViewOf, Coherent, Logical, TableOf, CheckedHeader;
      hide Chain, Distinct, Inverse, PageInChain, BufferPool.Valid, BufferPool.Contents;
      if !TupleOk(bytes) { return Err(BadTupleSize); }
      ghost var before := pool.Contents();
      var tail := InsertTail(bytes);
      if tail.Err? { return Err(tail.error); }
      if tail.value.Some? { return Ok(Ctid(pages[|pages| - 1], tail.value.value)); }
      r := AppendPage(bytes);
    }

    /** The second half of `insert`: a full tail page. */
    method AppendPage(bytes: Tuple) returns (r: Result<Ctid, HeapError>)
      requires Handle() && TupleOk(bytes)
      modifies this, pool, pool.store
      ensures Handle() && Contained() && |pool.Contents()| <= |old(pool.Contents())| + 1
      ensures r.Err? ==> Caused(r.error) || (r.error == Buffer(Io) && |pool.Contents()| >= PAGE_IDS)
      ensures r.Ok? ==> r.value.page == |old(pool.Contents())|
      ensures r.Err? ==> pages == old(pages) && indices == old(indices) && (r.error.Buffer? || r.error.CorruptHeap?)
      ensures old(Sound()) ==> Sound() && (r.Err? ==> !r.error.CorruptHeap? && Rows() == old(Rows()))
      ensures old(Sound()) && r.Ok? ==> Inserted(old(pages), old(Rows()), pages, Rows(), r.value, bytes)
    {
      hide WellFormed, ViewOf, Coherent, Logical, TableOf, CheckedHeader;
      hide Chain, Distinct, Inverse, BufferPool.Valid, BufferPool.Contents;
      ghost var before := pool.Contents();
      var new' := NewTail(bytes);
      if new'.Err? { return Err(new'.error); }
      ghost var c := pool.Contents();
      if old(Sound()) { ChainGrownPool(before, c, head, pages); }
      var linked := LinkTail(new'.value);
      ElsewhereGrown(before, c, old(pages));
      ElsewhereTrans(before, c, pool.Contents(), old(pages));
      if linked.Err? { return Err(linked.error); }
      return Ok(Ctid(new'.value, 1));
    }
  }

  /** The record in slot `slot` of row i. */
  function At(t: Table, i: nat, slot: nat): (r: Option<Tuple>) {
    if i < |t| then InSlot(t[i], slot) else None
  }

  function InSlot(rs: seq<Option<Tuple>>, slot: nat): (r: Option<Tuple>) {
    if 1 <= slot <= |rs| then rs[slot - 1] else None
  }

  lemma RowAt(c: seq<Page>, head: PageId, pages: seq<PageId>, i: nat, slot: nat)
    requires Chain(c, head, pages) && i < |pages|
    ensures PageInChain(c, head, pages, i)
    ensures At(TableOf(c, head, pages), i, slot) == InSlot(ViewOf(c[pages[i]]).records, slot)
  {
    hide WellFormed, ViewOf;
    assert PageInChain(c, head, pages, i);
    assert TableOf(c, head, pages)[i] == ViewOf(c[pages[i]]).records;
  }

  function SetAt(t: Table, i: nat, slot: nat, r: Option<Tuple>): (t': Table) {
    if i < |t| && 1 <= slot <= |t[i]| then t[i := t[i][slot - 1 := r]] else t
  }

  /** The page's records still fit it with the record in slot `slot` replaced. */
  predicate HasRoom(rs: seq<Option<Tuple>>, slot: nat, bytes: Tuple) {
    1 <= slot <= |rs| && Fits(rs[slot - 1 := Some(bytes)])
  }

  /** The tail page has room for one more record. */
  predicate TailRoom(t: Table, bytes: Tuple) { t != [] && Fits(t[|t| - 1] + [Some(bytes)]) }

  predicate RoomAt(t: Table, i: nat, slot: nat, bytes: Tuple) { i < |t| && HasRoom(t[i], slot, bytes) }

  lemma RowRoom(c: seq<Page>, head: PageId, pages: seq<PageId>, i: nat, slot: nat, bytes: Tuple)
    requires Chain(c, head, pages) && i < |pages|
    ensures PageInChain(c, head, pages, i)
    ensures At(TableOf(c, head, pages), i, slot) == InSlot(ViewOf(c[pages[i]]).records, slot)
    ensures RoomAt(TableOf(c, head, pages), i, slot, bytes) <==> HasRoom(ViewOf(c[pages[i]]).records, slot, bytes)
  {
    hide WellFormed, ViewOf, HasRoom, InSlot;
    RowIs(c, head, pages, i);
  }

  /** A slot address that exists in the table, live or not. */
  predicate HasAddress(pages: seq<PageId>, t: Table, ctid: Ctid) {
    exists i | 0 <= i < |pages| && i < |t| :: pages[i] == ctid.page && 1 <= ctid.slot <= |t[i]|
  }

  /** A successful insertion: one record at a new address, everything else as it was. */
  predicate Inserted(pages: seq<PageId>, t: Table, pages': seq<PageId>, t': Table, ctid: Ctid, bytes: Tuple) {
    var n := |pages| - 1;
    && |pages| > 0 && |t| == |pages|
    && if ctid.page == pages[n]
       then pages' == pages && ctid.slot == |t[n]| + 1 && t' == t[n := t[n] + [Some(bytes)]]
       else ctid.page !in pages && ctid.slot == 1 && pages' == pages + [ctid.page] && t' == t + [[Some(bytes)]]
  }

  /** `after` is the page with slot `slot` set to r, or the same page. */
  predicate PageSet(before: Page, after: Page, slot: nat, r: Option<Tuple>, done: bool) {
    if done then
      && WellFormed(before) && WellFormed(after) && 1 <= slot <= |ViewOf(before).records|
      && ViewOf(after) == ViewOf(before).(records := ViewOf(before).records[slot - 1 := r])
    else after == before
  }

  /** `after` is the page with one more record, under `slot`, or the same page. */
  predicate PageAppended(before: Page, after: Page, slot: Option<nat>, bytes: Tuple) {
    if slot.Some? then
      && WellFormed(before) && WellFormed(after) && slot.value == |ViewOf(before).records| + 1
      && ViewOf(after) == ViewOf(before).(records := ViewOf(before).records + [Some(bytes)])
    else after == before
  }

  method InsertRecord(data: Page, bytes: Tuple) returns (after: Page, slot: Option<nat>)
    requires WellFormed(data) && TupleOk(bytes)
    ensures PageAppended(data, after, slot, bytes)
    ensures slot.Some? <==> Fits(ViewOf(data).records + [Some(bytes)])
  {
    hide WellFormed, ViewOf, InsertPage, Used;
    InsertView(data, bytes);
    UsedAppend(ViewOf(data).records, Some(bytes));
    var outcome := InsertPage(data, bytes).value;
    after, slot := outcome.0, outcome.1;
  }

  lemma AppendRow(c: seq<Page>, head: PageId, pages: seq<PageId>, i: nat, after: Page, slot: Option<nat>, bytes: Tuple)
    requires Chain(c, head, pages) && i < |pages| && pages[i] < |c| && PageAppended(c[pages[i]], after, slot, bytes)
    ensures var c' := c[pages[i] := after]; var t := TableOf(c, head, pages);
            && Chain(c', head, pages) && PageInChain(c, head, pages, i) && t[i] == ViewOf(c[pages[i]]).records
            && (slot.None? ==> TableOf(c', head, pages) == t)
            && (slot.Some? ==> slot.value == |t[i]| + 1 && TableOf(c', head, pages) == t[i := t[i] + [Some(bytes)]])
  {
    hide WellFormed, ViewOf, TableOf;
    RowIs(c, head, pages, i);
    ChainUpdate(c, head, pages, i, after);
  }

  method LinkRecord(data: Page, new': PageId) returns (after: Page)
    requires WellFormed(data)
    ensures WellFormed(after) && ViewOf(after) == ViewOf(data).(next := Some(new'))
  {
    hide WellFormed, ViewOf;
    SetNextView(data, Some(new'));
    after := SetNextPage(data, Some(new')).value;
  }

  method DeleteRecord(data: Page, slot: nat) returns (after: Page, done: bool)
    requires WellFormed(data) && slot >= 1
    ensures done <==> InSlot(ViewOf(data).records, slot).Some?
    ensures PageSet(data, after, slot, None, done)
  {
    hide WellFormed, ViewOf, DeletePage;
    DeleteView(data, slot);
    var outcome := DeletePage(data, slot).value;
    after, done := outcome.0, outcome.1;
  }

  method ReplaceRecord(data: Page, slot: nat, bytes: Tuple) returns (live: bool, after: Page, done: bool)
    requires WellFormed(data) && slot >= 1 && TupleOk(bytes)
    ensures live <==> InSlot(ViewOf(data).records, slot).Some?
    ensures done <==> live && HasRoom(ViewOf(data).records, slot, bytes)
    ensures PageSet(data, after, slot, Some(bytes), done)
  {
    hide WellFormed, ViewOf, ReplacePage, Used;
    var current := ReadRecord(data, slot);
    live := current.Some?;
    ReplaceView(data, slot, bytes);
    var outcome := ReplacePage(data, slot, bytes).value;
    after, done := outcome.0, outcome.1;
    if live { UsedUpdate(ViewOf(data).records, slot - 1, Some(bytes)); }
  }

  lemma RowIs(c: seq<Page>, head: PageId, pages: seq<PageId>, i: nat)
    requires Chain(c, head, pages) && i < |pages|
    ensures PageInChain(c, head, pages, i) && TableOf(c, head, pages)[i] == ViewOf(c[pages[i]]).records
  {
    hide WellFormed, ViewOf;
  }

  /** A page operation that set one slot, or did nothing, does so in the table. */
  lemma RewriteRow(c: seq<Page>, head: PageId, pages: seq<PageId>, i: nat, after: Page, slot: nat, r: Option<Tuple>,
                   done: bool)
    requires Chain(c, head, pages) && i < |pages| && PageInChain(c, head, pages, i)
    requires PageSet(c[pages[i]], after, slot, r, done)
    ensures var c' := c[pages[i] := after];
            && Chain(c', head, pages)
            && TableOf(c', head, pages) == if done then SetAt(TableOf(c, head, pages), i, slot, r)
                 else TableOf(c, head, pages)
  {
    hide WellFormed, ViewOf, TableOf;
    ChainUpdate(c, head, pages, i, after);
    RowIs(c, head, pages, i);
  }

  /** A page appended to the pool is not in the chain, and leaves it as it was. */
  lemma ChainGrownPool(c: seq<Page>, c': seq<Page>, head: PageId, pages: seq<PageId>)
    requires Chain(c, head, pages) && |c| <= |c'| && c'[..|c|] == c
    ensures Chain(c', head, pages) && TableOf(c', head, pages) == TableOf(c, head, pages)
    ensures forall p | p in pages :: p < |c|
  {
    hide WellFormed, ViewOf;
    forall i | 0 <= i < |pages| ensures pages[i] < |c| && c'[pages[i]] == c[pages[i]] {
      assert PageInChain(c, head, pages, i);
      assert c'[..|c|][pages[i]] == c'[pages[i]];
    }
    ChainFrame(c, c', head, pages);
  }

  lemma IndexOf(pages: seq<PageId>, indices: map<PageId, nat>, p: PageId)
    requires Inverse(pages, indices) && p in indices
    ensures indices[p] < |pages| && pages[indices[p]] == p
  {
  }

  lemma InverseExtend(pages: seq<PageId>, indices: map<PageId, nat>, new': PageId)
    requires Inverse(pages, indices) && Distinct(pages) && new' !in pages
    ensures Inverse(pages + [new'], indices[new' := |pages|]) && Distinct(pages + [new'])
  {
    assert new' !in indices;
  }

  method ReadRecord(data: Page, slot: nat) returns (r: Option<Tuple>)
    requires WellFormed(data) && slot >= 1
    ensures r == InSlot(ViewOf(data).records, slot)
  {
    r := GetRecord(data, slot).value;
  }
}
