/** Creating, opening and reopening heaps. */
module HeapOpen {
  import opened Options
  import opened BufferPools
  import opened HeapPage
  import opened PageOps
  import opened HeapTables

  /** `HeapTable::create`. */
  method CreateHeap(pool: BufferPool) returns (r: Result<HeapTable, HeapError>)
    requires pool.Valid()
    modifies pool, pool.store
    ensures pool.Valid() && pool.frames.live == old(pool.frames.live) && pool.Later()
    ensures r.Err? ==> r.error.Buffer? && pool.Contents() == old(pool.Contents())
    ensures r.Err? ==> pool.Refused(r.error.error) || (r.error == Buffer(Io) && |pool.Contents()| >= PAGE_IDS)
    ensures r.Ok? ==>
              var n := |old(pool.Contents())|; var heap := r.value;
              && |pool.Contents()| == n + 1 && pool.Contents()[..n] == old(pool.Contents())
              && fresh(heap) && heap.pool == pool && heap.head == n && heap.pages == [n] && heap.Sound() &&
                   heap.Rows() == [[]]
  {
    hide WellFormed, ViewOf, InitPage, Coherent, Logical;
    var pinned := pool.NewPage();
    if pinned.Err? { return Err(Buffer(pinned.error)); }
    var head := pinned.value.page;
    InitView(head);
    pool.Write(pinned.value, InitPage(head));
    pool.Unpin(pinned.value);
    var heap := new HeapTable(pool, head, [head], map[head := 0]);
    assert PageInChain(pool.Contents(), head, [head], 0);
    assert heap.Rows() == [[]];
    return Ok(heap);
  }

  /** The chain walked so far, and where it continues. */
  predicate Walked(c: seq<Page>, head: PageId, pages: seq<PageId>, next: Option<PageId>) {
    && Distinct(pages) && Allocated(pages, |c|)
    && (if pages == [] then next == Some(head) else pages[0] == head)
    && forall i | 0 <= i < |pages| :: pages[i] < |c| && WalkedAt(c, head, pages, next, i)
  }

  predicate WalkedAt(c: seq<Page>, head: PageId, pages: seq<PageId>, next: Option<PageId>, i: nat)
    requires i < |pages| && pages[i] < |c|
  {
    var data := c[pages[i]];
    && WellFormed(data) && ViewOf(data).owner == head
    && ViewOf(data).next == if i + 1 < |pages| then Some(pages[i + 1]) else next
  }

  /** Any chain from the same head starts with the pages walked. */
  lemma {:induction false} ChainExtendsWalk(c: seq<Page>, head: PageId, pages: seq<PageId>, next: Option<PageId>,
                                            ps: seq<PageId>, k: nat)
    requires Walked(c, head, pages, next) && Chain(c, head, ps) && k <= |pages|
    ensures k < |pages| ==> k < |ps| && ps[k] == pages[k]
    ensures k == |pages| && next.Some? ==> k < |ps| && ps[k] == next.value
  {
    hide WellFormed, ViewOf;
    if k > 0 {
      ChainExtendsWalk(c, head, pages, next, ps, k - 1);
      assert PageInChain(c, head, ps, k - 1) && WalkedAt(c, head, pages, next, k - 1);
    }
  }

  lemma CycleMeansNoChain(c: seq<Page>, head: PageId, pages: seq<PageId>, id: PageId, ps: seq<PageId>)
    requires Walked(c, head, pages, Some(id)) && id in pages
    ensures !Chain(c, head, ps)
  {
    hide WellFormed, ViewOf;
    if Chain(c, head, ps) {
      var i :| 0 <= i < |pages| && pages[i] == id;
      ChainExtendsWalk(c, head, pages, Some(id), ps, i);
      ChainExtendsWalk(c, head, pages, Some(id), ps, |pages|);
    }
  }

  lemma NextPageOfChain(c: seq<Page>, head: PageId, pages: seq<PageId>, id: PageId, ps: seq<PageId>)
    requires Walked(c, head, pages, Some(id)) && Chain(c, head, ps)
    ensures id < |c| && WellFormed(c[id]) && ViewOf(c[id]).owner == head
  {
    hide WellFormed, ViewOf;
    ChainExtendsWalk(c, head, pages, Some(id), ps, |pages|);
    assert PageInChain(c, head, ps, |pages|);
  }

  /** A walk that meets one of its pages again, a page that does not exist, or one that is
      damaged or belongs to another heap, rules out every chain. */
  lemma WalkBroken(c: seq<Page>, head: PageId, pages: seq<PageId>, id: PageId)
    requires Walked(c, head, pages, Some(id))
    requires id in pages || id >= |c| || !(WellFormed(c[id]) && ViewOf(c[id]).owner == head)
    ensures !HasChain(c, head)
  {
    hide WellFormed, ViewOf, Chain, Walked;
    if ps :| Chain(c, head, ps) {
      if id in pages { CycleMeansNoChain(c, head, pages, id, ps); } else { NextPageOfChain(c, head, pages, id, ps); }
    }
  }

  lemma WalkStep(c: seq<Page>, head: PageId, pages: seq<PageId>, id: PageId)
    requires Walked(c, head, pages, Some(id)) && id < |c| && id !in pages
    requires WellFormed(c[id]) && ViewOf(c[id]).owner == head
    ensures Walked(c, head, pages + [id], ViewOf(c[id]).next)
  {
    hide WellFormed, ViewOf;
    var grown, next := pages + [id], ViewOf(c[id]).next;
    forall i | 0 <= i < |grown| ensures grown[i] < |c| && WalkedAt(c, head, grown, next, i) {
      if i < |pages| { assert WalkedAt(c, head, pages, Some(id), i); }
    }
  }

  lemma Unwalked(c: seq<Page>, head: PageId)
    ensures Walked(c, head, [], Some(head)) && Inverse([], map[])
  {
  }

  lemma IndexedPages(pages: seq<PageId>, indices: map<PageId, nat>, id: PageId)
    requires Inverse(pages, indices)
    ensures id in indices <==> id in pages
  {
  }

  lemma WalkBound(c: seq<Page>, head: PageId, pages: seq<PageId>, next: Option<PageId>)
    requires Walked(c, head, pages, next)
    ensures |pages| <= |c| && Distinct(pages)
  {
    DistinctBound(pages, |c|);
  }

  lemma WalkDone(c: seq<Page>, head: PageId, pages: seq<PageId>)
    requires Walked(c, head, pages, None)
    ensures Chain(c, head, pages) && |pages| > 0 && pages[0] == head && Distinct(pages) && Allocated(pages, |c|)
  {
    hide WellFormed, ViewOf;
    forall i | 0 <= i < |pages| ensures PageInChain(c, head, pages, i) { assert WalkedAt(c, head, pages, None, i); }
  }

  /** A list of distinct allocated pages is no longer than the store. */
  lemma DistinctBound(pages: seq<PageId>, n: nat)
    requires Distinct(pages) && Allocated(pages, n)
    ensures |pages| <= n
  {
    var s := set i | 0 <= i < |pages| :: pages[i];
    SetOfDistinct(pages);
    assert s <= Interval(0, n);
    SubsetCard(s, Interval(0, n));
  }

  lemma {:induction false} SetOfDistinct(pages: seq<PageId>)
    requires Distinct(pages)
    ensures |set i | 0 <= i < |pages| :: pages[i]| == |pages|
  {
    if pages != [] {
      var n := |pages| - 1;
      SetOfDistinct(pages[..n]);
      var rest := set i | 0 <= i < |pages[..n]| :: pages[..n][i];
      assert (set i | 0 <= i < |pages| :: pages[i]) == rest + {pages[n]} by {
        forall p | p in rest + {pages[n]} ensures p in (set i | 0 <= i < |pages| :: pages[i]) {
          if p in rest { var i :| 0 <= i < n && pages[..n][i] == p; assert pages[i] == p; }
        }
      }
    }
  }

  /** `HeapTable::open` on arbitrary page contents: it always terminates; success is a sound
      handle on the chain, any error without a cause in the pool that no chain starts at head. */
  method OpenHeap(pool: BufferPool, head: PageId) returns (r: Result<HeapTable, HeapError>)
    requires pool.Valid()
    modifies pool, pool.store
    ensures pool.Valid() && pool.Contents() == old(pool.Contents()) && pool.frames.live == old(pool.frames.live)
    ensures pool.Later()
    ensures r.Ok? ==> fresh(r.value) && r.value.pool == pool && r.value.head == head && r.value.Sound()
    ensures r.Err? ==> (r.error.Buffer? && pool.Refused(r.error.error)) || !HasChain(pool.Contents(), head)
    ensures r.Err? ==> r.error.CorruptHeap? || r.error.Buffer?
  {
    hide WellFormed, ViewOf, Coherent, Logical, BufferPool.Valid, BufferPool.Contents, HasChain, Chain, Walked, Inverse;
    Unwalked(pool.Contents(), head);
    ghost var c := pool.Contents();
    var pages: seq<PageId>, indices: map<PageId, nat> := [], map[];
    var next := Some(head);
    while next.Some?
      invariant pool.Valid() && pool.Contents() == c && pool.frames.live == old(pool.frames.live) && pool.Later()
      invariant Walked(c, head, pages, next) && Inverse(pages, indices)
      invariant |pages| <= |c| && Distinct(pages)
      decreases |c| - |pages|, next
    {
      var id := next.value;
      IndexedPages(pages, indices, id);
      if id in indices {
        WalkBroken(c, head, pages, id);
        return Err(CorruptHeap);
      }
      var read := Look(pool, id);
      if read.Err? {
        if id >= |c| { WalkBroken(c, head, pages, id); }
        return Err(Buffer(read.error));
      }
      var data := read.value;
      if !WellFormed(data) || ViewOf(data).owner != head {
        WalkBroken(c, head, pages, id);
        return Err(CorruptHeap);
      }
      WalkStep(c, head, pages, id);
      InverseExtend(pages, indices, id);
      indices := indices[id := |pages|];
      pages := pages + [id];
      next := ViewOf(data).next;
      WalkBound(c, head, pages, next);
    }
    WalkDone(c, head, pages);
    var heap := new HeapTable(pool, head, pages, indices);
    return Ok(heap);
  }

  /** Read one page under a pin of its own. */
  method Look(pool: BufferPool, id: PageId) returns (r: Result<Page, BufferError>)
    requires pool.Valid()
    modifies pool, pool.store
    ensures pool.Valid() && pool.Contents() == old(pool.Contents()) && pool.frames.live == old(pool.frames.live)
    ensures pool.Later() && (r.Err? && id < |pool.Contents()| ==> pool.Refused(r.error))
    ensures r.Ok? ==> id < |pool.Contents()| && r.value == pool.Contents()[id]
  {
    hide Coherent, Logical, BufferPool.Valid, BufferPool.Contents;
    var pinned := pool.PinPage(id);
    if pinned.Err? { return Err(pinned.error); }
    var data := pool.Read(pinned.value);
    pool.Unpin(pinned.value);
    return Ok(data);
  }

  /** Closing a sound heap with a quiesced flush and reopening it in a fresh pool over the same
      store, the old handle dropped, gives the same chain and the same table, unless the device
      fails, the flush meets a full pin counter, or the policy misleads the new pool. */
  method CloseAndReopen(heap: HeapTable, capacity: nat) returns (r: Result<HeapTable, HeapError>, ghost lied: bool)
    requires heap.Sound() && capacity > 0
    modifies heap.pool, heap.pool.store
    ensures r.Err? ==> r.error.Buffer?
    ensures r.Err? ==>
              match r.error.error
              case Io => heap.pool.store.faults > old(heap.pool.store.faults)
              case PinOverflow => exists i | 0 <= i < |heap.pool.frames.pins| :: heap.pool.frames.pins[i] >= MAX_PINS
              case _ => lied
    ensures r.Ok? ==> r.value.Sound() && r.value.pages == old(heap.pages) && r.value.Rows() == old(heap.Rows())
  {
    hide WellFormed, ViewOf, Logical, TableOf, Chain;
    lied := false;
    ghost var c := heap.pool.Contents();
    var flushed := heap.pool.FlushAll();
    if flushed.Err? { return Err(Buffer(flushed.error)), false; }
    assert heap.pool.store.pages == c;
    var pool := new BufferPool(capacity, heap.pool.store);
    assert pool.Contents() == c;
    r := OpenHeap(pool, heap.head);
    assert Chain(c, heap.head, heap.pages);
    if r.Ok? {
      ChainsEqual(c, heap.head, heap.pages, r.value.pages);
    } else {
      UnpinnedFrames(pool.frames, pool.store.pages);
      lied := !pool.honest;
    }
  }
}
