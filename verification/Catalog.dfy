/** The heap-backed catalog of crates/catalog/src/lib.rs. */
module Catalogs {
  import opened Options
  import opened BufferPools
  import opened HeapPage
  import opened PageOps
  import opened HeapTables
  import opened HeapOpen
  import opened HeapScans
  import opened Sql
  import opened Codec
  import opened CatalogRecords

  datatype CatalogError =
    | Heap(error: HeapError)
    | TableExists
    | InvalidMetadata
    | Corruption

  /** A table's open heap and its metadata. */
  datatype Source = Source(heap: HeapTable, metadata: Metadata)

  type Entries = map<string, Source>

  /** Failures of the page store or the pool, which say nothing about the pages. */
  predicate InputOutput(e: CatalogError) { e.Heap? && e.error.Buffer? }

  /** Such a failure, with its cause. */
  twostate predicate Excused(pool: BufferPool, e: CatalogError)
    reads pool, pool.store
  {
    InputOutput(e) && pool.Refused(e.error.error)
  }

  /** The same where pages are allocated: their IDs may be used up. */
  twostate predicate Exhausted(pool: BufferPool, e: CatalogError)
    requires pool.Valid()
    reads pool, pool.store
  {
    Excused(pool, e) || (e == Heap(Buffer(Io)) && |pool.Contents()| >= PAGE_IDS)
  }

  /** The cache holds exactly the tables ms, by name. */
  predicate Caches(entries: Entries, ms: seq<Metadata>) {
    && (forall i | 0 <= i < |ms| :: ms[i].name in entries && entries[ms[i].name].metadata == ms[i])
    && forall n | n in entries :: entries[n].metadata.name == n && entries[n].metadata in ms
  }

  /** The handle agrees with the chain found in the pages c. */
  ghost predicate HandleAt(h: HeapTable, pool: BufferPool, c: seq<Page>)
    reads h
  {
    h.pool == pool && Inverse(h.pages, h.indices) && Chain(c, h.head, h.pages)
  }

  /** The handle's pages hold a table. */
  ghost predicate ShowsTable(h: HeapTable, c: seq<Page>)
    reads h
  {
    Chain(c, h.head, h.pages)
  }

  lemma HandleSound(h: HeapTable, pool: BufferPool)
    requires pool.Valid()
    ensures HandleAt(h, pool, pool.Contents()) <==> h.pool == pool && h.Sound()
  {
    hide Coherent, Logical, CheckedHeader;
    if HandleAt(h, pool, pool.Contents()) {
      forall i | 0 <= i < |h.pages|
        ensures h.pages[i] < |pool.Contents()|
      {
        assert PageInChain(pool.Contents(), h.head, h.pages, i);
      }
    }
  }

  ghost predicate SourceAt(s: Source, pool: BufferPool, c: seq<Page>)
    reads s.heap
  {
    HandleAt(s.heap, pool, c) && s.heap.head == s.metadata.head
  }

  ghost predicate SourcesAt(entries: Entries, heaps: set<HeapTable>, pool: BufferPool, c: seq<Page>)
    reads heaps
  {
    forall n | n in entries :: entries[n].heap in heaps && SourceAt(entries[n], pool, c)
  }

  lemma CatalogParts(c: seq<Page>, root: PageId, pages: seq<PageId>, ms: seq<Metadata>)
    requires CatalogAt(c, root, pages, ms)
    ensures Chain(c, root, pages) && Apart(root, ms)
  {
  }

  lemma EntryHeads(entries: Entries, ms: seq<Metadata>, root: PageId)
    requires Caches(entries, ms) && Apart(root, ms)
    ensures forall n | n in entries :: entries[n].metadata.head != root
  {
  }

  lemma EntriesApart(entries: Entries, ms: seq<Metadata>, root: PageId, a: string, b: string)
    requires Caches(entries, ms) && Apart(root, ms) && a in entries && b in entries && a != b
    ensures entries[a].metadata.head != entries[b].metadata.head
  {
    var i :| 0 <= i < |ms| && ms[i] == entries[a].metadata;
    var j :| 0 <= j < |ms| && ms[j] == entries[b].metadata;
    assert i != j;
  }

  /** The tables determine the cache. */
  lemma CachesAgree(e: Entries, f: Entries, ms: seq<Metadata>)
    requires Caches(e, ms) && Caches(f, ms)
    ensures e.Keys == f.Keys && forall n | n in e :: e[n].metadata == f[n].metadata
  {
    forall n | n in e ensures n in f && e[n].metadata == f[n].metadata {
      var i :| 0 <= i < |ms| && ms[i] == e[n].metadata;
    }
    forall n | n in f ensures n in e {
      var i :| 0 <= i < |ms| && ms[i] == f[n].metadata;
    }
  }

  lemma CachesExtend(entries: Entries, ms: seq<Metadata>, s: Source)
    requires Caches(entries, ms) && s.metadata.name !in entries
    ensures Caches(entries[s.metadata.name := s], ms + [s.metadata])
    ensures forall i | 0 <= i < |ms| :: ms[i].name != s.metadata.name
  {
  }

  /** Handles survive what happens within another heap. */
  lemma SourcesKept(entries: Entries, heaps: set<HeapTable>, pool: BufferPool, c: seq<Page>, c': seq<Page>,
                    other: PageId, owned: seq<PageId>)
    requires SourcesAt(entries, heaps, pool, c) && Chain(c, other, owned) && Within(c, c', owned)
    requires forall n | n in entries :: entries[n].metadata.head != other
    ensures SourcesAt(entries, heaps, pool, c')
  {
    hide TableOf, Chain, Inverse, Within;
    forall n | n in entries ensures SourceAt(entries[n], pool, c') {
      assert SourceAt(entries[n], pool, c);
      ChainKept(c, c', entries[n].heap.head, entries[n].heap.pages, other, owned);
    }
  }

  lemma SourcesExtend(entries: Entries, heaps: set<HeapTable>, pool: BufferPool, c: seq<Page>, name: string, s: Source)
    requires SourcesAt(entries, heaps, pool, c) && SourceAt(s, pool, c) && name !in entries
    ensures SourcesAt(entries[name := s], heaps + {s.heap}, pool, c)
  {
    hide SourceAt;
    var grown := entries[name := s];
    forall n | n in grown ensures grown[n].heap in heaps + {s.heap} && SourceAt(grown[n], pool, c) {
      if n != name { assert SourceAt(entries[n], pool, c); }
    }
  }

  lemma HeadWidth(m: Metadata, head: PageId)
    ensures Storable(m) <==> Storable(m.(head := head))
  {
    hide Many, Text32, ColumnSmall, ConstraintSmall;
  }

  lemma StoredTuple(m: Metadata)
    requires Storable(m)
    ensures TupleOk(RecordBytes(m)) && RecordBytes(m) == RecordBytesOf(m)
  {
    hide Many, Text32, ColumnSmall, ConstraintSmall, ValidMetadata;
  }

  /** Publishing a new table's record adds the table to the pages and to the cache. */
  lemma Published(metadata: HeapTable, pages: seq<PageId>, c: seq<Page>, c': seq<Page>, entries: Entries,
                  heaps: set<HeapTable>, ms: seq<Metadata>, s: Source, ctid: Ctid)
    requires CatalogAt(c, metadata.head, pages, ms) && Caches(entries, ms) &&
               SourcesAt(entries, heaps, metadata.pool, c)
    requires SourceAt(s, metadata.pool, c) && Storable(s.metadata) && s.metadata.name !in entries
    requires s.metadata.head != metadata.head && forall i | 0 <= i < |ms| :: ms[i].head != s.metadata.head
    requires HandleAt(metadata, metadata.pool, c') && Within(c, c', pages)
    requires Inserted(pages, TableOf(c, metadata.head, pages), metadata.pages,
               TableOf(c', metadata.head, metadata.pages), ctid, RecordBytesOf(s.metadata))
    ensures CatalogAt(c', metadata.head, metadata.pages, ms + [s.metadata])
    ensures Caches(entries[s.metadata.name := s], ms + [s.metadata])
    ensures SourcesAt(entries[s.metadata.name := s], heaps + {s.heap}, metadata.pool, c')
    ensures ShowsTable(s.heap, c') && ShowsTable(s.heap, c)
    ensures TableOf(c', s.heap.head, s.heap.pages) == TableOf(c, s.heap.head, s.heap.pages)
  {
    hide CatalogAt, TableOf, Chain, Inverse, Caches, SourcesAt, Within, Inserted, Storable, Apart;
    CachesExtend(entries, ms, s);
    CatalogParts(c, metadata.head, pages, ms);
    ApartExtend(metadata.head, ms, s.metadata);
    assert HasChain(c, s.metadata.head);
    CatalogInserted(c, c', metadata.head, pages, metadata.pages, ms, s.metadata, ctid);
    EntryHeads(entries, ms, metadata.head);
    SourcesKept(entries, heaps, metadata.pool, c, c', metadata.head, pages);
    ChainKept(c, c', s.heap.head, s.heap.pages, metadata.head, pages);
    SourcesExtend(entries, heaps, metadata.pool, c', s.metadata.name, s);
  }

  /** Insertion into a heap, said of the pages. */
  method Append(heap: HeapTable, bytes: Tuple) returns (r: Result<Ctid, HeapError>)
    requires heap.pool.Valid() && HandleAt(heap, heap.pool, heap.pool.Contents()) && TupleOk(bytes)
    modifies heap, heap.pool, heap.pool.store
    ensures heap.pool.Valid() && HandleAt(heap, heap.pool, heap.pool.Contents()) &&
              heap.pool.frames.live == old(heap.pool.frames.live)
    ensures Within(old(heap.pool.Contents()), heap.pool.Contents(), old(heap.pages)) && heap.pool.Later()
    ensures r.Err? ==> heap.pages == old(heap.pages) && Exhausted(heap.pool, Heap(r.error))
    ensures r.Err? ==>
              TableOf(heap.pool.Contents(), heap.head, heap.pages) ==
              TableOf(old(heap.pool.Contents()), heap.head, heap.pages)
    ensures r.Ok? ==>
              Inserted(old(heap.pages), TableOf(old(heap.pool.Contents()), heap.head, old(heap.pages)), heap.pages,
                               TableOf(heap.pool.Contents(), heap.head, heap.pages), r.value, bytes)
  {
    hide Coherent, Logical, TableOf, Chain, Distinct, Inverse, Allocated, HandleAt, Inserted;
    HandleSound(heap, heap.pool);
    r := heap.Insert(bytes);
    HandleSound(heap, heap.pool);
  }

  class HeapCatalog {
    const pool: BufferPool
    const metadata: HeapTable
    var entries: Entries
    ghost var tables: seq<Metadata>
    ghost var heaps: set<HeapTable>

    constructor (pool: BufferPool, metadata: HeapTable, entries: Entries, ghost tables: seq<Metadata>,
                 ghost heaps: set<HeapTable>)
      ensures this.pool == pool && this.metadata == metadata && this.entries == entries && this.tables == tables &&
                this.heaps == heaps
    {
      this.pool, this.metadata, this.entries, this.tables, this.heaps := pool, metadata, entries, tables, heaps;
    }

    /** The pages c hold exactly the cached tables, and every handle is on its table's heap. */
    ghost predicate ValidAt(c: seq<Page>)
      reads this, metadata, heaps
    {
      && metadata !in heaps && HandleAt(metadata, pool, c) && CatalogAt(c, metadata.head, metadata.pages, tables)
      && Caches(entries, tables) && SourcesAt(entries, heaps, pool, c)
    }

    ghost predicate Valid()
      reads this, metadata, heaps, pool, pool.store
    {
      pool.Valid() && ValidAt(pool.Contents())
    }

    /** Pages added to the pool leave the catalog as it is. */
    lemma Grown(c: seq<Page>, c': seq<Page>)
      requires ValidAt(c) && c <= c'
      ensures ValidAt(c')
    {
      hide CatalogAt, TableOf, Chain, Inverse, Caches, SourcesAt;
      CatalogGrown(c, c', metadata.head, metadata.pages, tables);
      CatalogParts(c, metadata.head, metadata.pages, tables);
      CatalogParts(c', metadata.head, metadata.pages, tables);
      EntryHeads(entries, tables, metadata.head);
      SourcesKept(entries, heaps, pool, c, c', metadata.head, metadata.pages);
    }

    /** So does an insertion into the metadata heap that failed. */
    lemma Unpublished(c: seq<Page>, c': seq<Page>)
      requires ValidAt(c) && HandleAt(metadata, pool, c') && Within(c, c', metadata.pages)
      requires TableOf(c', metadata.head, metadata.pages) == TableOf(c, metadata.head, metadata.pages)
      ensures ValidAt(c')
    {
      hide CatalogAt, TableOf, Chain, Inverse, Caches, SourcesAt, Within;
      CatalogParts(c, metadata.head, metadata.pages, tables);
      CatalogSame(c, c', metadata.head, metadata.pages, tables);
      EntryHeads(entries, tables, metadata.head);
      SourcesKept(entries, heaps, pool, c, c', metadata.head, metadata.pages);
    }

    lemma Heads(c: seq<Page>)
      requires ValidAt(c)
      ensures metadata.head < |c| && forall i | 0 <= i < |tables| :: tables[i].head < |c|
    {
      hide CatalogAt, TableOf, Chain, Inverse, Caches, SourcesAt;
      HeadsExist(c, metadata.head, metadata.pages, tables);
    }

    /** Whatever one table's heap does within itself leaves the catalog as it is. */
    twostate lemma TableChanged(name: string)
      requires old(Valid()) && entries == old(entries) && tables == old(tables) && heaps == old(heaps) &&
                 name in entries
      requires metadata.pages == old(metadata.pages) && metadata.indices == old(metadata.indices)
      requires forall h | h in heaps && h != entries[name].heap ::
                 h.pages == old(h.pages) && h.indices == old(h.indices)
      requires pool.Valid() && Within(old(pool.Contents()), pool.Contents(), old(entries[name].heap.pages))
      requires HandleAt(entries[name].heap, pool, pool.Contents())
      ensures Valid()
    {
      hide Coherent, Logical, TableOf, Chain, Inverse, CatalogAt, Within, Caches, Apart;
      var c, c' := old(pool.Contents()), pool.Contents();
      var h := entries[name].heap;
      var owned := old(h.pages);
      assert old(SourceAt(entries[name], pool, c));
      CatalogParts(c, metadata.head, metadata.pages, tables);
      EntryHeads(entries, tables, metadata.head);
      CatalogElsewhere(c, c', metadata.head, metadata.pages, tables, h.head, owned);
      ChainKept(c, c', metadata.head, metadata.pages, h.head, owned);
      forall n | n in entries ensures entries[n].heap in heaps && SourceAt(entries[n], pool, c') {
        assert old(SourceAt(entries[n], pool, c));
        if n != name {
          EntriesApart(entries, tables, metadata.head, n, name);
          ChainKept(c, c', entries[n].heap.head, entries[n].heap.pages, h.head, owned);
        }
      }
    }

    /** `table`. */
    method Table(name: string) returns (r: Option<Source>)
      requires Valid()
      ensures r.Some? <==> exists i | 0 <= i < |tables| :: tables[i].name == name
      ensures r.Some? ==> r.value.metadata in tables && r.value.metadata.name == name
      ensures r.Some? ==> r.value.heap.Sound() && r.value.heap.head == r.value.metadata.head
    {
      hide Coherent, Logical, Chain, Inverse, CatalogAt;
      if name !in entries { return None; }
      r := Some(entries[name]);
      assert SourceAt(r.value, pool, pool.Contents());
      HandleSound(r.value.heap, pool);
    }

    /** `create_table`. A failure leaves the catalog as it was; the second encoding cannot fail,
        because the head has a fixed width. */
    method CreateTable(name: string, columns: seq<Column>, constraints: seq<Constraint>)
      returns (r: Result<Source, CatalogError>)
      requires Valid()
      modifies this, metadata, pool, pool.store
      ensures Valid() && pool.frames.live == old(pool.frames.live) && pool.Later()
      ensures Within(old(pool.Contents()), pool.Contents(), old(metadata.pages))
      ensures r.Err? ==> tables == old(tables) && entries == old(entries)
      ensures r.Err? && r.error.TableExists? <==> name in old(entries)
      ensures r.Err? && r.error.InvalidMetadata? <==>
                name !in old(entries) && !Storable(Metadata(name, columns, 0, constraints))
      ensures r.Err? ==> r.error.TableExists? || r.error.InvalidMetadata? || Exhausted(pool, r.error)
      ensures r.Err? && !r.error.Heap? ==> pool.Contents() == old(pool.Contents())
      ensures r.Ok? ==>
                && fresh(r.value.heap) && r.value.heap.head == |old(pool.Contents())|
                && ShowsTable(r.value.heap, pool.Contents())
                && TableOf(pool.Contents(), r.value.heap.head, r.value.heap.pages) == [[]]
                && r.value.metadata == Metadata(name, columns, r.value.heap.head, constraints)
                && tables == old(tables) + [r.value.metadata] && entries == old(entries)[name := r.value]
    {
      hide CatalogAt, Coherent, Logical, TableOf, Chain, Distinct, Inverse, Allocated, Storable, ValidAt;
      if name in entries { return Err(TableExists); }
      var m := Metadata(name, columns, 0, constraints);
      var checked := EncodeRecord(m);
      if checked.None? { return Err(InvalidMetadata); }
      ghost var c := pool.Contents();
      Heads(c);
      var created := CreateHeap(pool);
      Grown(c, pool.Contents());
      if created.Err? { return Err(Heap(created.error)); }
      HandleSound(created.value, pool);
      r := Publish(created.value, m);
    }

    /** The second half of `create_table`: write the new heap's record. */
    method Publish(heap: HeapTable, declared: Metadata) returns (r: Result<Source, CatalogError>)
      requires Valid() && HandleAt(heap, pool, pool.Contents())
      requires declared.name !in entries && Storable(declared)
      requires heap !in heaps && heap != metadata && heap.head != metadata.head
      requires forall i | 0 <= i < |tables| :: tables[i].head != heap.head
      modifies this, metadata, pool, pool.store
      ensures Valid() && pool.frames.live == old(pool.frames.live) && pool.Later()
      ensures Within(old(pool.Contents()), pool.Contents(), old(metadata.pages))
      ensures r.Err? ==> tables == old(tables) && entries == old(entries) && Exhausted(pool, r.error)
      ensures r.Ok? ==>
                && r.value == Source(heap, declared.(head := heap.head)) && ShowsTable(heap, pool.Contents())
                && TableOf(pool.Contents(), heap.head, heap.pages) ==
                     old(TableOf(pool.Contents(), heap.head, heap.pages))
                && tables == old(tables) + [r.value.metadata] && entries == old(entries)[declared.name := r.value]
    {
      hide CatalogAt, Coherent, Logical, TableOf, Chain, Inverse, Storable, Caches, SourcesAt, Within, Inserted;
      var m := declared.(head := heap.head);
      HeadWidth(declared, heap.head);
      var bytes := EncodeRecord(m);
      StoredTuple(m);
      ghost var c := pool.Contents();
      var inserted := Append(metadata, bytes.value);
      if inserted.Err? {
        Unpublished(c, pool.Contents());
        return Err(Heap(inserted.error));
      }
      var source := Source(heap, m);
      Published(metadata, old(metadata.pages), c, pool.Contents(), entries, heaps, tables, source, inserted.value);
      entries := entries[m.name := source];
      tables := tables + [m];
      heaps := heaps + {heap};
      return Ok(source);
    }
  }

  /** `HeapCatalog::create`. */
  method CreateCatalog(pool: BufferPool) returns (r: Result<HeapCatalog, CatalogError>)
    requires pool.Valid()
    modifies pool, pool.store
    ensures pool.Valid() && pool.frames.live == old(pool.frames.live) && pool.Later()
    ensures Within(old(pool.Contents()), pool.Contents(), [])
    ensures r.Err? ==> Exhausted(pool, r.error)
    ensures r.Ok? ==>
              fresh(r.value) && fresh(r.value.metadata) && r.value.pool == pool && r.value.Valid() &&
              r.value.tables == []
  {
    hide Coherent, Logical, TableOf, Chain, Inverse, Inserted, HandleAt, LiveRecords;
    var created := CreateHeap(pool);
    if created.Err? { return Err(Heap(created.error)); }
    var metadata := created.value;
    ghost var c := pool.Contents();
    ghost var pages := metadata.pages;
    HandleSound(metadata, pool);
    var inserted := Append(metadata, MANIFEST());
    if inserted.Err? { return Err(Heap(inserted.error)); }
    FirstRecord(c, pool.Contents(), metadata, pages);
    var catalog := new HeapCatalog(pool, metadata, map[], [], {});
    return Ok(catalog);
  }

  /** The scan has found only what the pages c hold, and has not failed. */
  ghost predicate Reading(scan: HeapScan, c: seq<Page>)
    reads scan, scan.heap
  {
    && HandleAt(scan.heap, scan.heap.pool, c) && !scan.cursor.failed
    && var t := TableOf(c, scan.heap.head, scan.heap.pages);
       && scan.bounds == BoundsOf(scan.heap.pages, t) && Consistent(scan.bounds, scan.cursor, scan.log)
       && FreshFrom(scan.log.visits, scan.bounds, t, 0)
  }

  ghost function Records(h: HeapTable, c: seq<Page>): (bs: seq<Tuple>)
    requires HandleAt(h, h.pool, c)
    reads h
  {
    LiveRecords(h.pages, TableOf(c, h.head, h.pages))
  }

  /** The next metadata record. */
  method Pull(scan: HeapScan, ghost c: seq<Page>) returns (r: Option<Result<Tuple, HeapError>>)
    requires scan.heap.pool.Valid() && scan.heap.pool.Contents() == c && Reading(scan, c)
    modifies scan, scan.heap.pool, scan.heap.pool.store
    ensures scan.heap.pool.Valid() && scan.heap.pool.Contents() == c &&
              scan.heap.pool.frames.live == old(scan.heap.pool.frames.live)
    ensures HandleAt(scan.heap, scan.heap.pool, c) && scan.heap.pool.Later()
    ensures r.None? ==> old(Tuples(scan.log.emitted)) == Records(scan.heap, c)
    ensures r.Some? && r.value.Err? ==> Excused(scan.heap.pool, Heap(r.value.error))
    ensures r.Some? && r.value.Ok? ==>
              && Reading(scan, c) && Tuples(scan.log.emitted) == old(Tuples(scan.log.emitted)) + [r.value.value]
              && Tuples(scan.log.emitted) <= Records(scan.heap, c)
  {
    hide Coherent, Logical, TableOf, Chain, Inverse, Consistent, FreshFrom, LiveRecords;
    ghost var t := TableOf(c, scan.heap.head, scan.heap.pages);
    HandleSound(scan.heap, scan.heap.pool);
    ghost var visits := scan.log.visits;
    var next := scan.Next();
    FreshJoin(visits, scan.log.visits, scan.bounds, t);
    ScanPrefix(scan.heap.pages, t, scan.cursor, scan.log);
    if next.None? { return None; }
    if next.value.Err? { return Some(Err(next.value.error)); }
    return Some(Ok(next.value.value.1));
  }

  lemma FreshJoin(visits: Table, visits': Table, bounds: seq<(PageId, nat)>, t: Table)
    requires visits <= visits' && FreshFrom(visits, bounds, t, 0) && FreshFrom(visits', bounds, t, |visits|)
    ensures FreshFrom(visits', bounds, t, 0)
  {
    forall i | 0 <= i < |visits'| ensures Fresh(visits', bounds, t, i) {
      if i < |visits| { assert Fresh(visits, bounds, t, i); }
    }
  }

  lemma FirstRecord(c: seq<Page>, c': seq<Page>, metadata: HeapTable, pages: seq<PageId>)
    requires Chain(c, metadata.head, pages) && TableOf(c, metadata.head, pages) == [[]]
    requires HandleAt(metadata, metadata.pool, c')
    requires exists ctid :: Inserted(pages, [[]], metadata.pages, TableOf(c', metadata.head, metadata.pages), ctid,
               MANIFEST())
    ensures CatalogAt(c', metadata.head, metadata.pages, [])
  {
    hide Chain, TableOf, Inserted, Inverse;
    var ctid :| Inserted(pages, [[]], metadata.pages, TableOf(c', metadata.head, metadata.pages), ctid, MANIFEST());
    var none: Table := [[]];
    OutputStep(pages, [], []);
    assert [] + [[]] == none && Output(pages, none) == [];
    LiveInserted(pages, none, metadata.pages, TableOf(c', metadata.head, metadata.pages), ctid, MANIFEST());
  }

  /** One record of `open`: decode it and open its heap. */
  method LoadSource(pool: BufferPool, entries: Entries, roots: set<PageId>, bytes: Tuple)
    returns (r: Result<Source, CatalogError>)
    requires pool.Valid()
    modifies pool, pool.store
    ensures pool.Valid() && pool.Contents() == old(pool.Contents()) && pool.frames.live == old(pool.frames.live)
    ensures pool.Later()
    ensures r.Ok? ==>
              && fresh(r.value.heap) && SourceAt(r.value, pool, pool.Contents()) && RecordIs(bytes, r.value.metadata)
              && r.value.metadata.name !in entries && r.value.metadata.head !in roots
    ensures r.Err? ==>
              || Excused(pool, r.error)
              || forall m | RecordIs(bytes, m) :: m.name in entries || m.head in roots ||
                  !HasChain(pool.Contents(), m.head)
    ensures r.Err? ==> r.error.Heap? || r.error == Corruption
    ensures r.Err? && r.error == Corruption ==> forall m | RecordIs(bytes, m) :: m.name in entries || m.head in roots
  {
    hide Coherent, Logical, TableOf, Chain, Inverse, RecordBytes, ValidMetadata, Small;
    if bytes == MANIFEST() {
      forall m ensures !RecordIs(bytes, m) { ManifestIsNoRecord(m); }
      return Err(Corruption);
    }
    var decoded := DecodeRecord(bytes);
    if decoded.None? { return Err(Corruption); }
    var m := decoded.value;
    forall m' | RecordIs(bytes, m') ensures m' == m { SameRecord(bytes, m, m'); }
    if m.name in entries || m.head in roots { return Err(Corruption); }
    var heap := OpenHeap(pool, m.head);
    if heap.Err? { return Err(Heap(heap.error)); }
    HandleSound(heap.value, pool);
    return Ok(Source(heap.value, m));
  }

  predicate RootsAre(roots: set<PageId>, root: PageId, ms: seq<Metadata>) {
    && root in roots && (forall i | 0 <= i < |ms| :: ms[i].head in roots)
    && forall h | h in roots :: h == root || exists i | 0 <= i < |ms| :: ms[i].head == h
  }

  /** What `open` has built from the first records. */
  ghost predicate Loaded(c: seq<Page>, root: PageId, ms: seq<Metadata>, pool: BufferPool, entries: Entries,
                         heaps: set<HeapTable>, roots: set<PageId>)
    reads heaps
  {
    && Apart(root, ms) && Heaped(c, ms) && RootsAre(roots, root, ms)
    && Caches(entries, ms) && SourcesAt(entries, heaps, pool, c)
  }

  lemma LoadedExtend(c: seq<Page>, root: PageId, ms: seq<Metadata>, pool: BufferPool, entries: Entries,
                     heaps: set<HeapTable>, roots: set<PageId>, s: Source)
    requires Loaded(c, root, ms, pool, entries, heaps, roots) && SourceAt(s, pool, c)
    requires s.metadata.name !in entries && s.metadata.head !in roots
    ensures Loaded(c, root, ms + [s.metadata], pool, entries[s.metadata.name := s], heaps + {s.heap},
              roots + {s.metadata.head})
  {
    hide Apart, Chain, Caches, SourcesAt, SourceAt;
    var m := s.metadata;
    CachesExtend(entries, ms, s);
    SourcesExtend(entries, heaps, pool, c, m.name, s);
    ApartExtend(root, ms, m);
    SourceChain(s, pool, c);
    RootsExtend(roots, root, ms, m);
  }

  lemma RootsExtend(roots: set<PageId>, root: PageId, ms: seq<Metadata>, m: Metadata)
    requires RootsAre(roots, root, ms)
    ensures RootsAre(roots + {m.head}, root, ms + [m])
  {
    forall h | h in roots + {m.head} ensures h == root || exists i | 0 <= i < |ms + [m]| :: (ms + [m])[i].head == h {
      if h in roots && h != root {
        var i :| 0 <= i < |ms| && ms[i].head == h;
        assert (ms + [m])[i].head == h;
      } else if h != root {
        assert (ms + [m])[|ms|].head == h;
      }
    }
  }

  lemma SourceChain(s: Source, pool: BufferPool, c: seq<Page>)
    requires SourceAt(s, pool, c)
    ensures HasChain(c, s.metadata.head)
  {
    assert Chain(c, s.heap.head, s.heap.pages);
  }

  /** A record that cannot be loaded means that no catalog starts at the root. */
  lemma Unloadable(c: seq<Page>, h: HeapTable, bs: seq<Tuple>, ms: seq<Metadata>, b: Tuple, pool: BufferPool,
                   entries: Entries, heaps: set<HeapTable>, roots: set<PageId>)
    requires HandleAt(h, pool, c) && RecordsAre(bs, ms) && bs + [b] <= Records(h, c)
    requires Loaded(c, h.head, ms, pool, entries, heaps, roots)
    requires forall m | RecordIs(b, m) :: m.name in entries || m.head in roots || !HasChain(c, m.head)
    ensures NoCatalog(c, h.head)
  {
    hide Apart, Chain, RecordsAre, RecordIs, HasChain, SourcesAt, CatalogAt, TableOf, LiveRecords, Heaped, Inverse;
    forall m | RecordIs(b, m)
      ensures || m.head == h.head || !HasChain(c, m.head)
              || exists i | 0 <= i < |ms| :: ms[i].name == m.name || ms[i].head == m.head
    {
      if m.name in entries {
        var i :| 0 <= i < |ms| && ms[i] == entries[m.name].metadata;
        assert ms[i].name == m.name;
      }
    }
    forall ps, all ensures !CatalogAt(c, h.head, ps, all) { BadRecord(c, h.head, h.pages, bs, ms, b, ps, all); }
  }

  ghost predicate NoCatalog(c: seq<Page>, root: PageId) {
    forall ps, all :: !CatalogAt(c, root, ps, all)
  }

  /** `HeapCatalog::open` on arbitrary pages: unless the page store fails, it succeeds exactly
      when a catalog starts at the root. */
  method OpenCatalog(pool: BufferPool, root: PageId) returns (r: Result<HeapCatalog, CatalogError>)
    requires pool.Valid()
    modifies pool, pool.store
    ensures pool.Valid() && pool.Contents() == old(pool.Contents()) && pool.frames.live == old(pool.frames.live)
    ensures pool.Later()
    ensures r.Ok? ==> fresh(r.value) && r.value.pool == pool && r.value.metadata.head == root && r.value.Valid()
    ensures r.Err? ==> Excused(pool, r.error) || NoCatalog(pool.Contents(), root)
    ensures r.Err? ==> r.error.Heap? || (r.error == Corruption && HasChain(pool.Contents(), root))
  {
    hide Coherent, Logical, TableOf, Chain, Inverse, CatalogAt, LiveRecords, Reading;
    ghost var c := pool.Contents();
    var opened' := OpenHeap(pool, root);
    if opened'.Err? {
      if !HasChain(c, root) { NoChain(c, root); }
      return Err(Heap(opened'.error));
    }
    var metadata := opened'.value;
    var started := StartReading(metadata);
    if started.Err? { return Err(Heap(started.error)); }
    var scan := started.value;
    var first := Pull(scan, c);
    if first.Some? && first.value.Err? { return Err(Heap(first.value.error)); }
    if first.None? || first.value.value != MANIFEST() {
      forall ps, all ensures !CatalogAt(c, root, ps, all) { NoManifest(c, root, metadata.pages, ps, all); }
      return Err(Corruption);
    }
    r := LoadAll(pool, metadata, scan, c);
  }

  lemma NoChain(c: seq<Page>, root: PageId)
    requires !HasChain(c, root)
    ensures NoCatalog(c, root)
  {
    forall ps, all ensures !CatalogAt(c, root, ps, all) { assert !Chain(c, root, ps); }
  }

  method StartReading(h: HeapTable) returns (r: Result<HeapScan, HeapError>)
    requires h.Sound()
    modifies h.pool, h.pool.store
    ensures h.Sound() && h.pool.Contents() == old(h.pool.Contents()) && h.pool.frames.live == old(h.pool.frames.live)
    ensures h.pool.Later() && (r.Err? ==> Excused(h.pool, Heap(r.error)))
    ensures r.Ok? ==>
              fresh(r.value) && r.value.heap == h && Reading(r.value, h.pool.Contents()) && r.value.log.emitted == []
  {
    hide Coherent, Logical, TableOf, Chain, Inverse, Consistent, FreshFrom;
    r := StartScan(h);
    HandleSound(h, h.pool);
    if r.Ok? { NothingRead([], r.value.bounds, h.Rows()); }
  }

  lemma NothingLoaded(c: seq<Page>, root: PageId, pool: BufferPool)
    ensures Loaded(c, root, [], pool, map[], {}, {root}) && RecordsAre([MANIFEST()], [])
  {
  }

  lemma ReadingHandle(scan: HeapScan, c: seq<Page>)
    requires Reading(scan, c)
    ensures HandleAt(scan.heap, scan.heap.pool, c)
  {
  }

  /** Every record loaded: the catalog is complete. */
  lemma AllLoaded(catalog: HeapCatalog, c: seq<Page>, roots: set<PageId>)
    requires catalog.metadata !in catalog.heaps && HandleAt(catalog.metadata, catalog.pool, c) &&
               catalog.metadata.pool == catalog.pool
    requires RecordsAre(Records(catalog.metadata, c), catalog.tables)
    requires Loaded(c, catalog.metadata.head, catalog.tables, catalog.pool, catalog.entries, catalog.heaps, roots)
    ensures catalog.ValidAt(c)
  {
    hide TableOf, Chain, Inverse, LiveRecords, RecordsAre, Apart, Caches, SourcesAt, Heaped;
  }

  /** The records after the manifest. */
  method LoadAll(pool: BufferPool, metadata: HeapTable, scan: HeapScan, ghost c: seq<Page>)
    returns (r: Result<HeapCatalog, CatalogError>)
    requires pool.Valid() && pool.Contents() == c && metadata.pool == pool && scan.heap == metadata && Reading(scan, c)
    requires Tuples(scan.log.emitted) == [MANIFEST()]
    modifies scan, pool, pool.store
    ensures pool.Valid() && pool.Contents() == c && pool.frames.live == old(pool.frames.live) && pool.Later()
    ensures r.Ok? ==> fresh(r.value) && r.value.pool == pool && r.value.metadata == metadata && r.value.Valid()
    ensures r.Err? ==> Excused(pool, r.error) || NoCatalog(c, metadata.head)
    ensures r.Err? ==> r.error.Heap? || (r.error == Corruption && HasChain(c, metadata.head))
  {
    hide Coherent, Logical, Records, HeapCatalog.ValidAt, CatalogAt, RecordsAre;
    hide RecordIs, Loaded, HandleAt, Reading, SourceAt, NoCatalog;
    var entries: Entries, roots := map[], {metadata.head};
    ghost var ms: seq<Metadata>, heaps: set<HeapTable> := [], {};
    NothingLoaded(c, metadata.head, pool);
    ReadingHandle(scan, c);
    while true
      invariant pool.Valid() && pool.Contents() == c && pool.frames.live == old(pool.frames.live) && pool.Later()
      invariant HandleAt(metadata, pool, c) && Reading(scan, c) && RecordsAre(Tuples(scan.log.emitted), ms)
      invariant Loaded(c, metadata.head, ms, pool, entries, heaps, roots)
      invariant forall h | h in heaps :: fresh(h)
      decreases |Records(metadata, c)| - |scan.log.emitted|
    {
      ghost var bs := Tuples(scan.log.emitted);
      var next := Pull(scan, c);
      if next.None? {
        var catalog := new HeapCatalog(pool, metadata, entries, ms, heaps);
        AllLoaded(catalog, c, roots);
        return Ok(catalog);
      }
      if next.value.Err? { return Err(Heap(next.value.error)); }
      var loaded := LoadSource(pool, entries, roots, next.value.value);
      if loaded.Err? {
        if forall m | RecordIs(next.value.value, m) :: m.name in entries || m.head in roots || !HasChain(c, m.head) {
          Unloadable(c, metadata, bs, ms, next.value.value, pool, entries, heaps, roots);
        }
        return Err(loaded.error);
      }
      var s := loaded.value;
      RecordsExtend(bs, ms, next.value.value, s.metadata);
      LoadedExtend(c, metadata.head, ms, pool, entries, heaps, roots, s);
      entries, roots := entries[s.metadata.name := s], roots + {s.metadata.head};
      ms, heaps := ms + [s.metadata], heaps + {s.heap};
    }
  }

  /** Closing a catalog with a quiesced flush and reopening it in a fresh pool over the same
      store gives the same tables, unless the device fails, the flush meets a full pin counter,
      or the policy misleads the new pool. */
  method CloseAndReopenCatalog(catalog: HeapCatalog, capacity: nat)
    returns (r: Result<HeapCatalog, CatalogError>, ghost lied: bool)
    requires catalog.Valid() && capacity > 0
    modifies catalog.pool, catalog.pool.store
    ensures r.Err? ==> InputOutput(r.error)
    ensures r.Err? ==>
              match r.error.error.error
              case Io => catalog.pool.store.faults > old(catalog.pool.store.faults)
              case PinOverflow =>
                exists i | 0 <= i < |catalog.pool.frames.pins| :: catalog.pool.frames.pins[i] >= MAX_PINS
              case _ => lied
    ensures r.Ok? ==> r.value.Valid() && r.value.tables == old(catalog.tables)
    ensures r.Ok? ==> r.value.entries.Keys == old(catalog.entries).Keys
    ensures r.Ok? ==>
              forall n | n in old(catalog.entries) :: r.value.entries[n].metadata == old(catalog.entries)[n].metadata
  {
    hide Logical, Chain, Inverse, CatalogAt, Caches, SourcesAt;
    lied := false;
    ghost var c := catalog.pool.Contents();
    ghost var pages, ms, root := catalog.metadata.pages, catalog.tables, catalog.metadata.head;
    ghost var before := catalog.entries;
    assert CatalogAt(c, root, pages, ms) && Caches(before, ms);
    var flushed := catalog.pool.FlushAll();
    if flushed.Err? { return Err(Heap(Buffer(flushed.error))), false; }
    var pool := new BufferPool(capacity, catalog.pool.store);
    r := OpenCatalog(pool, catalog.metadata.head);
    if r.Ok? {
      CatalogUnique(c, root, pages, ms, r.value.metadata.pages, r.value.tables);
      CachesAgree(before, r.value.entries, ms);
    } else {
      UnpinnedFrames(pool.frames, pool.store.pages);
      lied := !pool.honest;
    }
  }
}
