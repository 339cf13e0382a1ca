/** What the pages of a catalog say: the metadata heap's records and the tables they describe. */
module CatalogRecords {
  import opened Options
  import opened BufferPools
  import opened HeapPage
  import opened HeapTables
  import opened HeapScans
  import opened Codec

  function Tuples(rows: seq<Row>): (ts: seq<Tuple>)
    ensures |ts| == |rows| && forall i | 0 <= i < |ts| :: ts[i] == rows[i].1
  {
    seq(|rows|, i requires 0 <= i < |rows| => rows[i].1)
  }

  /** The live records of a heap in scan order. */
  function LiveRecords(ids: seq<PageId>, t: Table): (ts: seq<Tuple>)
    requires |t| <= |ids|
  {
    Tuples(Output(ids, t))
  }

  lemma {:induction false} OutputOfPrefix(ids: seq<PageId>, ids': seq<PageId>, t: Table)
    requires |t| <= |ids| && ids <= ids'
    ensures Output(ids, t) == Output(ids', t)
  {
    if t != [] { OutputOfPrefix(ids, ids', t[..|t| - 1]); }
  }

  /** A successful insertion adds its record at the end of the scan order. */
  lemma PageRowsStep(id: PageId, rs: seq<Option<Tuple>>, bytes: Tuple)
    ensures PageRows(id, rs + [Some(bytes)]) == PageRows(id, rs) + [(Ctid(id, |rs| + 1), bytes)]
    ensures PageRows(id, [Some(bytes)]) == [(Ctid(id, 1), bytes)]
  {
    assert (rs + [Some(bytes)])[..|rs|] == rs;
    assert [Some(bytes)][..0] == [];
  }

  lemma LiveInserted(pages: seq<PageId>, t: Table, pages': seq<PageId>, t': Table, ctid: Ctid, bytes: Tuple)
    requires Inserted(pages, t, pages', t', ctid, bytes)
    ensures |t'| == |pages'| && LiveRecords(pages', t') == LiveRecords(pages, t) + [bytes]
  {
    hide PageRows;
    var n := |pages| - 1;
    if ctid.page == pages[n] {
      PageRowsStep(pages[n], t[n], bytes);
      assert t'[..n] == t[..n];
    } else {
      OutputStep(pages', t, [Some(bytes)]);
      OutputOfPrefix(pages, pages', t);
      PageRowsStep(ctid.page, [], bytes);
    }
  }

  /** What a partial scan has yielded starts what the whole scan yields. */
  lemma {:induction false} OutputPrefix(ids: seq<PageId>, visits: Table, t: Table)
    requires visits <= t && |t| <= |ids|
    ensures Output(ids, visits) <= Output(ids, t)
  {
    if |visits| < |t| {
      OutputPrefix(ids, visits, t[..|t| - 1]);
    } else {
      assert visits == t;
    }
  }

  /** The manifest, then one record for each table. */
  ghost predicate RecordsAre(bs: seq<Tuple>, ms: seq<Metadata>) {
    && |bs| == |ms| + 1 && bs[0] == MANIFEST()
    && forall i | 0 <= i < |ms| :: RecordIs(bs[i + 1], ms[i])
  }

  ghost predicate RecordIs(b: Tuple, m: Metadata) { ValidMetadata(m) && Small(m) && b == RecordBytes(m) }

  lemma RecordsExtend(bs: seq<Tuple>, ms: seq<Metadata>, b: Tuple, m: Metadata)
    requires RecordsAre(bs, ms) && RecordIs(b, m)
    ensures RecordsAre(bs + [b], ms + [m])
  {
    hide RecordIs;
    forall i | 0 <= i < |ms + [m]| ensures RecordIs((bs + [b])[i + 1], (ms + [m])[i]) {
      if i < |ms| { assert RecordIs(bs[i + 1], ms[i]); }
    }
  }

  lemma SameRecord(b: Tuple, m: Metadata, m': Metadata)
    requires RecordIs(b, m) && RecordIs(b, m')
    ensures m == m'
  {
    hide RecordBytes, ValidMetadata, Small;
    RecordsPrefixFree(m, m');
  }

  /** The records determine the tables, and fewer records mean the first of those tables. */
  lemma RecordsDetermine(bs: seq<Tuple>, ms: seq<Metadata>, bs': seq<Tuple>, ms': seq<Metadata>)
    requires RecordsAre(bs, ms) && RecordsAre(bs', ms') && bs <= bs'
    ensures ms <= ms'
  {
    hide RecordIs;
    forall i | 0 <= i < |ms| ensures ms[i] == ms'[i] {
      assert RecordIs(bs[i + 1], ms[i]) && RecordIs(bs'[i + 1], ms'[i]);
      SameRecord(bs[i + 1], ms[i], ms'[i]);
    }
  }

  lemma ManifestIsNoRecord(m: Metadata)
    ensures !RecordIs(MANIFEST(), m)
  {
    hide Many, Text32, ValidMetadata;
    if Small(m) { assert RecordBytes(m)[9] == TABLE()[9]; }
  }

  /** Different tables have different names and heaps, none of them the catalog's own. */
  predicate Apart(root: PageId, ms: seq<Metadata>) {
    && (forall i | 0 <= i < |ms| :: ms[i].head != root)
    && forall i, j | 0 <= i < j < |ms| :: ms[i].name != ms[j].name && ms[i].head != ms[j].head
  }

  ghost predicate Heaped(c: seq<Page>, ms: seq<Metadata>) {
    forall i | 0 <= i < |ms| :: HasChain(c, ms[i].head)
  }

  /** Page `root` starts a catalog of exactly the tables ms. */
  ghost predicate CatalogAt(c: seq<Page>, root: PageId, pages: seq<PageId>, ms: seq<Metadata>) {
    && Chain(c, root, pages) && RecordsAre(LiveRecords(pages, TableOf(c, root, pages)), ms)
    && Apart(root, ms) && Heaped(c, ms)
  }

  /** Pages start at most one catalog. */
  lemma CatalogUnique(c: seq<Page>, root: PageId, pages: seq<PageId>, ms: seq<Metadata>, pages': seq<PageId>,
                      ms': seq<Metadata>)
    requires CatalogAt(c, root, pages, ms) && CatalogAt(c, root, pages', ms')
    ensures pages == pages' && ms == ms'
  {
    hide Chain, TableOf, LiveRecords, Apart, RecordsAre, Heaped;
    ChainsEqual(c, root, pages, pages');
    var bs := LiveRecords(pages, TableOf(c, root, pages));
    RecordsDetermine(bs, ms, bs, ms');
    RecordsDetermine(bs, ms', bs, ms);
  }

  // ---------- changes elsewhere in the pool ----------

  /** Only pages of `owned`, and pages added since, changed. */
  predicate Within(c: seq<Page>, c': seq<Page>, owned: seq<PageId>) {
    |c| <= |c'| && forall p: int | 0 <= p < |c| && p !in owned :: c'[p] == c[p]
  }

  /** A heap is untouched by what happens within another heap. */
  lemma ChainKept(c: seq<Page>, c': seq<Page>, head: PageId, ps: seq<PageId>, other: PageId, owned: seq<PageId>)
    requires Chain(c, head, ps) && Chain(c, other, owned) && head != other && Within(c, c', owned)
    ensures Chain(c', head, ps) && TableOf(c', head, ps) == TableOf(c, head, ps)
  {
    hide CheckedHeader, TableOf;
    HeapsApart(c, head, ps, other, owned);
    forall i | 0 <= i < |ps| ensures ps[i] < |c| && c'[ps[i]] == c[ps[i]] { assert PageInChain(c, head, ps, i); }
    ChainFrame(c, c', head, ps);
  }

  lemma HasChainKept(c: seq<Page>, c': seq<Page>, head: PageId, other: PageId, owned: seq<PageId>)
    requires HasChain(c, head) && Chain(c, other, owned) && head != other && Within(c, c', owned)
    ensures HasChain(c', head)
  {
    hide Chain, TableOf;
    var ps :| Chain(c, head, ps);
    ChainKept(c, c', head, ps, other, owned);
  }

  /** Adding pages to the pool changes no catalog. */
  lemma CatalogGrown(c: seq<Page>, c': seq<Page>, root: PageId, pages: seq<PageId>, ms: seq<Metadata>)
    requires CatalogAt(c, root, pages, ms) && c <= c'
    ensures CatalogAt(c', root, pages, ms)
  {
    hide Chain, TableOf, LiveRecords, Apart, RecordsAre;
    ChainGrownPool(c, c', root, pages);
    forall i | 0 <= i < |ms| ensures HasChain(c', ms[i].head) {
      assert HasChain(c, ms[i].head);
      var ps :| Chain(c, ms[i].head, ps);
      ChainGrownPool(c, c', ms[i].head, ps);
    }
  }

  /** Nor does an insertion into the metadata heap that failed. */
  lemma CatalogSame(c: seq<Page>, c': seq<Page>, root: PageId, pages: seq<PageId>, ms: seq<Metadata>)
    requires CatalogAt(c, root, pages, ms) && Within(c, c', pages)
    requires Chain(c', root, pages) && TableOf(c', root, pages) == TableOf(c, root, pages)
    ensures CatalogAt(c', root, pages, ms)
  {
    hide Chain, TableOf, LiveRecords, RecordsAre, Within, HasChain;
    forall i | 0 <= i < |ms| ensures HasChain(c', ms[i].head) {
      assert HasChain(c, ms[i].head);
      HasChainKept(c, c', ms[i].head, root, pages);
    }
  }

  /** The catalog's heaps start at pages that exist. */
  lemma HeadsExist(c: seq<Page>, root: PageId, pages: seq<PageId>, ms: seq<Metadata>)
    requires CatalogAt(c, root, pages, ms)
    ensures root < |c| && forall i | 0 <= i < |ms| :: ms[i].head < |c|
  {
    hide TableOf, LiveRecords, Apart, RecordsAre, CheckedHeader;
    assert PageInChain(c, root, pages, 0);
    forall i | 0 <= i < |ms| ensures ms[i].head < |c| {
      assert HasChain(c, ms[i].head);
      var ps :| Chain(c, ms[i].head, ps);
      assert PageInChain(c, ms[i].head, ps, 0);
    }
  }

  /** Nor does anything a table's heap does to itself. */
  lemma CatalogElsewhere(c: seq<Page>, c': seq<Page>, root: PageId, pages: seq<PageId>, ms: seq<Metadata>,
                         head: PageId, owned: seq<PageId>)
    requires CatalogAt(c, root, pages, ms) && head != root
    requires Chain(c, head, owned) && Within(c, c', owned) && HasChain(c', head)
    ensures CatalogAt(c', root, pages, ms)
  {
    hide Chain, TableOf, LiveRecords, Apart, RecordsAre, Within, HasChain;
    ChainKept(c, c', root, pages, head, owned);
    forall i | 0 <= i < |ms| ensures HasChain(c', ms[i].head) {
      assert HasChain(c, ms[i].head);
      if ms[i].head != head { HasChainKept(c, c', ms[i].head, head, owned); }
    }
  }

  lemma ApartExtend(root: PageId, ms: seq<Metadata>, m: Metadata)
    requires Apart(root, ms) && m.head != root
    requires forall i | 0 <= i < |ms| :: ms[i].name != m.name && ms[i].head != m.head
    ensures Apart(root, ms + [m])
  {
  }

  /** Inserting a new table's record adds the table. */
  lemma CatalogInserted(c: seq<Page>, c': seq<Page>, root: PageId, pages: seq<PageId>, pages': seq<PageId>,
                        ms: seq<Metadata>, m: Metadata, ctid: Ctid)
    requires CatalogAt(c, root, pages, ms) && Chain(c', root, pages') && Within(c, c', pages)
    requires Inserted(pages, TableOf(c, root, pages), pages', TableOf(c', root, pages'), ctid, RecordBytesOf(m))
    requires Storable(m) && HasChain(c, m.head) && Apart(root, ms + [m])
    ensures CatalogAt(c', root, pages', ms + [m])
  {
    hide Chain, TableOf, Apart, RecordsAre, Within, HasChain, Inserted, RecordBytes, ValidMetadata, Small;
    var grown := ms + [m];
    LiveInserted(pages, TableOf(c, root, pages), pages', TableOf(c', root, pages'), ctid, RecordBytes(m));
    RecordsExtend(LiveRecords(pages, TableOf(c, root, pages)), ms, RecordBytes(m), m);
    forall i | 0 <= i < |grown| ensures HasChain(c', grown[i].head) {
      HeadApart(root, grown, i);
      assert HasChain(c, grown[i].head) by { if i < |ms| { assert grown[i] == ms[i]; } }
      HasChainKept(c, c', grown[i].head, root, pages);
    }
  }

  ghost function RecordBytesOf(m: Metadata): (b: Tuple) {
    if Small(m) then RecordBytes(m) else []
  }

  lemma HeadApart(root: PageId, ms: seq<Metadata>, i: nat)
    requires Apart(root, ms) && i < |ms|
    ensures ms[i].head != root
  {
  }

  // ---------- reading a catalog ----------

  /** A scan that has found every page as table t has it has yielded a prefix of t's records. */
  lemma ScanPrefix(ids: seq<PageId>, t: Table, cursor: Cursor, log: Log)
    requires |ids| == |t| && Consistent(BoundsOf(ids, t), cursor, log) && FreshFrom(log.visits, BoundsOf(ids, t), t, 0)
    ensures Tuples(log.emitted) <= LiveRecords(ids, t)
    ensures !cursor.failed && cursor.rows == [] && cursor.index == |ids| ==> Tuples(log.emitted) == LiveRecords(ids, t)
  {
    hide Output, PageRows;
    var bounds := BoundsOf(ids, t);
    forall i | 0 <= i < |log.visits| ensures i < |t| && log.visits[i] == t[i] {
      assert Fresh(log.visits, bounds, t, i);
    }
    assert BoundIds(bounds) == ids;
    OutputPrefix(ids, log.visits, t);
    if !cursor.failed && cursor.rows == [] && cursor.index == |ids| {
      assert log.visits == t;
      assert log.emitted + cursor.rows == log.emitted;
    }
  }

  /** Where a catalog's records are known up to some point, the next one is the next table's. */
  lemma NextRecord(c: seq<Page>, root: PageId, pages: seq<PageId>, bs: seq<Tuple>, ms: seq<Metadata>, b: Tuple,
                   ps: seq<PageId>, all: seq<Metadata>)
    requires Chain(c, root, pages) && RecordsAre(bs, ms) && bs + [b] <= LiveRecords(pages, TableOf(c, root, pages))
    requires CatalogAt(c, root, ps, all)
    ensures ms < all && RecordIs(b, all[|ms|]) && HasChain(c, all[|ms|].head) && all[|ms|].head != root
    ensures forall i | 0 <= i < |ms| :: ms[i].name != all[|ms|].name && ms[i].head != all[|ms|].head
  {
    hide Chain, TableOf, LiveRecords, RecordIs, HasChain;
    ChainsEqual(c, root, pages, ps);
    var bs' := LiveRecords(pages, TableOf(c, root, pages));
    assert bs <= bs' && b == bs'[|bs|];
    RecordsDetermine(bs, ms, bs', all);
    assert RecordIs(bs'[|ms| + 1], all[|ms|]);
  }

  /** A corrupt next record means that no catalog starts here. */
  lemma BadRecord(c: seq<Page>, root: PageId, pages: seq<PageId>, bs: seq<Tuple>, ms: seq<Metadata>, b: Tuple,
                  ps: seq<PageId>, all: seq<Metadata>)
    requires Chain(c, root, pages) && RecordsAre(bs, ms) && bs + [b] <= LiveRecords(pages, TableOf(c, root, pages))
    requires forall m | RecordIs(b, m) ::
      m.head == root || !HasChain(c, m.head) || exists i | 0 <= i < |ms| :: ms[i].name == m.name || ms[i].head == m.head
    ensures !CatalogAt(c, root, ps, all)
  {
    hide Chain, TableOf, LiveRecords, RecordIs, HasChain, RecordsAre, CatalogAt;
    if CatalogAt(c, root, ps, all) {
      NextRecord(c, root, pages, bs, ms, b, ps, all);
    }
  }

  /** Nor does a first record that is not the manifest. */
  lemma NoManifest(c: seq<Page>, root: PageId, pages: seq<PageId>, ps: seq<PageId>, all: seq<Metadata>)
    requires Chain(c, root, pages)
    requires var bs := LiveRecords(pages, TableOf(c, root, pages)); bs == [] || bs[0] != MANIFEST()
    ensures !CatalogAt(c, root, ps, all)
  {
    hide Chain, TableOf, LiveRecords, HasChain;
    if CatalogAt(c, root, ps, all) { ChainsEqual(c, root, pages, ps); }
  }
}
