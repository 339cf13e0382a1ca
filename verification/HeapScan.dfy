/** Heap scans, interleaved with any other operations on the heap. */
module HeapScans {
  import opened Options
  import opened BufferPools
  import opened HeapPage
  import opened HeapTables

  type Row = (Ctid, Tuple)

  /** The live records of one page, in slot order. */
  function PageRows(id: PageId, rs: seq<Option<Tuple>>): (rows: seq<Row>) {
    if rs == [] then []
    else
      var n := |rs| - 1;
      PageRows(id, rs[..n]) + (match rs[n] case Some(t) => [(Ctid(id, n + 1), t)] case None => [])
  }

  /** What a scan yields that found `visits[i]` in the slots of page `ids[i]` when it read it. */
  function Output(ids: seq<PageId>, visits: Table): (rows: seq<Row>)
    requires |visits| <= |ids|
  {
    if visits == [] then []
    else
      var n := |visits| - 1;
      Output(ids, visits[..n]) + PageRows(ids[n], visits[n])
  }

  lemma OutputStep(ids: seq<PageId>, visits: Table, seen: seq<Option<Tuple>>)
    requires |visits| < |ids|
    ensures Output(ids, visits + [seen]) == Output(ids, visits) + PageRows(ids[|visits|], seen)
  {
    assert (visits + [seen])[..|visits|] == visits;
  }

  // ---------- what that output is ----------

  lemma {:induction false} PageRowsExact(id: PageId, rs: seq<Option<Tuple>>, row: Row)
    ensures row in PageRows(id, rs) <==> row.0.page == id && InSlot(rs, row.0.slot) == Some(row.1)
  {
    if rs != [] {
      var n := |rs| - 1;
      PageRowsExact(id, rs[..n], row);
    }
  }

  /** Visited page i held the row. */
  predicate Holds(ids: seq<PageId>, visits: Table, row: Row, i: nat)
    requires |visits| <= |ids| && i < |visits|
  {
    ids[i] == row.0.page && InSlot(visits[i], row.0.slot) == Some(row.1)
  }

  lemma {:induction false} YieldedWasHeld(ids: seq<PageId>, visits: Table, row: Row) returns (i: nat)
    requires |visits| <= |ids| && row in Output(ids, visits)
    ensures i < |visits| && Holds(ids, visits, row, i)
  {
    hide InSlot, PageRows;
    var n := |visits| - 1;
    if row in Output(ids, visits[..n]) {
      i := YieldedWasHeld(ids, visits[..n], row);
    } else {
      i := n;
      PageRowsExact(ids[n], visits[n], row);
    }
  }

  lemma {:induction false} HeldIsYielded(ids: seq<PageId>, visits: Table, row: Row, i: nat)
    requires |visits| <= |ids| && i < |visits| && Holds(ids, visits, row, i)
    ensures row in Output(ids, visits)
  {
    hide InSlot, PageRows;
    var n := |visits| - 1;
    if i < n {
      HeldIsYielded(ids, visits[..n], row, i);
    } else {
      PageRowsExact(ids[n], visits[n], row);
    }
  }

  /** A row is yielded exactly when some visited page held it in one of the visited slots. */
  lemma OutputExact(ids: seq<PageId>, visits: Table, row: Row)
    requires |visits| <= |ids|
    ensures row in Output(ids, visits) <==> exists i | 0 <= i < |visits| :: Holds(ids, visits, row, i)
  {
    hide InSlot, Output;
    if row in Output(ids, visits) { var i := YieldedWasHeld(ids, visits, row); }
    if i :| 0 <= i < |visits| && Holds(ids, visits, row, i) { HeldIsYielded(ids, visits, row, i); }
  }

  /** Row a comes before row b: an earlier page of the chain, or an earlier slot of the same. */
  predicate Before(ids: seq<PageId>, a: Row, b: Row) {
    exists i, j | 0 <= i <= j < |ids| ::
      ids[i] == a.0.page && ids[j] == b.0.page && (i < j || a.0.slot < b.0.slot)
  }

  lemma {:induction false} PageRowsAscending(id: PageId, rs: seq<Option<Tuple>>, a: nat, b: nat)
    requires a < b < |PageRows(id, rs)|
    ensures PageRows(id, rs)[a].0.page == id == PageRows(id, rs)[b].0.page
    ensures PageRows(id, rs)[a].0.slot < PageRows(id, rs)[b].0.slot
  {
    var n := |rs| - 1;
    var front := PageRows(id, rs[..n]);
    if b < |front| {
      PageRowsAscending(id, rs[..n], a, b);
    } else {
      PageRowsExact(id, rs[..n], front[a]);
      assert PageRows(id, rs)[a] == front[a];
    }
  }

  /** Rows come in strictly ascending (chain position, slot) order. */
  lemma {:induction false} OutputAscending(ids: seq<PageId>, visits: Table, a: nat, b: nat)
    requires |visits| <= |ids| && a < b < |Output(ids, visits)|
    ensures Before(ids, Output(ids, visits)[a], Output(ids, visits)[b])
  {
    hide InSlot;
    var n := |visits| - 1;
    var front, last := Output(ids, visits[..n]), PageRows(ids[n], visits[n]);
    if b < |front| {
      OutputAscending(ids, visits[..n], a, b);
    } else {
      PageRowsExact(ids[n], visits[n], last[b - |front|]);
      if a < |front| {
        var i := YieldedWasHeld(ids, visits[..n], front[a]);
        assert ids[i] == front[a].0.page && ids[n] == last[b - |front|].0.page && i < n;
      } else {
        PageRowsAscending(ids[n], visits[n], a - |front|, b - |front|);
        assert ids[n] == last[b - |front|].0.page && ids[n] == last[a - |front|].0.page;
      }
    }
  }

  /** So no address is yielded twice. */
  lemma OutputOnce(ids: seq<PageId>, visits: Table, a: nat, b: nat)
    requires |visits| <= |ids| && Distinct(ids) && a < b < |Output(ids, visits)|
    ensures Output(ids, visits)[a].0 != Output(ids, visits)[b].0
  {
    hide Output;
    OutputAscending(ids, visits, a, b);
  }

  // ---------- the bounds of a scan survive every heap operation ----------

  /** The pages and slot counts captured at creation are still within the heap. */
  predicate InBounds(bounds: seq<(PageId, nat)>, pages: seq<PageId>, t: Table) {
    && |bounds| <= |pages| == |t|
    && forall i | 0 <= i < |bounds| :: bounds[i].0 == pages[i] && bounds[i].1 <= |t[i]|
  }

  /** Page i was read with the slots it had in table t, up to its bound. */
  predicate Fresh(visits: Table, bounds: seq<(PageId, nat)>, t: Table, i: nat)
    requires i < |visits|
  {
    i < |bounds| && i < |t| && bounds[i].1 <= |t[i]| && visits[i] == t[i][..bounds[i].1]
  }

  /** Every page read since the first `start` ones was read as it is in table t. */
  predicate FreshFrom(visits: Table, bounds: seq<(PageId, nat)>, t: Table, start: nat) {
    forall i | start <= i < |visits| :: Fresh(visits, bounds, t, i)
  }

  lemma NothingRead(visits: Table, bounds: seq<(PageId, nat)>, t: Table)
    ensures FreshFrom(visits, bounds, t, |visits|)
  {
  }

  lemma FreshLast(visits: Table, seen: seq<Option<Tuple>>, bounds: seq<(PageId, nat)>, t: Table)
    requires var i := |visits|; i < |bounds| && i < |t| && bounds[i].1 <= |t[i]| && seen == t[i][..bounds[i].1]
    ensures Fresh(visits + [seen], bounds, t, |visits|)
  {
  }

  lemma FreshExtend(visits: Table, visits': Table, bounds: seq<(PageId, nat)>, t: Table, start: nat)
    requires FreshFrom(visits, bounds, t, start) && visits <= visits' && |visits'| == |visits| + 1
    requires Fresh(visits', bounds, t, |visits|)
    ensures FreshFrom(visits', bounds, t, start)
  {
    forall i | start <= i < |visits'| ensures Fresh(visits', bounds, t, i) {
      if i < |visits| { assert Fresh(visits, bounds, t, i) && visits'[i] == visits[i]; }
    }
  }

  lemma BoundAt(bounds: seq<(PageId, nat)>, pages: seq<PageId>, t: Table, i: nat)
    requires InBounds(bounds, pages, t) && i < |bounds|
    ensures i < |t| && bounds[i].0 == pages[i] && bounds[i].1 <= |t[i]|
  {
  }

  lemma BoundsSurvive(bounds: seq<(PageId, nat)>, pages: seq<PageId>, t: Table, pages': seq<PageId>, t': Table)
    requires InBounds(bounds, pages, t) && pages <= pages' && |pages'| == |t'| && Grows(t, t')
    ensures InBounds(bounds, pages', t')
  {
    forall i | 0 <= i < |bounds| ensures bounds[i].0 == pages'[i] && bounds[i].1 <= |t'[i]| {
      assert pages'[i] == pages[i] && |t[i]| <= |t'[i]|;
    }
  }

  /** Insertion, deletion and replacement never shrink a row; and an inserted address did not
      exist before, not even as a tombstone. */
  lemma OperationsGrow(pages: seq<PageId>, t: Table, pages': seq<PageId>, t': Table, ctid: Ctid, bytes: Tuple)
    requires Distinct(pages) && Inserted(pages, t, pages', t', ctid, bytes)
    ensures pages <= pages' && |pages'| == |t'| && Grows(t, t')
    ensures !HasAddress(pages, t, ctid) && HasAddress(pages', t', ctid)
    ensures forall other | HasAddress(pages, t, other) :: HasAddress(pages', t', other)
  {
    var n := |pages| - 1;
    var i := if ctid.page == pages[n] then n else n + 1;
    assert pages'[i] == ctid.page && 1 <= ctid.slot <= |t'[i]|;
    forall other | HasAddress(pages, t, other) ensures HasAddress(pages', t', other) {
      var j :| 0 <= j < |pages| && j < |t| && pages[j] == other.page && 1 <= other.slot <= |t[j]|;
      assert pages'[j] == other.page && 1 <= other.slot <= |t'[j]|;
    }
  }

  lemma SetGrows(t: Table, i: nat, slot: nat, r: Option<Tuple>)
    ensures Grows(t, SetAt(t, i, slot, r)) && Grows(SetAt(t, i, slot, r), t)
  {
  }

  // ---------- the scan itself ----------

  method CollectRows(id: PageId, data: Page, limit: nat) returns (rows: seq<Row>)
    requires WellFormed(data) && limit <= |ViewOf(data).records|
    ensures rows == PageRows(id, ViewOf(data).records[..limit])
  {
    hide WellFormed, ViewOf;
    rows := [];
    ghost var rs := ViewOf(data).records;
    for k := 0 to limit
      invariant rows == PageRows(id, rs[..k])
    {
      assert rs[..k + 1][..k] == rs[..k];
      var record := ReadRecord(data, k + 1);
      if record.Some? { rows := rows + [(Ctid(id, k + 1), record.value)]; }
    }
  }

  /** The scan's own fields. */
  datatype Cursor = Cursor(index: nat, rows: seq<Row>, failed: bool)

  /** The slots found on each page read so far, and the rows handed out. */
  datatype Log = Log(visits: Table, emitted: seq<Row>)

  function BoundIds(bounds: seq<(PageId, nat)>): (ids: seq<PageId>)
    ensures |ids| == |bounds| && forall i | 0 <= i < |ids| :: ids[i] == bounds[i].0
  {
    seq(|bounds|, i requires 0 <= i < |bounds| => bounds[i].0)
  }

  /** What was handed out plus what is buffered is the output of the pages visited. */
  predicate Consistent(bounds: seq<(PageId, nat)>, cursor: Cursor, log: Log) {
    && |log.visits| <= cursor.index <= |bounds| && (!cursor.failed ==> |log.visits| == cursor.index)
    && (forall i | 0 <= i < |log.visits| :: |log.visits[i]| == bounds[i].1)
    && log.emitted + cursor.rows == Output(BoundIds(bounds), log.visits)
  }

  lemma VisitStep(bounds: seq<(PageId, nat)>, cursor: Cursor, log: Log, seen: seq<Option<Tuple>>)
    requires Consistent(bounds, cursor, log) && !cursor.failed && cursor.rows == [] && cursor.index < |bounds|
    requires |seen| == bounds[cursor.index].1
    ensures |log.visits| == cursor.index
    ensures Consistent(bounds, Cursor(cursor.index + 1, PageRows(bounds[cursor.index].0, seen), false),
                       log.(visits := log.visits + [seen]))
  {
    hide Output, PageRows;
    OutputStep(BoundIds(bounds), log.visits, seen);
  }

  lemma FailStep(bounds: seq<(PageId, nat)>, cursor: Cursor, log: Log)
    requires Consistent(bounds, cursor, log) && cursor.index < |bounds|
    ensures Consistent(bounds, cursor.(index := cursor.index + 1, failed := true), log)
  {
  }

  lemma WithinBounds(bounds: seq<(PageId, nat)>, cursor: Cursor, log: Log)
    requires Consistent(bounds, cursor, log)
    ensures cursor.index <= |bounds|
  {
  }

  lemma EmitStep(bounds: seq<(PageId, nat)>, cursor: Cursor, log: Log)
    requires Consistent(bounds, cursor, log) && cursor.rows != []
    ensures Consistent(bounds, cursor.(rows := cursor.rows[1..]), log.(emitted := log.emitted + [cursor.rows[0]]))
  {
    assert log.emitted + cursor.rows == (log.emitted + [cursor.rows[0]]) + cursor.rows[1..];
  }

  /** Every row a scan hands out has an address that existed when the scan was created. */
  lemma ScannedExisted(pages: seq<PageId>, t: Table, cursor: Cursor, log: Log, row: Row)
    requires |pages| == |t| && Consistent(BoundsOf(pages, t), cursor, log) && row in log.emitted
    ensures HasAddress(pages, t, row.0)
  {
    hide Output;
    var bounds := BoundsOf(pages, t);
    assert row in log.emitted + cursor.rows;
    var i := YieldedWasHeld(BoundIds(bounds), log.visits, row);
    assert pages[i] == row.0.page && 1 <= row.0.slot <= |t[i]|;
  }

  /** A finished scan has handed out every record that was there when its page was read. */
  lemma FinishedScanIsComplete(pages: seq<PageId>, t: Table, cursor: Cursor, log: Log, i: nat, slot: nat, bytes: Tuple)
    requires |pages| == |t| && Consistent(BoundsOf(pages, t), cursor, log)
    requires !cursor.failed && cursor.rows == [] && cursor.index == |pages| && i < |pages|
    ensures i < |log.visits| && |log.visits[i]| == |t[i]|
    ensures InSlot(log.visits[i], slot) == Some(bytes) ==> (Ctid(pages[i], slot), bytes) in log.emitted
  {
    hide Output;
    var bounds := BoundsOf(pages, t);
    assert log.emitted + cursor.rows == log.emitted;
    if InSlot(log.visits[i], slot) == Some(bytes) {
      HeldIsYielded(BoundIds(bounds), log.visits, (Ctid(pages[i], slot), bytes), i);
    }
  }

  lemma PageAt(pages: seq<PageId>, indices: map<PageId, nat>, i: nat)
    requires Inverse(pages, indices) && i < |pages|
    ensures pages[i] in indices && indices[pages[i]] == i
  {
  }

  /** Read page k of the chain: the rows of its first `limit` slots, and all its slots. */
  method ReadBounded(heap: HeapTable, k: nat, limit: nat)
    returns (r: Result<seq<Row>, HeapError>, ghost records: seq<Option<Tuple>>)
    requires heap.Handle() && k < |heap.pages|
    modifies heap.pool, heap.pool.store
    ensures heap.Handle() && heap.pool.Contents() == old(heap.pool.Contents()) && heap.pool.Later()
    ensures heap.pool.frames.live == old(heap.pool.frames.live) && (r.Err? ==> heap.Caused(r.error))
    ensures r.Ok? ==> limit <= |records| && r.value == PageRows(heap.pages[k], records[..limit])
    ensures old(heap.Sound()) && r.Ok? ==> records == old(heap.Rows())[k]
    ensures old(heap.Sound()) && r.Err? ==> r.error.Buffer? || limit > |old(heap.Rows())[k]|
  {
    hide WellFormed, ViewOf, Coherent, Logical, TableOf, Distinct, Chain, Allocated, PageRows, Inverse;
    records := [];
    var got := heap.EnterAt(k);
    if got.Err? { return Err(got.error), records; }
    var (h, data) := got.value;
    heap.pool.Unpin(h);
    if old(heap.Sound()) { RowIs(heap.pool.Contents(), heap.head, heap.pages, k); }
    records := ViewOf(data).records;
    var slots := CountSlots(data);
    if slots < limit { return Err(CorruptHeap), records; }
    var rows := CollectRows(heap.pages[k], data, limit);
    return Ok(rows), records;
  }

  class HeapScan {
    const heap: HeapTable
    const bounds: seq<(PageId, nat)>
    var cursor: Cursor
    ghost var log: Log

    constructor (heap: HeapTable, bounds: seq<(PageId, nat)>)
      ensures this.heap == heap && this.bounds == bounds && cursor == Cursor(0, [], false) && log == Log([], [])
      ensures Consistent(bounds, cursor, log)
    {
      this.heap, this.bounds := heap, bounds;
      cursor, log := Cursor(0, [], false), Log([], []);
    }

    /** The heap is sound and still covers the pages and slots captured at creation. */
    ghost predicate Scannable()
      reads heap, heap.pool, heap.pool.store
    {
      heap.Sound() && InBounds(bounds, heap.pages, heap.Rows())
    }

    /** The table of a scannable heap. */
    ghost predicate Shows(t: Table)
      reads heap, heap.pool, heap.pool.store
    {
      Scannable() && heap.Rows() == t
    }

    /** The pool is as before: same pages, same pins. */
    twostate predicate PoolSame()
      requires old(heap.Handle())
      reads heap, heap.pool, heap.pool.store
    {
      && heap.Handle() && heap.pages == old(heap.pages) && heap.pool.Contents() == old(heap.pool.Contents())
      && heap.pool.frames.live == old(heap.pool.frames.live) && heap.pool.Later()
    }

    /** `read_scan_page`. */
    method ReadPage(i: nat, ghost t: Option<Table>)
      returns (r: Result<seq<Row>, HeapError>, ghost seen: seq<Option<Tuple>>)
      requires t.Some? ==> Shows(t.value)
      requires heap.Handle() && i < |bounds|
      modifies heap.pool, heap.pool.store
      ensures PoolSame() && (r.Err? ==> heap.Caused(r.error))
      ensures r.Ok? ==> |seen| == bounds[i].1 && r.value == PageRows(bounds[i].0, seen)
      ensures t.Some? ==>
                && Shows(t.value) && (r.Err? ==> r.error.Buffer?)
                && (r.Ok? ==> i < |t.value| && bounds[i].1 <= |t.value[i]| && seen == t.value[i][..bounds[i].1])
    {
      hide WellFormed, ViewOf, Coherent, Logical, TableOf, Distinct, Chain, Allocated, PageRows, Inverse, InBounds;
      var (id, limit) := bounds[i];
      seen := [];
      if t.Some? {
        BoundAt(bounds, heap.pages, t.value, i);
        PageAt(heap.pages, heap.indices, i);
      }
      if id !in heap.indices { return Err(CorruptHeap), seen; }
      var k := heap.indices[id];
      IndexOf(heap.pages, heap.indices, id);
      var read, records := ReadBounded(heap, k, limit);
      if read.Ok? { seen := records[..limit]; }
      return read, seen;
    }

    /** Read the next page into the buffer. */
    method Advance(ghost t: Option<Table>) returns (r: Result<(), HeapError>)
      requires t.Some? ==> Shows(t.value)
      requires heap.Handle() && Consistent(bounds, cursor, log)
      requires !cursor.failed && cursor.rows == [] && cursor.index < |bounds|
      modifies this, heap.pool, heap.pool.store
      ensures PoolSame() && Consistent(bounds, cursor, log) && cursor.index == old(cursor.index) + 1
      ensures (cursor.failed <==> r.Err?) && (r.Err? ==> heap.Caused(r.error))
      ensures log.emitted == old(log.emitted) && old(log.visits) <= log.visits
      ensures if r.Ok? then |log.visits| == |old(log.visits)| + 1 else log == old(log)
      ensures t.Some? ==>
                && Shows(t.value) && (r.Err? ==> r.error.Buffer?)
                && (r.Ok? ==> Fresh(log.visits, bounds, t.value, |log.visits| - 1))
    {
      hide Coherent, Logical, TableOf, Chain, Distinct, Inverse, Allocated;
      hide PageRows, InBounds, Consistent, Fresh, Shows, Scannable;
      var i := cursor.index;
      var read, seen := ReadPage(i, t);
      if read.Err? {
        FailStep(bounds, cursor, log);
        cursor := cursor.(index := i + 1, failed := true);
        return Err(read.error);
      }
      VisitStep(bounds, cursor, log, seen);
      if t.Some? { FreshLast(log.visits, seen, bounds, t.value); }
      cursor := Cursor(i + 1, read.value, false);
      log := log.(visits := log.visits + [seen]);
      return Ok(());
    }

    /** Read pages until one has a row, none is left, or an error ends the scan. */
    method Fill(ghost t: Option<Table>) returns (r: Result<(), HeapError>)
      requires t.Some? ==> Shows(t.value)
      requires heap.Handle() && Consistent(bounds, cursor, log) && !cursor.failed
      modifies this, heap.pool, heap.pool.store
      ensures PoolSame() && Consistent(bounds, cursor, log) && old(log.visits) <= log.visits &&
                log.emitted == old(log.emitted)
      ensures (cursor.failed <==> r.Err?) && (r.Err? ==> heap.Caused(r.error))
      ensures r.Ok? ==> cursor.rows != [] || cursor.index == |bounds|
      ensures t.Some? ==> (r.Err? ==> r.error.Buffer?) && FreshFrom(log.visits, bounds, t.value, old(|log.visits|))
    {
      hide Coherent, Logical, TableOf, Chain, Distinct, Inverse, Allocated, InBounds, Consistent, FreshFrom;
      hide FullyPinned, BufferPool.Valid, BufferPool.Contents, HeapTable.Sound, Shows;
      ghost var start := |log.visits|;
      if t.Some? { NothingRead(log.visits, bounds, t.value); }
      WithinBounds(bounds, cursor, log);
      while cursor.rows == [] && cursor.index < |bounds|
        invariant heap.Handle() && PoolSame() && Consistent(bounds, cursor, log) && !cursor.failed &&
                    cursor.index <= |bounds|
        invariant old(log.visits) <= log.visits && log.emitted == old(log.emitted)
        invariant t.Some? ==> Shows(t.value) && FreshFrom(log.visits, bounds, t.value, start)
        decreases |bounds| - cursor.index
      {
        ghost var visited := log.visits;
        var read := Advance(t);
        if read.Err? { return Err(read.error); }
        if t.Some? { FreshExtend(visited, log.visits, bounds, t.value, start); }
      }
      return Ok(());
    }

    /** The next row. None without a failure means that every bounded page was visited and all
        its rows handed out. A sound heap only ever fails a scan with an I/O error, and each
        page contributes the slots it has when it is read. */
    method Next() returns (r: Option<Result<Row, HeapError>>)
      requires heap.Handle() && Consistent(bounds, cursor, log)
      modifies this, heap.pool, heap.pool.store
      ensures PoolSame() && Consistent(bounds, cursor, log) && old(log.visits) <= log.visits
      ensures old(cursor.failed) ==> r.None? && cursor.failed && log.emitted == old(log.emitted)
      ensures !old(cursor.failed) && r.None? ==>
                !cursor.failed && cursor.rows == [] && cursor.index == |bounds| && log.emitted == old(log.emitted)
      ensures r.Some? && r.value.Ok? ==> !cursor.failed && log.emitted == old(log.emitted) + [r.value.value]
      ensures r.Some? && r.value.Err? ==> cursor.failed && log.emitted == old(log.emitted) && heap.Caused(r.value.error)
      ensures old(Scannable()) ==>
                && (r.Some? && r.value.Err? ==> r.value.error.Buffer?)
                && FreshFrom(log.visits, bounds, old(heap.Rows()), old(|log.visits|))
    {
      hide Coherent, Logical, TableOf, Chain, Distinct, Inverse, Allocated, InBounds, Consistent, FreshFrom;
      NothingRead(log.visits, bounds, if heap.Sound() then heap.Rows() else []);
      if cursor.failed { return None; }
      var filled := Fill(if Scannable() then Some(heap.Rows()) else None);
      if filled.Err? { return Some(Err(filled.error)); }
      if cursor.rows == [] { return None; }
      r := Some(Ok(cursor.rows[0]));
      EmitStep(bounds, cursor, log);
      log := log.(emitted := log.emitted + [cursor.rows[0]]);
      cursor := cursor.(rows := cursor.rows[1..]);
    }
  }

  method SlotBound(heap: HeapTable, i: nat) returns (r: Result<nat, HeapError>)
    requires heap.Handle() && i < |heap.pages|
    modifies heap.pool, heap.pool.store
    ensures heap.Handle() && heap.pool.Contents() == old(heap.pool.Contents()) && heap.pool.Later()
    ensures heap.pool.frames.live == old(heap.pool.frames.live) && (r.Err? ==> heap.Caused(r.error))
    ensures old(heap.Sound()) ==> if r.Ok? then r.value == |old(heap.Rows())[i]| else r.error.Buffer?
  {
    hide WellFormed, ViewOf, Coherent, Logical, TableOf, Distinct, Chain, Allocated, Inverse;
    var got := heap.EnterAt(i);
    if got.Err? { return Err(got.error); }
    var (h, data) := got.value;
    heap.pool.Unpin(h);
    if old(heap.Sound()) { RowIs(heap.pool.Contents(), heap.head, heap.pages, i); }
    var slots := CountSlots(data);
    return Ok(slots);
  }

  /** `HeapTable::scan`: capture every page of the chain with its slot count. */
  method StartScan(heap: HeapTable) returns (r: Result<HeapScan, HeapError>)
    requires heap.Handle()
    modifies heap.pool, heap.pool.store
    ensures heap.Handle() && heap.pool.Contents() == old(heap.pool.Contents()) && heap.pool.Later()
    ensures heap.pool.frames.live == old(heap.pool.frames.live) && (r.Err? ==> heap.Caused(r.error))
    ensures old(heap.Sound()) && r.Err? ==> r.error.Buffer?
    ensures r.Ok? ==> fresh(r.value) && r.value.heap == heap && Consistent(r.value.bounds, r.value.cursor, r.value.log)
    ensures r.Ok? ==> r.value.log == Log([], []) && r.value.cursor == Cursor(0, [], false)
    ensures old(heap.Sound()) && r.Ok? ==> r.value.bounds == BoundsOf(heap.pages, heap.Rows())
  {
    hide WellFormed, ViewOf, Coherent, Logical, TableOf, Chain, Distinct, Inverse, Allocated;
    hide FullyPinned, BufferPool.Valid, BufferPool.Contents;
    var bounds: seq<(PageId, nat)> := [];
    for i := 0 to |heap.pages|
      invariant heap.Handle() && heap.pool.Contents() == old(heap.pool.Contents()) && heap.pool.Later()
      invariant heap.pool.frames.live == old(heap.pool.frames.live)
      invariant |bounds| == i
      invariant old(heap.Sound()) ==> forall k | 0 <= k < i :: bounds[k] == (heap.pages[k], |old(heap.Rows())[k]|)
    {
      var slots := SlotBound(heap, i);
      if slots.Err? { return Err(slots.error); }
      bounds := bounds + [(heap.pages[i], slots.value)];
    }
    var scan := new HeapScan(heap, bounds);
    return Ok(scan);
  }

  function BoundsOf(pages: seq<PageId>, t: Table): (bounds: seq<(PageId, nat)>)
    requires |pages| == |t|
    ensures |bounds| == |pages| && forall i | 0 <= i < |bounds| :: bounds[i] == (pages[i], |t[i]|)
    ensures InBounds(bounds, pages, t)
  {
    seq(|pages|, i requires 0 <= i < |pages| => (pages[i], |t[i]|))
  }

  method CountSlots(data: Page) returns (n: nat)
    requires WellFormed(data)
    ensures n == |ViewOf(data).records|
  {
    n := SlotCount(data);
  }
}
