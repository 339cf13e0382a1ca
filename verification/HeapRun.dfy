/** A scan and any other operations on its heap, over whole runs. */
module HeapRuns {
  import opened Options
  import opened BufferPools
  import opened HeapPage
  import opened HeapTables
  import opened HeapScans

  datatype HeapOp = DoInsert(bytes: Tuple) | DoDelete(ctid: Ctid) | DoReplace(ctid: Ctid, bytes: Tuple) | DoNext

  predicate Addresses(op: HeapOp, ctid: Ctid) { (op.DoDelete? || op.DoReplace?) && op.ctid == ctid }

  /** No operation of the script deletes or replaces the record. */
  predicate Spares(ops: seq<HeapOp>, ctid: Ctid) {
    forall k | 0 <= k < |ops| :: !Addresses(ops[k], ctid)
  }

  predicate WellAddressed(ops: seq<HeapOp>) {
    forall k | 0 <= k < |ops| :: ops[k].DoDelete? || ops[k].DoReplace? ==> ops[k].ctid.slot >= 1
  }

  // ---------- what one operation does to the table ----------

  /** The table after an operation: one record inserted, one slot set, or the same. */
  ghost predicate Moved(op: HeapOp, made: Option<Ctid>, pages: seq<PageId>, t: Table, pages': seq<PageId>, t': Table) {
    if made.Some? then op.DoInsert? && Inserted(pages, t, pages', t', made.value, op.bytes)
    else
      && pages' == pages
      && (t' == t || exists i: nat, r | i < |pages| :: SlotSet(op, pages, t, t', i, r))
  }

  predicate SlotSet(op: HeapOp, pages: seq<PageId>, t: Table, t': Table, i: nat, r: Option<Tuple>)
    requires i < |pages|
  {
    (op.DoDelete? || op.DoReplace?) && pages[i] == op.ctid.page && t' == SetAt(t, i, op.ctid.slot, r)
  }

  lemma SetIsMoved(op: HeapOp, pages: seq<PageId>, t: Table, t': Table, i: nat, r: Option<Tuple>)
    requires i < |pages| && SlotSet(op, pages, t, t', i, r)
    ensures Moved(op, None, pages, t, pages, t')
  {
  }

  /** Perform one operation other than the scan's. */
  method Perform(heap: HeapTable, op: HeapOp) returns (made: Option<Ctid>, failure: Option<HeapError>)
    requires heap.Sound() && !op.DoNext? && WellAddressed([op])
    modifies heap, heap.pool, heap.pool.store
    ensures heap.Sound() && heap.pool.frames.live == old(heap.pool.frames.live)
    ensures Moved(op, made, old(heap.pages), old(heap.Rows()), heap.pages, heap.Rows())
    ensures failure.Some? ==> !failure.value.CorruptHeap? && made.None? && heap.Rows() == old(heap.Rows())
    ensures heap.pool.Later() && |old(heap.pool.Contents())| <= |heap.pool.Contents()|
    ensures failure.Some? ==> Blamed(heap, failure.value)
  {
    hide Coherent, Logical, TableOf, Chain, Distinct, Inverse, Allocated, SetAt, At, Inserted, RoomAt, HasAddress;
    hide FullyPinned, BufferPool.Valid, BufferPool.Contents;
    assert op.DoDelete? || op.DoReplace? ==> op.ctid.slot >= 1 by { assert [op][0] == op; }
    ghost var t := heap.Rows();
    made, failure := None, None;
    match op {
      case DoInsert(bytes) =>
        var r := heap.Insert(bytes);
        if r.Ok? { made := Some(r.value); } else { failure := Some(r.error); }
      case DoDelete(ctid) =>
        var r := heap.Delete(ctid);
        if r.Err? { failure := Some(r.error); } else if r.value {
          IndexOf(heap.pages, heap.indices, ctid.page);
          SetIsMoved(op, heap.pages, t, heap.Rows(), heap.indices[ctid.page], None);
        }
      case DoReplace(ctid, bytes) =>
        var r := heap.Replace(ctid, bytes);
        if r.Err? { failure := Some(r.error); } else if r.value {
          IndexOf(heap.pages, heap.indices, ctid.page);
          SetIsMoved(op, heap.pages, t, heap.Rows(), heap.indices[ctid.page], Some(bytes));
        }
    }
  }

  /** An error of a run points to a device failure, to page IDs used up, to a policy that was
      asked, or to a full pin counter. */
  twostate predicate Blamed(heap: HeapTable, e: HeapError)
    requires heap.pool.Valid()
    reads heap, heap.pool, heap.pool.store
  {
    e.Buffer? ==>
      match e.error
      case Io => heap.pool.store.faults > old(heap.pool.store.faults) || |heap.pool.Contents()| >= PAGE_IDS
      case PinOverflow => true
      case _ => heap.pool.asked > old(heap.pool.asked)
  }

  // ---------- what survives ----------

  /** Slot `slot` of row i is as it was. */
  predicate Same(t: Table, t': Table, i: nat, slot: nat) { At(t', i, slot) == At(t, i, slot) }

  /** Every slot that the script spares is as it was when the scan began. */
  predicate Kept(ops: seq<HeapOp>, pages: seq<PageId>, t: Table, t': Table) {
    forall i: nat, slot: nat | i < |pages| && i < |t| && 1 <= slot <= |t[i]| && Spares(ops, Ctid(pages[i], slot)) ::
      Same(t, t', i, slot)
  }

  /** Every spared slot was as it was when its page was read. */
  predicate Seen(ops: seq<HeapOp>, pages: seq<PageId>, t: Table, visits: Table) {
    forall i: nat, slot: nat |
      i < |visits| && i < |pages| && i < |t| && 1 <= slot <= |t[i]| && Spares(ops, Ctid(pages[i], slot)) ::
      Same(t, visits, i, slot)
  }

  lemma MovedGrows(op: HeapOp, made: Option<Ctid>, pages: seq<PageId>, t: Table, pages': seq<PageId>, t': Table)
    requires Distinct(pages) && |pages| == |t| && Moved(op, made, pages, t, pages', t')
    ensures pages <= pages' && |pages'| == |t'| && Grows(t, t')
    ensures forall a | HasAddress(pages, t, a) :: HasAddress(pages', t', a)
    ensures made.Some? ==> !HasAddress(pages, t, made.value) && HasAddress(pages', t', made.value)
  {
    hide Inserted, SetAt;
    if made.Some? {
      OperationsGrow(pages, t, pages', t', made.value, op.bytes);
    } else if t' != t {
      var i: nat, r :| i < |pages| && SlotSet(op, pages, t, t', i, r);
      SetGrows(t, i, op.ctid.slot, r);
      GrownAddresses(pages, t, t');
    }
  }

  lemma GrownAddresses(pages: seq<PageId>, t: Table, t': Table)
    requires |pages| == |t| && Grows(t, t') && Grows(t', t)
    ensures |t'| == |t| && forall a | HasAddress(pages, t, a) :: HasAddress(pages, t', a)
  {
    forall a | HasAddress(pages, t, a) ensures HasAddress(pages, t', a) {
      var i :| 0 <= i < |pages| && i < |t| && pages[i] == a.page && 1 <= a.slot <= |t[i]|;
      assert |t[i]| == |t'[i]|;
    }
  }

  /** One operation leaves every slot it does not address. */
  lemma MovedSame(op: HeapOp, made: Option<Ctid>, pages: seq<PageId>, t: Table, pages': seq<PageId>, t': Table,
                  i: nat, slot: nat)
    requires Moved(op, made, pages, t, pages', t') && Distinct(pages)
    requires i < |pages| && i < |t| && 1 <= slot <= |t[i]| && !Addresses(op, Ctid(pages[i], slot))
    ensures Same(t, t', i, slot)
  {
    if made.None? && t' != t {
      var k: nat, r :| k < |pages| && SlotSet(op, pages, t, t', k, r);
      if k == i { assert slot != op.ctid.slot; }
    }
  }

  lemma KeptStep(ops: seq<HeapOp>, n: nat, made: Option<Ctid>, first: seq<PageId>, t0: Table,
                 pages: seq<PageId>, t: Table, pages': seq<PageId>, t': Table)
    requires n < |ops| && Kept(ops, first, t0, t) && Moved(ops[n], made, pages, t, pages', t')
    requires Distinct(pages) && first <= pages && |pages| == |t| && Grows(t0, t)
    ensures Kept(ops, first, t0, t')
  {
    hide Moved, Distinct;
    forall i: nat, slot: nat | i < |first| && i < |t0| && 1 <= slot <= |t0[i]| && Spares(ops, Ctid(first[i], slot))
      ensures Same(t0, t', i, slot)
    {
      assert Same(t0, t, i, slot) && |t0[i]| <= |t[i]| && first[i] == pages[i];
      MovedSame(ops[n], made, pages, t, pages', t', i, slot);
    }
  }

  /** Pages read now show the spared slots as they were. */
  lemma SeenStep(ops: seq<HeapOp>, first: seq<PageId>, t0: Table, t: Table, visits: Table, visits': Table)
    requires |first| == |t0| && Kept(ops, first, t0, t) && Seen(ops, first, t0, visits)
    requires visits <= visits' && FreshFrom(visits', BoundsOf(first, t0), t, |visits|)
    ensures Seen(ops, first, t0, visits')
  {
    var bounds := BoundsOf(first, t0);
    forall i: nat, slot: nat |
      i < |visits'| && i < |first| && i < |t0| && 1 <= slot <= |t0[i]| && Spares(ops, Ctid(first[i], slot))
      ensures Same(t0, visits', i, slot)
    {
      if i < |visits| {
        assert Same(t0, visits, i, slot) && visits'[i] == visits[i];
      } else {
        assert Fresh(visits', bounds, t, i) && Same(t0, t, i, slot);
      }
    }
  }

  /** Addresses in use, all different, none of them there at the start. */
  predicate NewAddresses(made: seq<Ctid>, first: seq<PageId>, t0: Table, pages: seq<PageId>, t: Table) {
    && (forall i, j | 0 <= i < j < |made| :: made[i] != made[j])
    && forall i | 0 <= i < |made| :: !HasAddress(first, t0, made[i]) && HasAddress(pages, t, made[i])
  }

  lemma NewAddress(made: seq<Ctid>, a: Ctid, first: seq<PageId>, t0: Table, pages: seq<PageId>, t: Table,
                   pages': seq<PageId>, t': Table)
    requires NewAddresses(made, first, t0, pages, t) && !HasAddress(pages, t, a) && HasAddress(pages', t', a)
    requires forall b | HasAddress(first, t0, b) :: HasAddress(pages, t, b)
    requires forall b | HasAddress(pages, t, b) :: HasAddress(pages', t', b)
    ensures NewAddresses(made + [a], first, t0, pages', t')
  {
    hide HasAddress;
  }

  // ---------- whole runs ----------

  /** Everything a run keeps, from the heap's first state to its present one. */
  ghost predicate Running(ops: seq<HeapOp>, first: seq<PageId>, t0: Table, heap: HeapTable, scan: HeapScan,
                          made: seq<Ctid>)
    reads heap, heap.pool, heap.pool.store, scan
  {
    && heap.Sound() && scan.heap == heap && |first| == |t0| && scan.bounds == BoundsOf(first, t0)
    && first <= heap.pages && Grows(t0, heap.Rows()) && Consistent(scan.bounds, scan.cursor, scan.log)
    && Kept(ops, first, t0, heap.Rows()) && Seen(ops, first, t0, scan.log.visits)
    && NewAddresses(made, first, t0, heap.pages, heap.Rows())
    && forall a | HasAddress(first, t0, a) :: HasAddress(heap.pages, heap.Rows(), a)
  }

  lemma BoundsHold(first: seq<PageId>, t0: Table, pages: seq<PageId>, t: Table)
    requires |first| == |t0| && first <= pages && |pages| == |t| && Grows(t0, t)
    ensures InBounds(BoundsOf(first, t0), pages, t)
  {
    BoundsSurvive(BoundsOf(first, t0), first, t0, pages, t);
  }

  /** Any other operation, between two steps of the scan. */
  method StepOther(heap: HeapTable, scan: HeapScan, ops: seq<HeapOp>, n: nat, ghost first: seq<PageId>,
                   ghost t0: Table, ghost made: seq<Ctid>)
    returns (a: Option<Ctid>, failure: Option<HeapError>)
    requires n < |ops| && !ops[n].DoNext? && WellAddressed(ops) && Running(ops, first, t0, heap, scan, made)
    modifies heap, heap.pool, heap.pool.store
    ensures Running(ops, first, t0, heap, scan, if a.Some? then made + [a.value] else made)
    ensures heap.pool.frames.live == old(heap.pool.frames.live) && scan.cursor == old(scan.cursor)
    ensures scan.log == old(scan.log)
    ensures failure.Some? ==> !failure.value.CorruptHeap? && Blamed(heap, failure.value)
    ensures heap.Sound() && heap.pool.Later() && |old(heap.pool.Contents())| <= |heap.pool.Contents()|
  {
    hide Coherent, Logical, TableOf, Chain, Inverse, Allocated, Moved;
    hide Kept, Seen, NewAddresses, Grows, HasAddress, Consistent;
    ghost var pages, t := heap.pages, heap.Rows();
    assert WellAddressed([ops[n]]);
    a, failure := Perform(heap, ops[n]);
    MovedGrows(ops[n], a, pages, t, heap.pages, heap.Rows());
    KeptStep(ops, n, a, first, t0, pages, t, heap.pages, heap.Rows());
    GrowsTrans(t0, t, heap.Rows());
    if a.Some? {
      NewAddress(made, a.value, first, t0, pages, t, heap.pages, heap.Rows());
    } else {
      OldAddresses(made, first, t0, pages, t, heap.pages, heap.Rows());
    }
  }

  lemma GrowsTrans(a: Table, b: Table, c: Table)
    requires Grows(a, b) && Grows(b, c)
    ensures Grows(a, c)
  {
    forall i | 0 <= i < |a| ensures |a[i]| <= |c[i]| { assert |a[i]| <= |b[i]| <= |c[i]|; }
  }

  lemma OldAddresses(made: seq<Ctid>, first: seq<PageId>, t0: Table, pages: seq<PageId>, t: Table,
                     pages': seq<PageId>, t': Table)
    requires NewAddresses(made, first, t0, pages, t) && forall b | HasAddress(pages, t, b) :: HasAddress(pages', t', b)
    ensures NewAddresses(made, first, t0, pages', t')
  {
    hide HasAddress;
  }

  /** A finished scan has nothing more to hand out. */
  lemma NothingLeft(bounds: seq<(PageId, nat)>, cursor: Cursor, log: Log, cursor': Cursor, log': Log)
    requires Consistent(bounds, cursor, log) && Finished(bounds, cursor)
    requires Consistent(bounds, cursor', log') && log.visits <= log'.visits
    ensures |log'.emitted| <= |log.emitted|
  {
    hide Output;
    assert log.visits == log'.visits && log.emitted + cursor.rows == log.emitted;
  }

  /** One step of the scan. */
  method StepNext(heap: HeapTable, scan: HeapScan,
                  ghost ops: seq<HeapOp>, ghost first: seq<PageId>, ghost t0: Table, ghost made: seq<Ctid>)
    returns (r: Option<Result<Row, HeapError>>)
    requires Running(ops, first, t0, heap, scan, made)
    modifies scan, heap.pool, heap.pool.store
    ensures Running(ops, first, t0, heap, scan, made) && heap.pool.frames.live == old(heap.pool.frames.live)
    ensures r.Some? && r.value.Err? ==> r.value.error.Buffer? && Blamed(heap, r.value.error)
    ensures heap.Sound() && heap.pool.Later() && heap.pool.Contents() == old(heap.pool.Contents())
    ensures r.None? ==> scan.cursor.failed || Finished(scan.bounds, scan.cursor)
    ensures scan.log.emitted == old(scan.log.emitted) + if r.Some? && r.value.Ok? then [r.value.value] else []
    ensures scan.cursor.failed <==> old(scan.cursor.failed) || (r.Some? && r.value.Err?)
    ensures old(Finished(scan.bounds, scan.cursor)) ==> r.None? || r.value.Err?
  {
    hide Coherent, Logical, TableOf, Chain, Inverse, Allocated, Kept, Seen, NewAddresses, Grows, HasAddress;
    hide Consistent, InBounds, FreshFrom;
    ghost var t, cursor, log := heap.Rows(), scan.cursor, scan.log;
    BoundsHold(first, t0, heap.pages, t);
    r := scan.Next();
    SeenStep(ops, first, t0, t, log.visits, scan.log.visits);
    if Finished(scan.bounds, cursor) { NothingLeft(scan.bounds, cursor, log, scan.cursor, scan.log); }
  }

  /** The scan has read all its pages and handed out all their rows. */
  predicate Finished(bounds: seq<(PageId, nat)>, cursor: Cursor) {
    !cursor.failed && cursor.rows == [] && cursor.index == |bounds|
  }

  /** The record, if there is one, is among the rows. */
  predicate Yields(rows: seq<Row>, ctid: Ctid, record: Option<Tuple>) {
    record.Some? ==> (ctid, record.value) in rows
  }

  /** A row with this address can only be the record. */
  predicate Truthful(rows: seq<Row>, ctid: Ctid, record: Option<Tuple>) {
    forall row | row in rows && row.0 == ctid :: record == Some(row.1)
  }

  /** How many steps of the scan the script takes. */
  function Steps(ops: seq<HeapOp>): nat {
    if ops == [] then 0 else Steps(ops[..|ops| - 1]) + if ops[|ops| - 1].DoNext? then 1 else 0
  }

  /** What a script's scan owes: rows with addresses of its start, none twice; a record that
      the script spares only as it was at the start, and always if the scan ended. */
  ghost predicate Fair(ops: seq<HeapOp>, first: seq<PageId>, t0: Table, rows: seq<Row>, ended: bool) {
    && (forall row | row in rows :: HasAddress(first, t0, row.0))
    && (forall i, j | 0 <= i < j < |rows| :: rows[i].0 != rows[j].0)
    && forall i: nat, slot: nat | i < |first| && i < |t0| && Spares(ops, Ctid(first[i], slot)) ::
         && Truthful(rows, Ctid(first[i], slot), At(t0, i, slot))
         && (ended ==> Yields(rows, Ctid(first[i], slot), At(t0, i, slot)))
  }

  /** A scan interleaved with any script of insertions, deletions, replacements and scan steps.
      `rows` is what the steps handed out; `ended` says that the last step found the end, as it
      does once the script takes a step more than there are rows, unless I/O fails. */
  method RunScript(heap: HeapTable, ops: seq<HeapOp>)
    returns (rows: seq<Row>, ended: bool, made: seq<Ctid>, failures: seq<HeapError>, scanErrors: seq<HeapError>)
    requires heap.Sound() && WellAddressed(ops)
    modifies heap, heap.pool, heap.pool.store
    ensures heap.Sound() && heap.pool.frames.live == old(heap.pool.frames.live)
    ensures Fair(ops, old(heap.pages), old(heap.Rows()), rows, ended)
    ensures old(heap.pages) <= heap.pages && Kept(ops, old(heap.pages), old(heap.Rows()), heap.Rows())
    ensures NewAddresses(made, old(heap.pages), old(heap.Rows()), heap.pages, heap.Rows())
    ensures forall e | e in failures :: !e.CorruptHeap? && Blamed(heap, e)
    ensures forall e | e in scanErrors :: e.Buffer? && Blamed(heap, e)
    ensures scanErrors == [] && Steps(ops) > |rows| ==> ended
  {
    hide Coherent, Logical, TableOf, Chain, Distinct, Inverse, Allocated, Running, WellAddressed, Kept, NewAddresses;
    hide FullyPinned, BufferPool.Valid, BufferPool.Contents;
    hide HasAddress, Fair, Finished, Consistent;
    ghost var first, t0 := heap.pages, heap.Rows();
    rows, ended, made, failures, scanErrors := [], false, [], [], [];
    var started := StartScan(heap);
    if started.Err? {
      NothingYielded(ops, first, t0);
      return rows, ended, made, failures, [started.error];
    }
    var scan := started.value;
    RunStarts(ops, first, t0, heap, scan);
    for n := 0 to |ops|
      invariant Running(ops, first, t0, heap, scan, made) && fresh(scan)
      invariant heap.pool.frames.live == old(heap.pool.frames.live) && rows == scan.log.emitted
      invariant heap.Sound() && heap.pool.Later()
      invariant forall e | e in failures :: !e.CorruptHeap? && Blamed(heap, e)
      invariant forall e | e in scanErrors :: e.Buffer? && Blamed(heap, e)
      invariant ended ==> Finished(scan.bounds, scan.cursor)
      invariant scanErrors == [] ==>
                  !scan.cursor.failed && (if ended then Steps(ops[..n]) > |rows| else Steps(ops[..n]) == |rows|)
    {
      assert ops[..n + 1][..n] == ops[..n];
      if ops[n].DoNext? {
        var r := StepNext(heap, scan, ops, first, t0, made);
        ended := r.None? && !scan.cursor.failed;
        if r.Some? {
          match r.value {
            case Ok(row) => rows := rows + [row];
            case Err(error) => scanErrors := scanErrors + [error];
          }
        }
      } else {
        var a, failure := StepOther(heap, scan, ops, n, first, t0, made);
        if a.Some? { made := made + [a.value]; }
        if failure.Some? { failures := failures + [failure.value]; }
      }
    }
    assert ops[..|ops|] == ops;
    RunEnds(ops, first, t0, heap, scan, made, ended);
  }

  lemma NothingYielded(ops: seq<HeapOp>, first: seq<PageId>, t0: Table)
    ensures Fair(ops, first, t0, [], false) && NewAddresses([], first, t0, first, t0) && Kept(ops, first, t0, t0)
  {
  }

  lemma RunStarts(ops: seq<HeapOp>, first: seq<PageId>, t0: Table, heap: HeapTable, scan: HeapScan)
    requires heap.Sound() && first == heap.pages && t0 == heap.Rows()
    requires scan.heap == heap && scan.bounds == BoundsOf(first, t0)
    requires scan.log == Log([], []) && Consistent(scan.bounds, scan.cursor, scan.log)
    ensures Running(ops, first, t0, heap, scan, [])
  {
    hide Coherent, Logical, TableOf, Chain, Distinct, Inverse, Allocated, HasAddress, Consistent;
  }

  lemma RunEnds(ops: seq<HeapOp>, first: seq<PageId>, t0: Table, heap: HeapTable, scan: HeapScan,
                made: seq<Ctid>, ended: bool)
    requires Running(ops, first, t0, heap, scan, made)
    requires ended ==> Finished(scan.bounds, scan.cursor)
    ensures heap.Sound() && first <= heap.pages && Kept(ops, first, t0, heap.Rows())
    ensures Fair(ops, first, t0, scan.log.emitted, ended) && NewAddresses(made, first, t0, heap.pages, heap.Rows())
  {
    hide Coherent, Logical, TableOf, Chain, Inverse, Allocated, HasAddress, Consistent, Kept, NewAddresses, Seen, Fair;
    assert Distinct(first) by { assert forall k | 0 <= k < |first| :: first[k] == heap.pages[k]; }
    ScanIsFair(ops, first, t0, scan.cursor, scan.log, ended);
  }

  /** The scan's log shows every spared record as it was, and a finished scan's all of them. */
  lemma ScanIsFair(ops: seq<HeapOp>, first: seq<PageId>, t0: Table, cursor: Cursor, log: Log, ended: bool)
    requires |first| == |t0| && Distinct(first) && Consistent(BoundsOf(first, t0), cursor, log)
    requires Seen(ops, first, t0, log.visits) && (ended ==> Finished(BoundsOf(first, t0), cursor))
    ensures Fair(ops, first, t0, log.emitted, ended)
  {
    hide HasAddress, Consistent, Spares, Seen, Truthful, Yields, At, Distinct;
    forall row | row in log.emitted ensures HasAddress(first, t0, row.0) {
      ScannedExisted(first, t0, cursor, log, row);
    }
    forall i, j | 0 <= i < j < |log.emitted| ensures log.emitted[i].0 != log.emitted[j].0 {
      EmittedOnce(first, t0, cursor, log, i, j);
    }
    forall i: nat, slot: nat | i < |first| && i < |t0| && Spares(ops, Ctid(first[i], slot))
      ensures Truthful(log.emitted, Ctid(first[i], slot), At(t0, i, slot))
      ensures ended ==> Yields(log.emitted, Ctid(first[i], slot), At(t0, i, slot))
    {
      EmittedIsTrue(ops, first, t0, cursor, log, i, slot);
      if ended { SparedIsEmitted(ops, first, t0, cursor, log, i, slot); }
    }
  }

  lemma EmittedOnce(first: seq<PageId>, t0: Table, cursor: Cursor, log: Log, i: nat, j: nat)
    requires |first| == |t0| && Distinct(first) && Consistent(BoundsOf(first, t0), cursor, log)
    requires i < j < |log.emitted|
    ensures log.emitted[i].0 != log.emitted[j].0
  {
    hide Output, Distinct;
    var all := log.emitted + cursor.rows;
    assert all[i] == log.emitted[i] && all[j] == log.emitted[j] && BoundIds(BoundsOf(first, t0)) == first;
    OutputOnce(first, log.visits, i, j);
  }

  lemma EmittedIsTrue(ops: seq<HeapOp>, first: seq<PageId>, t0: Table, cursor: Cursor, log: Log, i: nat, slot: nat)
    requires |first| == |t0| && Distinct(first) && Consistent(BoundsOf(first, t0), cursor, log)
    requires Seen(ops, first, t0, log.visits) && i < |first| && Spares(ops, Ctid(first[i], slot))
    ensures Truthful(log.emitted, Ctid(first[i], slot), At(t0, i, slot))
  {
    hide Output, Spares;
    forall row | row in log.emitted && row.0 == Ctid(first[i], slot) ensures At(t0, i, slot) == Some(row.1) {
      assert row in log.emitted + cursor.rows && BoundIds(BoundsOf(first, t0)) == first;
      var k := YieldedWasHeld(first, log.visits, row);
      assert k == i && Same(t0, log.visits, i, slot);
    }
  }

  lemma SparedIsEmitted(ops: seq<HeapOp>, first: seq<PageId>, t0: Table, cursor: Cursor, log: Log, i: nat, slot: nat)
    requires |first| == |t0| && Consistent(BoundsOf(first, t0), cursor, log)
    requires Finished(BoundsOf(first, t0), cursor)
    requires Seen(ops, first, t0, log.visits) && i < |first| && Spares(ops, Ctid(first[i], slot))
    ensures Yields(log.emitted, Ctid(first[i], slot), At(t0, i, slot))
  {
    hide Consistent, Spares;
    if At(t0, i, slot).Some? {
      FinishedScanIsComplete(first, t0, cursor, log, i, slot, At(t0, i, slot).value);
      assert Same(t0, log.visits, i, slot);
    }
  }
}
