/** The operations of crates/heapam/src/page.rs as functions of the page, and what they do to
    the sequence of optional records that the page stands for. */
module PageOps {
  import opened Options
  import opened BufferPools
  import opened HeapPage

  predicate TupleOk(t: Tuple) {
    0 < |t| <= MAX_TUPLE_SIZE
  }

  /** `initialize`. */
  function InitPage(owner: PageId): (p: Page) {
    Build(View(owner, None, []))
  }

  /** `insert`: the new page and the one-based slot ID, or None when there is no room. */
  function InsertPage(p: Page, t: Tuple): (r: Result<(Page, Option<nat>), PageError>) {
    if !TupleOk(t) then Err(InvalidTupleSize)
    else if !WellFormed(p) then Err(Corrupt)
    else
      var v := ViewOf(p);
      var n := |v.records|;
      if SlotPos(n + 1) + Used(v.records) + |t| > PAGE_SIZE then Ok((p, None))
      else UsedAppend(v.records, Some(t)); Ok((Build(v.(records := v.records + [Some(t)])), Some(n + 1)))
  }

  /** `get`. */
  function GetRecord(p: Page, id: nat): (r: Result<Option<Tuple>, PageError>) {
    if !WellFormed(p) then Err(Corrupt)
    else if 1 <= id <= |ViewOf(p).records| then Ok(ViewOf(p).records[id - 1])
    else Ok(None)
  }

  /** One record removed, or replaced by one that fits. */
  function Rewritten(p: Page, k: nat, r: Option<Tuple>): (q: Page)
    requires WellFormed(p) && k < |ViewOf(p).records| && (r.None? || TupleOk(r.value))
    requires r.None? || SlotPos(|ViewOf(p).records|) + Used(ViewOf(p).records) - Size(ViewOf(p).records[k]) + Size(r)
                          <= PAGE_SIZE
  {
    ChangeFits(p, k, r);
    var v := ViewOf(p);
    Build(v.(records := v.records[k := r]))
  }

  /** `delete`. */
  function DeletePage(p: Page, id: nat): (r: Result<(Page, bool), PageError>) {
    if !WellFormed(p) then Err(Corrupt)
    else
      var v := ViewOf(p);
      if !(1 <= id <= |v.records|) || v.records[id - 1].None? then Ok((p, false))
      else Ok((Rewritten(p, id - 1, None), true))
  }

  /** `replace`. */
  function ReplacePage(p: Page, id: nat, t: Tuple): (r: Result<(Page, bool), PageError>) {
    if !TupleOk(t) then Err(InvalidTupleSize)
    else if !WellFormed(p) then Err(Corrupt)
    else
      var v := ViewOf(p);
      if !(1 <= id <= |v.records|) || v.records[id - 1].None?
         || SlotPos(|v.records|) + Used(v.records) - Size(v.records[id - 1]) + |t| > PAGE_SIZE
      then Ok((p, false))
      else Ok((Rewritten(p, id - 1, Some(t)), true))
  }

  /** `set_next`. */
  function SetNextPage(p: Page, next: Option<PageId>): (r: Result<Page, PageError>) {
    if !WellFormed(p) then Err(Corrupt) else Ok(Linked(p, next))
  }

  function Linked(p: Page, next: Option<PageId>): (q: Page) {
    p[..12] + Le32(if next.Some? then next.value else 0) + [if next.Some? then 1 else 0] + p[17..]
  }

  lemma UsedAppend(rs: seq<Option<Tuple>>, r: Option<Tuple>)
    ensures Used(rs + [r]) == Used(rs) + Size(r)
  {
    assert (rs + [r])[..|rs|] == rs;
  }

  lemma {:induction false} UsedUpdate(rs: seq<Option<Tuple>>, k: nat, r: Option<Tuple>)
    requires k < |rs|
    ensures Used(rs[k := r]) == Used(rs) - Size(rs[k]) + Size(r)
  {
    var n := |rs| - 1;
    if k < n {
      assert rs[k := r][..n] == rs[..n][k := r];
      UsedUpdate(rs[..n], k, r);
    } else {
      assert rs[k := r][..n] == rs[..n];
    }
  }

  lemma ChangeFits(p: Page, k: nat, r: Option<Tuple>)
    requires WellFormed(p) && k < |ViewOf(p).records|
    requires SlotPos(|ViewOf(p).records|) + Used(ViewOf(p).records) - Size(ViewOf(p).records[k]) + Size(r) <= PAGE_SIZE
          || r.None?
    ensures Fits(ViewOf(p).records[k := r])
  {
    RecordsFit(p);
    UsedUpdate(ViewOf(p).records, k, r);
  }

  // ---------- what the operations do to the view ----------

  lemma InitView(owner: PageId)
    ensures WellFormed(InitPage(owner)) && ViewOf(InitPage(owner)) == View(owner, None, [])
  {
    BuildReadsBack(View(owner, None, []));
  }

  /** Insertion appends one record under a fresh slot, or changes nothing; it is refused
      exactly when the record does not fit; and an inserted page has at most 2041 slots. */
  lemma InsertView(p: Page, t: Tuple)
    ensures InsertPage(p, t).Ok? <==> TupleOk(t) && WellFormed(p)
    ensures InsertPage(p, t).Ok? ==>
              var (q, id) := InsertPage(p, t).value; var v := ViewOf(p);
              && (id.None? <==> SlotPos(|v.records| + 1) + Used(v.records) + |t| > PAGE_SIZE)
              && (id.None? ==> q == p)
              && (id.Some? ==> id.value == |v.records| + 1 <= 2041 && WellFormed(q)
                               && ViewOf(q) == v.(records := v.records + [Some(t)]))
  {
    hide WellFormed, ViewOf, Build, Used;
    if TupleOk(t) && WellFormed(p) {
      var v := ViewOf(p);
      RecordsFit(p);
      UsedAppend(v.records, Some(t));
      if SlotPos(|v.records| + 1) + Used(v.records) + |t| <= PAGE_SIZE {
        BuildReadsBack(v.(records := v.records + [Some(t)]));
      }
    }
  }

  /** A fresh page takes any valid tuple. */
  lemma InsertIntoFresh(owner: PageId, t: Tuple)
    requires TupleOk(t)
    ensures InsertPage(InitPage(owner), t).Ok? && InsertPage(InitPage(owner), t).value.1 == Some(1)
  {
    InitView(owner);
    InsertView(InitPage(owner), t);
  }

  /** Tuples are refused for their size exactly if no page could hold them. */
  lemma TupleSizes(t: Tuple)
    ensures TupleOk(t) <==> t != [] && Fits([Some(t)])
  {
    var rs := [Some(t)];
    assert rs[..|rs| - 1] == [] && Used(rs) == |t|;
  }

  /** Deletion empties the named slot, or changes nothing when it is not live. */
  lemma DeleteView(p: Page, id: nat)
    ensures DeletePage(p, id).Ok? <==> WellFormed(p)
    ensures WellFormed(p) ==>
              var (q, done) := DeletePage(p, id).value; var v := ViewOf(p);
              && (done <==> 1 <= id <= |v.records| && v.records[id - 1].Some?)
              && (!done ==> q == p)
              && (done ==> WellFormed(q) && ViewOf(q) == v.(records := v.records[id - 1 := None]))
  {
    hide WellFormed, ViewOf, Build, Used;
    if WellFormed(p) {
      var v := ViewOf(p);
      RecordsFit(p);
      if 1 <= id <= |v.records| && v.records[id - 1].Some? {
        ChangeFits(p, id - 1, None);
        BuildReadsBack(v.(records := v.records[id - 1 := None]));
      }
    }
  }

  /** Replacement changes the named slot, or changes nothing when the slot is not live or the
      new record does not fit. */
  lemma ReplaceView(p: Page, id: nat, t: Tuple)
    ensures ReplacePage(p, id, t).Ok? <==> TupleOk(t) && WellFormed(p)
    ensures ReplacePage(p, id, t).Ok? ==>
              var (q, done) := ReplacePage(p, id, t).value; var v := ViewOf(p);
              && (done <==> 1 <= id <= |v.records| && v.records[id - 1].Some?
                            && SlotPos(|v.records|) + Used(v.records) - Size(v.records[id - 1]) + |t| <= PAGE_SIZE)
              && (!done ==> q == p)
              && (done ==> WellFormed(q) && ViewOf(q) == v.(records := v.records[id - 1 := Some(t)]))
  {
    hide WellFormed, ViewOf, Build, Used;
    if TupleOk(t) && WellFormed(p) {
      var v := ViewOf(p);
      RecordsFit(p);
      var (q, done) := ReplacePage(p, id, t).value;
      if done {
        ChangeFits(p, id - 1, Some(t));
        BuildReadsBack(v.(records := v.records[id - 1 := Some(t)]));
      }
    }
  }

  lemma LinkedSlots(p: Page, next: Option<PageId>, k: nat)
    requires SlotPos(k + 1) <= PAGE_SIZE
    ensures SlotOffset(Linked(p, next), k) == SlotOffset(p, k) && SlotLength(Linked(p, next), k) == SlotLength(p, k)
  {
    var q, at := Linked(p, next), SlotPos(k);
    assert q[17..] == p[17..];
    assert q[at..at + 2] == q[17..][at - 17..at - 15] && p[at..at + 2] == p[17..][at - 17..at - 15];
    assert q[at + 2..at + 4] == q[17..][at - 15..at - 13] && p[at + 2..at + 4] == p[17..][at - 15..at - 13];
  }

  lemma LinkedHead(p: Page, next: Option<PageId>)
    requires HeadOk(p)
    ensures var q := Linked(p, next);
            && HeadOk(q) && SlotCount(q) == SlotCount(p) && Upper(q) == Upper(p)
            && q[8..12] == p[8..12] && Next(q) == next
  {
    var q := Linked(p, next);
    var n: PageId := if next.Some? then next.value else 0;
    assert q[17..] == p[17..];
    assert q[..8] == p[..8] && q[8..12] == p[8..12] && q[12..16] == Le32(n);
    assert q[17] == q[17..][0] && q[18] == q[17..][1] && q[19] == q[17..][2];
    assert q[20..22] == q[17..][3..5] && p[20..22] == p[17..][3..5];
    assert q[22..24] == q[17..][5..7] && p[22..24] == p[17..][5..7];
    RoundTrip32(n);
  }

  /** Linking changes the successor and nothing else. */
  lemma SetNextView(p: Page, next: Option<PageId>)
    requires WellFormed(p)
    ensures WellFormed(Linked(p, next)) && ViewOf(Linked(p, next)) == ViewOf(p).(next := next)
  {
    assert SlotPos(SlotCount(p)) <= PAGE_SIZE;
    hide SlotOffset, SlotLength, Linked, HeadOk, Upper, SlotCount, Next;
    var q := Linked(p, next);
    LinkedHead(p, next);
    forall k | 0 <= k < SlotCount(p) ensures SlotOk(q, k) && Record(q, k) == Record(p, k) {
      assert SlotOk(p, k);
      LinkedRecord(p, next, k);
    }
    forall j, k | 0 <= j < k < SlotCount(p) ensures SlotsApart(q, j, k) {
      assert SlotsApart(p, j, k);
      LinkedSlots(p, next, j);
      LinkedSlots(p, next, k);
    }
    assert ViewOf(q).records == ViewOf(p).records;
  }

  lemma LinkedRecord(p: Page, next: Option<PageId>, k: nat)
    requires HeadOk(p) && k < SlotCount(p) && SlotOk(p, k)
    ensures SlotOk(Linked(p, next), k) && Record(Linked(p, next), k) == Record(p, k)
  {
    hide SlotOffset, SlotLength, Upper;
    var q := Linked(p, next);
    LinkedHead(p, next);
    LinkedSlots(p, next, k);
    if SlotLength(p, k) != 0 {
      var a, b := SlotOffset(p, k), SlotOffset(p, k) + SlotLength(p, k);
      assert q[17..] == p[17..];
      assert q[a..b] == q[17..][a - 17..b - 17] && p[a..b] == p[17..][a - 17..b - 17];
    }
  }

  // ---------- runs of operations on one page ----------

  datatype PageOp =
    | Insert(tuple: Tuple)
    | Delete(id: nat)
    | Replace(id: nat, tuple: Tuple)
    | Link(next: Option<PageId>)

  function Apply(p: Page, op: PageOp): (q: Page) {
    match op
    case Insert(t) => (match InsertPage(p, t) case Ok((q, _)) => q case Err(_) => p)
    case Delete(id) => (match DeletePage(p, id) case Ok((q, _)) => q case Err(_) => p)
    case Replace(id, t) => (match ReplacePage(p, id, t) case Ok((q, _)) => q case Err(_) => p)
    case Link(next) => (match SetNextPage(p, next) case Ok(q) => q case Err(_) => p)
  }

  predicate Inserts(p: Page, op: PageOp) {
    op.Insert? && InsertPage(p, op.tuple).Ok? && InsertPage(p, op.tuple).value.1.Some?
  }

  function Run(p: Page, ops: seq<PageOp>): (q: Page) {
    if ops == [] then p else Apply(Run(p, ops[..|ops| - 1]), ops[|ops| - 1])
  }

  /** How many of the operations inserted a record. */
  function InsertCount(p: Page, ops: seq<PageOp>): (n: nat) {
    if ops == [] then 0
    else
      var m := |ops| - 1;
      InsertCount(p, ops[..m]) + if Inserts(Run(p, ops[..m]), ops[m]) then 1 else 0
  }

  lemma StepView(p: Page, op: PageOp)
    requires WellFormed(p)
    ensures WellFormed(Apply(p, op))
    ensures |ViewOf(Apply(p, op)).records| == |ViewOf(p).records| + if Inserts(p, op) then 1 else 0
    ensures Inserts(p, op) ==> |ViewOf(Apply(p, op)).records| <= 2041
    ensures ViewOf(Apply(p, op)).owner == ViewOf(p).owner
  {
    match op
    case Insert(t) => InsertView(p, t);
    case Delete(id) => DeleteView(p, id);
    case Replace(id, t) => ReplaceView(p, id, t);
    case Link(next) => SetNextView(p, next);
  }

  /** Over any run on a well-formed page every intermediate page is well formed, the slot
      directory only grows, by one slot per insertion, so slot IDs are never reused, and at
      most 2041 insertions succeed. */
  lemma {:induction false} RunView(p: Page, ops: seq<PageOp>)
    requires WellFormed(p)
    ensures WellFormed(Run(p, ops))
    ensures |ViewOf(Run(p, ops)).records| == |ViewOf(p).records| + InsertCount(p, ops)
    ensures InsertCount(p, ops) > 0 ==> |ViewOf(Run(p, ops)).records| <= 2041
    ensures InsertCount(p, ops) <= 2041
  {
    if ops != [] {
      var m := |ops| - 1;
      RunView(p, ops[..m]);
      StepView(Run(p, ops[..m]), ops[m]);
    }
  }
}
