/** The slotted heap page of crates/heapam/src/page.rs: its bytes, what they mean, and the
    canonical image that compaction writes. */
module HeapPage {
  import opened Options
  import opened Utf8
  import opened BufferPools

  const HEADER_SIZE: nat := 24
  const SLOT_SIZE: nat := 4
  const MAX_TUPLE_SIZE: nat := PAGE_SIZE - HEADER_SIZE - SLOT_SIZE

  type Tuple = seq<byte>

  /** What a well-formed page says: its heap, its successor, and one optional record per slot. */
  datatype View = View(owner: PageId, next: Option<PageId>, records: seq<Option<Tuple>>)

  datatype PageError = Corrupt | InvalidTupleSize

  // ---------- little-endian fields ----------

  function MAGIC(): (b: seq<byte>)
    ensures |b| == 8
  {
    [0x43, 0x48, 0x49, 0x4C, 0x49, 0x48, 0x50, 0x31]
  }

  function Le16(x: int): (b: seq<byte>)
    requires 0 <= x < 0x10000
    ensures |b| == 2
  {
    [x % 256, x / 256]
  }

  function Le32(x: int): (b: seq<byte>)
    requires 0 <= x < 0x1_0000_0000
    ensures |b| == 4
  {
    [x % 256, x / 256 % 256, x / 65536 % 256, x / 16777216]
  }

  function FromLe16(b: seq<byte>): (x: nat)
    requires |b| == 2
    ensures x < 0x10000
  {
    var lo: int, hi: int := b[0], b[1];
    lo + 256 * hi
  }

  function FromLe32(b: seq<byte>): (x: nat)
    requires |b| == 4
    ensures x < 0x1_0000_0000
  {
    var b0: int, b1: int, b2: int, b3: int := b[0], b[1], b[2], b[3];
    b0 + 256 * b1 + 65536 * b2 + 16777216 * b3
  }

  lemma RoundTrip16(x: int)
    requires 0 <= x < 0x10000
    ensures FromLe16(Le16(x)) == x
  {
  }

  lemma RoundTrip32(x: int)
    requires 0 <= x < 0x1_0000_0000
    ensures FromLe32(Le32(x)) == x
  {
    assert x / 256 == x / 65536 * 256 + x / 256 % 256;
    assert x / 65536 == x / 16777216 * 256 + x / 65536 % 256;
  }

  lemma BytesOf32(b: seq<byte>)
    requires |b| == 4
    ensures Le32(FromLe32(b)) == b
  {
    var b0: int, b1: int, b2: int, b3: int := b[0], b[1], b[2], b[3];
    var x := FromLe32(b);
    assert x == (b1 + 256 * b2 + 65536 * b3) * 256 + b0;
    assert x / 256 == (b2 + 256 * b3) * 256 + b1;
    assert x / 65536 == b3 * 256 + b2;
  }

  // ---------- reading a page ----------

  function SlotCount(p: Page): (n: nat) { FromLe16(p[20..22]) }

  function Upper(p: Page): (n: nat) { FromLe16(p[22..24]) }

  function SlotPos(k: nat): (at: nat) { HEADER_SIZE + k * SLOT_SIZE }

  function SlotOffset(p: Page, k: nat): (n: nat)
    requires SlotPos(k + 1) <= PAGE_SIZE
  {
    FromLe16(p[SlotPos(k)..SlotPos(k) + 2])
  }

  function SlotLength(p: Page, k: nat): (n: nat)
    requires SlotPos(k + 1) <= PAGE_SIZE
  {
    FromLe16(p[SlotPos(k) + 2..SlotPos(k) + 4])
  }

  /** Magic, flag and reserved bytes, and free-space bounds. */
  predicate HeadOk(p: Page) {
    && p[..8] == MAGIC() && p[16] <= 1 && p[17] == 0 && p[18] == 0 && p[19] == 0
    && SlotPos(SlotCount(p)) <= Upper(p) <= PAGE_SIZE
  }

  predicate Live(p: Page, k: nat)
    requires SlotPos(k + 1) <= PAGE_SIZE
  {
    SlotOffset(p, k) != 0 || SlotLength(p, k) != 0
  }

  /** A slot is a tombstone or lies in the payload area. */
  predicate SlotOk(p: Page, k: nat)
    requires SlotPos(k + 1) <= PAGE_SIZE
  {
    Live(p, k) ==>
        SlotLength(p, k) > 0 && Upper(p) <= SlotOffset(p, k) && SlotOffset(p, k) + SlotLength(p, k) <= PAGE_SIZE
  }

  predicate SlotsApart(p: Page, j: nat, k: nat)
    requires SlotPos(j + 1) <= PAGE_SIZE && SlotPos(k + 1) <= PAGE_SIZE
  {
    Live(p, j) && Live(p, k) ==>
      SlotOffset(p, j) + SlotLength(p, j) <= SlotOffset(p, k) || SlotOffset(p, k) + SlotLength(p, k) <= SlotOffset(p, j)
  }

  /** A well-formed page: header, slot bounds, and pairwise disjoint live records. */
  predicate WellFormed(p: Page) {
    && HeadOk(p)
    && (forall k | 0 <= k < SlotCount(p) :: SlotOk(p, k))
    && forall j, k | 0 <= j < k < SlotCount(p) :: SlotsApart(p, j, k)
  }

  function Record(p: Page, k: nat): (r: Option<Tuple>)
    requires SlotPos(k + 1) <= PAGE_SIZE && SlotOk(p, k)
  {
    if SlotLength(p, k) == 0 then None else Some(p[SlotOffset(p, k)..SlotOffset(p, k) + SlotLength(p, k)])
  }

  function Next(p: Page): (n: Option<PageId>) {
    if p[16] == 1 then Some(FromLe32(p[12..16])) else None
  }

  function ViewOf(p: Page): (v: View)
    requires WellFormed(p)
    ensures |v.records| == SlotCount(p) && forall k | 0 <= k < |v.records| :: v.records[k] == Record(p, k)
  {
    View(FromLe32(p[8..12]), Next(p),
        seq(SlotCount(p), k requires 0 <= k < SlotCount(p) => assert SlotOk(p, k); Record(p, k)))
  }

  // ---------- the canonical image of a view ----------

  function Size(r: Option<Tuple>): (n: nat) { if r.Some? then |r.value| else 0 }

  function Used(rs: seq<Option<Tuple>>): (n: nat) {
    if rs == [] then 0 else Used(rs[..|rs| - 1]) + Size(rs[|rs| - 1])
  }

  predicate Fits(rs: seq<Option<Tuple>>) {
    SlotPos(|rs|) + Used(rs) <= PAGE_SIZE
  }

  /** No record is empty: an empty one could not be told from a tombstone. */
  predicate NonEmpty(rs: seq<Option<Tuple>>) {
    forall k | 0 <= k < |rs| :: rs[k].Some? ==> rs[k].value != []
  }

  function Zeros(n: nat): (b: seq<byte>)
    ensures |b| == n
  {
    seq(n, _ => 0)
  }

  function Head(owner: PageId, next: Option<PageId>, slots: nat, upper: nat): (b: seq<byte>)
    requires slots < 0x10000 && upper < 0x10000
    ensures |b| == HEADER_SIZE
  {
    MAGIC() + Le32(owner) + Le32(if next.Some? then next.value else 0)
    + [if next.Some? then 1 else 0, 0, 0, 0] + Le16(slots) + Le16(upper)
  }

  /** Payloads packed downward from the end of the page, the first record last. */
  function Payload(rs: seq<Option<Tuple>>): (b: seq<byte>)
    ensures |b| == Used(rs)
  {
    if rs == [] then []
    else (match rs[|rs| - 1] case Some(t) => t case None => []) + Payload(rs[..|rs| - 1])
  }

  function SlotBytes(rs: seq<Option<Tuple>>): (b: seq<byte>)
    requires rs != [] && Fits(rs)
    ensures |b| == SLOT_SIZE
  {
    match rs[|rs| - 1]
    case Some(t) => Le16(PAGE_SIZE - Used(rs)) + Le16(|t|)
    case None => Zeros(4)
  }

  lemma FitsPrefix(rs: seq<Option<Tuple>>)
    requires rs != [] && Fits(rs)
    ensures Fits(rs[..|rs| - 1])
  {
  }

  lemma UsedDrop(rs: seq<Option<Tuple>>)
    requires rs != []
    ensures Used(rs) == Used(rs[..|rs| - 1]) + Size(rs[|rs| - 1])
  {
  }

  function Directory(rs: seq<Option<Tuple>>): (b: seq<byte>)
    requires Fits(rs)
    ensures |b| == |rs| * SLOT_SIZE
  {
    if rs == [] then []
    else FitsPrefix(rs); Directory(rs[..|rs| - 1]) + SlotBytes(rs)
  }

  /** A page image with the given header fields, holding the records rs. */
  function Image(owner: PageId, next: Option<PageId>, slots: nat, upper: nat, rs: seq<Option<Tuple>>): (p: Page)
    requires slots < 0x10000 && upper < 0x10000 && Fits(rs)
  {
    Head(owner, next, slots, upper) + Directory(rs) + Zeros(PAGE_SIZE - SlotPos(|rs|) - Used(rs)) + Payload(rs)
  }

  function Build(v: View): (p: Page)
    requires Fits(v.records)
  {
    Image(v.owner, v.next, |v.records|, PAGE_SIZE - Used(v.records), v.records)
  }

  // ---------- reading the image back ----------

  lemma HeadFields(owner: PageId, next: Option<PageId>, slots: nat, upper: nat, rest: seq<byte>)
    requires slots < 0x10000 && upper < 0x10000 && HEADER_SIZE + |rest| == PAGE_SIZE
    ensures var p: Page := Head(owner, next, slots, upper) + rest;
            && p[..8] == MAGIC() && p[16] <= 1 && p[17] == 0 && p[18] == 0 && p[19] == 0
            && SlotCount(p) == slots && Upper(p) == upper && FromLe32(p[8..12]) == owner && Next(p) == next
  {
    var n: PageId := if next.Some? then next.value else 0;
    var p: Page := Head(owner, next, slots, upper) + rest;
    assert p[..8] == MAGIC();
    assert p[8..12] == Le32(owner);
    assert p[12..16] == Le32(n);
    assert p[20..22] == Le16(slots);
    assert p[22..24] == Le16(upper);
    RoundTrip32(owner);
    RoundTrip32(n);
    RoundTrip16(slots);
    RoundTrip16(upper);
  }

  /** Slot k of the directory and record k of the payload do not depend on later records. */
  lemma {:induction false} DirectoryAt(rs: seq<Option<Tuple>>, k: nat)
    requires Fits(rs) && k < |rs|
    ensures Fits(rs[..k + 1]) && Directory(rs)[k * SLOT_SIZE..(k + 1) * SLOT_SIZE] == SlotBytes(rs[..k + 1])
  {
    hide SlotBytes, Used;
    var n := |rs| - 1;
    UsedDrop(rs);
    assert Directory(rs) == Directory(rs[..n]) + SlotBytes(rs);
    if k < n {
      DirectoryAt(rs[..n], k);
      assert rs[..n][..k + 1] == rs[..k + 1];
      assert Directory(rs)[k * SLOT_SIZE..(k + 1) * SLOT_SIZE] ==
          Directory(rs[..n])[k * SLOT_SIZE..(k + 1) * SLOT_SIZE];
    } else {
      assert rs[..k + 1] == rs;
      assert Directory(rs)[n * SLOT_SIZE..(n + 1) * SLOT_SIZE] == SlotBytes(rs);
    }
  }

  lemma ShiftSlice(x: seq<byte>, y: seq<byte>, a: nat, b: nat)
    requires |x| <= a <= b <= |x| + |y|
    ensures (x + y)[a..b] == y[a - |x|..b - |x|]
  {
  }

  lemma {:induction false} PayloadAt(rs: seq<Option<Tuple>>, k: nat)
    requires k < |rs| && rs[k].Some?
    ensures Used(rs[..k + 1]) <= Used(rs) && |rs[k].value| <= Used(rs[..k + 1])
    ensures var at := Used(rs) - Used(rs[..k + 1]); Payload(rs)[at..at + |rs[k].value|] == rs[k].value
  {
    var n := |rs| - 1;
    if k < n {
      PayloadAt(rs[..n], k);
      assert rs[..n][..k + 1] == rs[..k + 1];
      var at := Used(rs) - Used(rs[..k + 1]);
      ShiftSlice(match rs[n] case Some(t) => t case None => [], Payload(rs[..n]), at, at + |rs[k].value|);
    } else {
      assert rs[..k + 1] == rs;
      assert (rs[k].value + Payload(rs[..n]))[..|rs[k].value|] == rs[k].value;
    }
  }

  lemma {:induction false} UsedMonotone(rs: seq<Option<Tuple>>, j: nat, k: nat)
    requires j <= k <= |rs|
    ensures Used(rs[..j]) <= Used(rs[..k])
  {
    if j < k {
      assert rs[..k][..k - 1] == rs[..k - 1];
      UsedMonotone(rs, j, k - 1);
    }
  }

  lemma ImageSlotBytes(owner: PageId, next: Option<PageId>, slots: nat, upper: nat, rs: seq<Option<Tuple>>, k: nat)
    requires slots < 0x10000 && upper < 0x10000 && Fits(rs) && k < |rs|
    ensures Fits(rs[..k + 1]) &&
              Image(owner, next, slots, upper, rs)[SlotPos(k)..SlotPos(k) + 4] == SlotBytes(rs[..k + 1])
  {
    hide Used, SlotBytes, Head, Payload;
    DirectoryAt(rs, k);
    var head, dir := Head(owner, next, slots, upper), Directory(rs);
    var rest := Zeros(PAGE_SIZE - SlotPos(|rs|) - Used(rs)) + Payload(rs);
    assert Image(owner, next, slots, upper, rs) == head + (dir + rest);
    ShiftSlice(head, dir + rest, SlotPos(k), SlotPos(k) + 4);
    assert (dir + rest)[k * SLOT_SIZE..(k + 1) * SLOT_SIZE] == dir[k * SLOT_SIZE..(k + 1) * SLOT_SIZE];
  }

  lemma Halves(s: seq<byte>, at: nat)
    requires at + 4 <= |s|
    ensures s[at..at + 2] == s[at..at + 4][..2] && s[at + 2..at + 4] == s[at..at + 4][2..]
  {
  }

  /** Slot k of an image points at record k. */
  lemma ImageSlot(owner: PageId, next: Option<PageId>, slots: nat, upper: nat, rs: seq<Option<Tuple>>, k: nat)
    requires slots < 0x10000 && upper < 0x10000 && Fits(rs) && k < |rs|
    ensures var p := Image(owner, next, slots, upper, rs);
            && Used(rs[..k + 1]) <= Used(rs)
            && SlotLength(p, k) == Size(rs[k])
            && SlotOffset(p, k) == (if rs[k].Some? then PAGE_SIZE - Used(rs[..k + 1]) else 0)
  {
    hide Image, Le16, FromLe16, Used, SlotBytes;
    var p := Image(owner, next, slots, upper, rs);
    ImageSlotBytes(owner, next, slots, upper, rs, k);
    UsedMonotone(rs, k + 1, |rs|);
    assert rs[..|rs|] == rs && rs[..k + 1][k] == rs[k];
    Halves(p, SlotPos(k));
    SlotFields(rs[..k + 1]);
  }

  /** The two fields of a slot. */
  lemma SlotFields(rs: seq<Option<Tuple>>)
    requires rs != [] && Fits(rs)
    ensures var b, last := SlotBytes(rs), rs[|rs| - 1];
            && FromLe16(b[2..]) == Size(last)
            && FromLe16(b[..2]) == (if last.Some? then PAGE_SIZE - Used(rs) else 0)
  {
    hide Used, Le16, FromLe16;
    UsedDrop(rs);
    var b, last := SlotBytes(rs), rs[|rs| - 1];
    if last.Some? {
      RoundTrip16(PAGE_SIZE - Used(rs));
      RoundTrip16(|last.value|);
      assert b[..2] == Le16(PAGE_SIZE - Used(rs)) && b[2..] == Le16(|last.value|);
    } else {
      RoundTrip16(0);
      assert b[..2] == [0, 0] && b[2..] == [0, 0];
      ZeroLe16();
    }
  }

  lemma ZeroLe16()
    ensures Le16(0) == [0, 0]
  {
  }

  lemma ImageRecord(owner: PageId, next: Option<PageId>, slots: nat, upper: nat, rs: seq<Option<Tuple>>, k: nat)
    requires slots < 0x10000 && upper < 0x10000 && Fits(rs) && k < |rs| && rs[k].Some?
    ensures var p := Image(owner, next, slots, upper, rs); var at := PAGE_SIZE - Used(rs[..k + 1]);
            0 <= at && at + |rs[k].value| <= PAGE_SIZE && p[at..at + |rs[k].value|] == rs[k].value
  {
    var p := Image(owner, next, slots, upper, rs);
    PayloadAt(rs, k);
    var at := PAGE_SIZE - Used(rs[..k + 1]);
    var base := PAGE_SIZE - Used(rs);
    assert p[base..] == Payload(rs);
    assert p[at..at + |rs[k].value|] == p[base..][at - base..at - base + |rs[k].value|];
  }

  lemma BuildHead(v: View)
    requires Fits(v.records)
    ensures var p := Build(v);
            && HeadOk(p) && SlotCount(p) == |v.records| && Upper(p) == PAGE_SIZE - Used(v.records)
            && FromLe32(p[8..12]) == v.owner && Next(p) == v.next
  {
    hide Head, Used, Payload, Directory;
    var rs := v.records;
    var n, upper := |rs|, PAGE_SIZE - Used(rs);
    var rest := Directory(rs) + Zeros(PAGE_SIZE - SlotPos(n) - Used(rs)) + Payload(rs);
    assert Build(v) == Head(v.owner, v.next, n, upper) + rest;
    HeadFields(v.owner, v.next, n, upper, rest);
  }

  lemma BuildSlot(v: View, k: nat)
    requires Fits(v.records) && NonEmpty(v.records) && k < |v.records|
    ensures SlotOk(Build(v), k) && Record(Build(v), k) == v.records[k]
  {
    hide Image, SlotOffset, SlotLength, Used;
    var rs := v.records;
    BuildHead(v);
    ImageSlot(v.owner, v.next, |rs|, PAGE_SIZE - Used(rs), rs, k);
    if rs[k].Some? { ImageRecord(v.owner, v.next, |rs|, PAGE_SIZE - Used(rs), rs, k); }
  }

  lemma BuildSlotsApart(v: View, j: nat, k: nat)
    requires Fits(v.records) && NonEmpty(v.records) && j < k < |v.records|
    ensures SlotsApart(Build(v), j, k)
  {
    hide Image, SlotOffset, SlotLength;
    var rs := v.records;
    ImageSlot(v.owner, v.next, |rs|, PAGE_SIZE - Used(rs), rs, j);
    ImageSlot(v.owner, v.next, |rs|, PAGE_SIZE - Used(rs), rs, k);
    UsedMonotone(rs, j + 1, k);
    assert rs[..k + 1][..k] == rs[..k];
  }

  /** The image of a view is well formed and reads back as that view. */
  lemma BuildReadsBack(v: View)
    requires Fits(v.records) && NonEmpty(v.records)
    ensures WellFormed(Build(v)) && ViewOf(Build(v)) == v
  {
    hide Build, SlotOk, Record, SlotsApart, HeadOk, Used;
    var p := Build(v);
    BuildHead(v);
    forall k | 0 <= k < |v.records| ensures SlotOk(p, k) && Record(p, k) == v.records[k] { BuildSlot(v, k); }
    forall j, k | 0 <= j < k < |v.records| ensures SlotsApart(p, j, k) { BuildSlotsApart(v, j, k); }
    assert WellFormed(p);
    assert ViewOf(p).records == v.records;
  }

  // ---------- disjoint records fit ----------

  ghost function Extent(p: Page, k: nat): (s: set<nat>)
    requires SlotPos(k + 1) <= PAGE_SIZE
    ensures forall b: nat :: b in s <==> SlotOffset(p, k) <= b < SlotOffset(p, k) + SlotLength(p, k)
    ensures |s| == SlotLength(p, k)
  {
    Interval(SlotOffset(p, k), SlotOffset(p, k) + SlotLength(p, k))
  }

  ghost function Interval(lo: nat, hi: nat): (s: set<nat>)
    requires lo <= hi
    ensures forall b: nat :: b in s <==> lo <= b < hi
    ensures |s| == hi - lo
    decreases hi - lo
  {
    if lo == hi then {} else {lo} + Interval(lo + 1, hi)
  }

  /** The bytes occupied by the first n slots. */
  ghost function Occupied(p: Page, n: nat): (s: set<nat>)
    requires SlotPos(n) <= PAGE_SIZE
  {
    if n == 0 then {} else Occupied(p, n - 1) + Extent(p, n - 1)
  }

  lemma {:induction false} OccupiedAt(p: Page, n: nat, b: nat) returns (k: nat)
    requires SlotPos(n) <= PAGE_SIZE && b in Occupied(p, n)
    ensures k < n && b in Extent(p, k)
  {
    hide Extent;
    if b in Extent(p, n - 1) {
      k := n - 1;
    } else {
      k := OccupiedAt(p, n - 1, b);
    }
  }

  lemma {:induction false} OccupiedBy(p: Page, n: nat, k: nat)
    requires SlotPos(n) <= PAGE_SIZE && k < n
    ensures Extent(p, k) <= Occupied(p, n)
  {
    hide Extent;
    if k < n - 1 { OccupiedBy(p, n - 1, k); }
  }

  ghost function LengthSum(p: Page, n: nat): (s: nat)
    requires SlotPos(n) <= PAGE_SIZE
  {
    if n == 0 then 0 else LengthSum(p, n - 1) + SlotLength(p, n - 1)
  }

  lemma ExtentApart(p: Page, n: nat)
    requires SlotPos(n + 1) <= PAGE_SIZE && SlotOk(p, n) && Live(p, n)
    requires forall j | 0 <= j < n :: SlotsApart(p, j, n)
    ensures Occupied(p, n) !! Extent(p, n)
  {
    hide Occupied, SlotOffset, SlotLength;
    var before, extent := Occupied(p, n), Extent(p, n);
    forall b | b in before ensures b !in extent {
      var j := OccupiedAt(p, n, b);
      assert SlotsApart(p, j, n);
    }
  }

  lemma {:induction false} OccupiedSize(p: Page, n: nat)
    requires SlotPos(n) <= Upper(p) <= PAGE_SIZE
    requires forall k | 0 <= k < n :: SlotOk(p, k)
    requires forall j, k | 0 <= j < k < n :: SlotsApart(p, j, k)
    ensures |Occupied(p, n)| == LengthSum(p, n)
    ensures Occupied(p, n) <= Interval(Upper(p), PAGE_SIZE)
  {
    hide SlotOffset, SlotLength, Interval, Upper;
    if n > 0 {
      OccupiedSize(p, n - 1);
      assert SlotOk(p, n - 1);
      if Live(p, n - 1) { ExtentApart(p, n - 1); }
    }
  }

  lemma SubsetCard(a: set<nat>, b: set<nat>)
    requires a <= b
    ensures |a| <= |b|
  {
    assert b == a + (b - a);
  }

  lemma {:induction false} LengthSumIsUsed(p: Page, n: nat)
    requires WellFormed(p) && n <= SlotCount(p)
    ensures LengthSum(p, n) == Used(ViewOf(p).records[..n])
  {
    if n > 0 {
      var rs := ViewOf(p).records;
      LengthSumIsUsed(p, n - 1);
      assert rs[..n][..n - 1] == rs[..n - 1];
      assert rs[n - 1] == Record(p, n - 1);
    }
  }

  lemma RecordsNonEmpty(p: Page)
    requires WellFormed(p)
    ensures NonEmpty(ViewOf(p).records)
  {
    hide SlotOffset, SlotLength, SlotsApart;
    var rs := ViewOf(p).records;
    forall k | 0 <= k < |rs| && rs[k].Some? ensures rs[k].value != [] { assert SlotOk(p, k) && rs[k] == Record(p, k); }
  }

  /** Pairwise disjoint records take no more than the payload area, so the page's own records
      always fit its compacted image. This is why deletion needs no space check. */
  lemma RecordsFit(p: Page)
    requires WellFormed(p)
    ensures Used(ViewOf(p).records) <= PAGE_SIZE - Upper(p)
    ensures Fits(ViewOf(p).records) && NonEmpty(ViewOf(p).records)
  {
    hide SlotOffset, SlotLength, Occupied, Interval, Upper, Used, NonEmpty;
    var n, rs := SlotCount(p), ViewOf(p).records;
    OccupiedSize(p, n);
    SubsetCard(Occupied(p, n), Interval(Upper(p), PAGE_SIZE));
    LengthSumIsUsed(p, n);
    assert rs[..n] == rs;
    RecordsNonEmpty(p);
  }
}
