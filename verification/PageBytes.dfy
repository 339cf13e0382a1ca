/** The byte-array code of crates/heapam/src/page.rs, in place, proved against the functions of
    PageOps. */
module PageBytes {
  import opened Options
  import opened Utf8
  import opened BufferPools
  import opened HeapPage
  import opened PageOps

  datatype Header = Header(owner: PageId, next: Option<PageId>, slots: nat)

  function HeaderOf(v: View): (h: Header) {
    Header(v.owner, v.next, |v.records|)
  }

  // ---------- copying ----------

  function Splice(s: seq<byte>, at: nat, b: seq<byte>): (t: seq<byte>)
    requires at + |b| <= |s|
    ensures |t| == |s|
  {
    s[..at] + b + s[at + |b|..]
  }

  /** `copy_from_slice` into part of an array. */
  method Put(a: array<byte>, at: nat, b: seq<byte>)
    requires at + |b| <= a.Length
    modifies a
    ensures a[..] == Splice(old(a[..]), at, b)
  {
    forall i | at <= i < at + |b| { a[i] := b[i - at]; }
    assert forall i | 0 <= i < a.Length :: a[i] == Splice(old(a[..]), at, b)[i];
  }

  method Assign(a: array<byte>, b: array<byte>)
    requires a.Length == b.Length
    modifies a
    ensures a[..] == old(b[..])
  {
    ghost var data := b[..];
    forall i | 0 <= i < a.Length { a[i] := b[i]; }
    assert forall i | 0 <= i < a.Length :: a[i] == data[i];
  }

  // ---------- validate ----------

  /** Two extents that share no byte are apart. */
  lemma ApartIfDisjoint(p: Page, j: nat, k: nat)
    requires SlotPos(j + 1) <= PAGE_SIZE && SlotPos(k + 1) <= PAGE_SIZE
    requires SlotLength(p, j) > 0 && SlotLength(p, k) > 0 && Extent(p, j) !! Extent(p, k)
    ensures SlotsApart(p, j, k)
  {
    hide SlotOffset, SlotLength;
    var a, b := SlotOffset(p, j), SlotOffset(p, k);
    var top := if a < b then b else a;
    assert top in Extent(p, j) ==> top !in Extent(p, k);
  }

  /** Marking the bytes of slot k: stops at the first byte that is already taken. */
  method MarkSlot(occupied: array<bool>, ghost p: Page, k: nat, offset: nat, len: nat) returns (ok: bool)
    requires occupied.Length == PAGE_SIZE && SlotPos(k + 1) <= PAGE_SIZE
    requires offset == SlotOffset(p, k) && len == SlotLength(p, k) && offset + len <= PAGE_SIZE
    requires forall b | 0 <= b < PAGE_SIZE :: occupied[b] <==> b in Occupied(p, k)
    modifies occupied
    ensures ok <==> Occupied(p, k) !! Extent(p, k)
    ensures ok ==> forall b | 0 <= b < PAGE_SIZE :: occupied[b] <==> b in Occupied(p, k + 1)
  {
    hide Occupied, SlotOffset, SlotLength;
    ghost var before := Occupied(p, k);
    for b := offset to offset + len
      invariant forall x | 0 <= x < PAGE_SIZE :: occupied[x] <==> x in before || offset <= x < b
      invariant forall x | offset <= x < b :: x !in before
    {
      if occupied[b] {
        assert b in Extent(p, k);
        return false;
      }
      occupied[b] := true;
    }
    OccupiedNext(p, k);
    return true;
  }

  lemma OccupiedNext(p: Page, k: nat)
    requires SlotPos(k + 1) <= PAGE_SIZE
    ensures Occupied(p, k + 1) == Occupied(p, k) + Extent(p, k)
  {
  }

  /** The first k slots are well formed. */
  ghost predicate Scanned(p: Page, k: nat) {
    && SlotPos(k) <= PAGE_SIZE
    && (forall i | 0 <= i < k :: SlotOk(p, i))
    && forall i, j | 0 <= i < j < k :: SlotsApart(p, i, j)
  }

  /** A slot that overlaps an earlier one spoils the page. */
  lemma OverlapSpoils(p: Page, k: nat)
    requires HeadOk(p) && k < SlotCount(p) && !(Occupied(p, k) !! Extent(p, k))
    ensures !WellFormed(p)
  {
    hide Occupied, SlotOffset, SlotLength, Upper, SlotCount;
    var b :| b in Occupied(p, k) && b in Extent(p, k);
    var j := OccupiedAt(p, k, b);
    assert !SlotsApart(p, j, k);
  }

  lemma NewSlotScanned(p: Page, k: nat)
    requires SlotPos(k + 1) <= PAGE_SIZE && Occupied(p, k) !! Extent(p, k) && SlotLength(p, k) > 0 && SlotOk(p, k)
    requires Scanned(p, k)
    ensures Scanned(p, k + 1) && LengthSum(p, k + 1) == LengthSum(p, k) + SlotLength(p, k)
  {
    hide Occupied, SlotOffset, SlotLength, Extent;
    forall j | 0 <= j < k ensures SlotsApart(p, j, k) {
      OccupiedBy(p, k, j);
      assert SlotOk(p, j);
      if Live(p, j) { ApartIfDisjoint(p, j, k); }
    }
  }

  lemma TombstoneScanned(p: Page, k: nat)
    requires SlotPos(k + 1) <= PAGE_SIZE && !Live(p, k) && Scanned(p, k)
    ensures Scanned(p, k + 1) && LengthSum(p, k + 1) == LengthSum(p, k) && Occupied(p, k + 1) == Occupied(p, k)
  {
    hide SlotOffset, SlotLength;
    assert Extent(p, k) == {};
  }

  lemma ScannedAll(p: Page)
    requires HeadOk(p) && Scanned(p, SlotCount(p))
    ensures WellFormed(p) && LengthSum(p, SlotCount(p)) == Used(ViewOf(p).records)
    ensures HeaderOf(ViewOf(p)) == Header(FromLe32(p[8..12]), Next(p), SlotCount(p))
  {
    hide SlotOffset, SlotLength, Upper;
    LengthSumIsUsed(p, SlotCount(p));
    assert ViewOf(p).records[..SlotCount(p)] == ViewOf(p).records;
  }

  lemma BadSlotSpoils(p: Page, k: nat)
    requires HeadOk(p) && k < SlotCount(p) && !SlotOk(p, k)
    ensures !WellFormed(p)
  {
  }

  /** The linear validation accepts exactly the well-formed pages and adds up their records. */
  method Validate(page: array<byte>) returns (r: Result<(Header, nat), PageError>)
    requires page.Length == PAGE_SIZE
    ensures r.Ok? <==> WellFormed(page[..])
    ensures r.Ok? ==> r.value.0 == HeaderOf(ViewOf(page[..])) && r.value.1 == Used(ViewOf(page[..]).records)
    ensures r.Err? ==> r.error == Corrupt
  {
    hide SlotOffset, SlotLength, Occupied, Extent, Upper, SlotCount, ViewOf, Used, SlotsApart, LengthSum;
    var p: Page := page[..];
    if !HeadOk(p) { return Err(Corrupt); }
    var slots := SlotCount(p);
    var occupied := new bool[PAGE_SIZE](_ => false);
    var used := 0;
    NothingScanned(p);
    for k := 0 to slots
      invariant page[..] == p && Scanned(p, k)
      invariant forall b | 0 <= b < PAGE_SIZE :: occupied[b] <==> b in Occupied(p, k)
      invariant used == LengthSum(p, k)
    {
      var offset, len := SlotOffset(p, k), SlotLength(p, k);
      if offset == 0 && len == 0 {
        TombstoneScanned(p, k);
      } else {
        if len == 0 || offset < Upper(p) || offset + len > PAGE_SIZE {
          BadSlotSpoils(p, k);
          return Err(Corrupt);
        }
        var ok := MarkSlot(occupied, p, k, offset, len);
        if !ok {
          OverlapSpoils(p, k);
          return Err(Corrupt);
        }
        NewSlotScanned(p, k);
        used := used + len;
      }
    }
    ScannedAll(p);
    return Ok((Header(FromLe32(p[8..12]), Next(p), slots), used));
  }

  lemma NothingScanned(p: Page)
    ensures Scanned(p, 0) && LengthSum(p, 0) == 0 && Occupied(p, 0) == {}
  {
  }

  // ---------- compact ----------

  lemma SpliceMiddle(x: seq<byte>, g: nat, y: seq<byte>, b: seq<byte>)
    requires |b| <= g
    ensures Splice(x + Zeros(g) + y, |x|, b) == (x + b) + Zeros(g - |b|) + y
    ensures Splice(x + Zeros(g) + y, |x| + g - |b|, b) == x + Zeros(g - |b|) + (b + y)
  {
  }

  lemma SpliceOver(x: seq<byte>, was: seq<byte>, y: seq<byte>, b: seq<byte>)
    requires |b| == |was|
    ensures Splice(x + was + y, |x|, b) == x + b + y
  {
  }

  /** `initialize`, and the header fields that `compact` adds to it. */
  method WriteHead(a: array<byte>, owner: PageId, next: Option<PageId>, slots: nat)
    requires a.Length == PAGE_SIZE && slots < 0x10000
    modifies a
    ensures a[..] == Head(owner, next, slots, PAGE_SIZE) + Zeros(PAGE_SIZE - HEADER_SIZE)
  {
    Initialize(a, owner);
    var n: PageId := if next.Some? then next.value else 0;
    Put(a, 12, Le32(n));
    Put(a, 16, [if next.Some? then 1 else 0]);
    Put(a, 20, Le16(slots));
    HeadAssembled(owner, next, slots);
  }

  lemma HeadAssembled(owner: PageId, next: Option<PageId>, slots: nat)
    requires slots < 0x10000
    ensures var n: PageId := if next.Some? then next.value else 0;
            var s0 := Head(owner, None, 0, PAGE_SIZE) + Zeros(PAGE_SIZE - HEADER_SIZE);
            Splice(Splice(Splice(s0, 12, Le32(n)), 16, [if next.Some? then 1 else 0]), 20, Le16(slots))
            == Head(owner, next, slots, PAGE_SIZE) + Zeros(PAGE_SIZE - HEADER_SIZE)
  {
    hide Le32, Le16, MAGIC, Splice;
    var n: PageId := if next.Some? then next.value else 0;
    var flag: byte := if next.Some? then 1 else 0;
    var z := Zeros(PAGE_SIZE - HEADER_SIZE);
    var x, y := MAGIC() + Le32(owner), Le16(PAGE_SIZE) + z;
    assert Head(owner, None, 0, PAGE_SIZE) + z == x + Le32(0) + ([0, 0, 0, 0] + Le16(0) + y);
    SpliceOver(x, Le32(0), [0, 0, 0, 0] + Le16(0) + y, Le32(n));
    assert x + Le32(n) + ([0, 0, 0, 0] + Le16(0) + y) == (x + Le32(n)) + [0] + ([0, 0, 0] + Le16(0) + y);
    SpliceOver(x + Le32(n), [0], [0, 0, 0] + Le16(0) + y, [flag]);
    assert (x + Le32(n)) + [flag] + ([0, 0, 0] + Le16(0) + y) == (x + Le32(n) + [flag, 0, 0, 0]) + Le16(0) + y;
    SpliceOver(x + Le32(n) + [flag, 0, 0, 0], Le16(0), y, Le16(slots));
    assert Head(owner, next, slots, PAGE_SIZE) + z == (x + Le32(n) + [flag, 0, 0, 0]) + Le16(slots) + y;
  }

  method Initialize(a: array<byte>, owner: PageId)
    requires a.Length == PAGE_SIZE
    modifies a
    ensures a[..] == InitPage(owner) == Head(owner, None, 0, PAGE_SIZE) + Zeros(PAGE_SIZE - HEADER_SIZE)
  {
    forall i | 0 <= i < a.Length { a[i] := 0; }
    assert a[..] == Zeros(PAGE_SIZE);
    Put(a, 0, MAGIC());
    Put(a, 8, Le32(owner));
    Put(a, 22, Le16(PAGE_SIZE));
    InitAssembled(owner);
  }

  lemma InitAssembled(owner: PageId)
    ensures Splice(Splice(Splice(Zeros(PAGE_SIZE), 0, MAGIC()), 8, Le32(owner)), 22, Le16(PAGE_SIZE)) == InitPage(owner)
    ensures InitPage(owner) == Head(owner, None, 0, PAGE_SIZE) + Zeros(PAGE_SIZE - HEADER_SIZE)
  {
    ZeroFields();
    hide Le32, Le16, MAGIC;
    var s1 := Splice(Zeros(PAGE_SIZE), 0, MAGIC());
    assert s1 == MAGIC() + Zeros(PAGE_SIZE - 8);
    var s2 := Splice(s1, 8, Le32(owner));
    assert s2 == MAGIC() + Le32(owner) + Zeros(PAGE_SIZE - 12);
    var s3 := Splice(s2, 22, Le16(PAGE_SIZE));
    assert s3 == MAGIC() + Le32(owner) + Zeros(10) + Le16(PAGE_SIZE) + Zeros(PAGE_SIZE - HEADER_SIZE);
    assert Zeros(10) == Le32(0) + [0, 0, 0, 0] + Le16(0);
    assert Used([]) == 0 && Directory([]) == [] && Payload([]) == [];
  }

  lemma ZeroFields()
    ensures Le32(0) == Zeros(4) && Le16(0) == Zeros(2)
  {
  }

  /** The records after an optional change to one slot. */
  function Changed(rs: seq<Option<Tuple>>, change: Option<(nat, Option<Tuple>)>): (q: seq<Option<Tuple>>)
    requires change.Some? ==> change.value.0 < |rs|
    ensures |q| == |rs|
  {
    if change.Some? then rs[change.value.0 := change.value.1] else rs
  }

  lemma {:induction false} FitsTake(rs: seq<Option<Tuple>>, k: nat)
    requires Fits(rs) && k <= |rs|
    ensures Fits(rs[..k]) && (k < |rs| ==> Fits(rs[..k + 1]) && Used(rs[..k + 1]) == Used(rs[..k]) + Size(rs[k]))
  {
    UsedMonotone(rs, k, |rs|);
    assert rs[..|rs|] == rs;
    if k < |rs| {
      UsedMonotone(rs, k + 1, |rs|);
      assert rs[..k + 1][..k] == rs[..k];
    }
  }

  lemma GrownUsed(rs: seq<Option<Tuple>>, t: Tuple)
    requires Fits(rs + [Some(t)])
    ensures Fits(rs) && Used(rs + [Some(t)]) == Used(rs) + |t|
  {
    assert (rs + [Some(t)])[..|rs|] == rs;
  }

  lemma GrownParts(rs: seq<Option<Tuple>>, t: Tuple)
    requires Fits(rs + [Some(t)])
    ensures Fits(rs) && Used(rs + [Some(t)]) == Used(rs) + |t|
    ensures Directory(rs + [Some(t)]) == Directory(rs) + (Le16(PAGE_SIZE - Used(rs) - |t|) + Le16(|t|))
    ensures Payload(rs + [Some(t)]) == t + Payload(rs)
  {
    assert (rs + [Some(t)])[..|rs|] == rs;
  }

  /** Adding one live record to an image: its bytes above the packed payload, its slot after
      the directory. */
  lemma ImageGrows(owner: PageId, next: Option<PageId>, slots: nat, upper: nat, rs: seq<Option<Tuple>>, t: Tuple)
    requires slots < 0x10000 && upper < 0x10000 && Fits(rs + [Some(t)])
    ensures Fits(rs) && Used(rs + [Some(t)]) == Used(rs) + |t|
    ensures var top := PAGE_SIZE - Used(rs) - |t|;
            Splice(Splice(Image(owner, next, slots, upper, rs), top, t), SlotPos(|rs|), Le16(top) + Le16(|t|))
            == Image(owner, next, slots, upper, rs + [Some(t)])
  {
    hide Used, Directory, Payload, Head, Le16, Splice, Image, Zeros, Joined, Layout;
    GrownUsed(rs, t);
    ImageIs(owner, next, slots, upper, rs);
    ImageIsGrown(owner, next, slots, upper, rs, t);
    var top := PAGE_SIZE - Used(rs) - |t|;
    TwoSplices(Joined(Head(owner, next, slots, upper), Directory(rs)), PAGE_SIZE - SlotPos(|rs|) - Used(rs),
               Payload(rs), t, Joined(Le16(top), Le16(|t|)));
    assert Joined(Le16(top), Le16(|t|)) == Le16(top) + Le16(|t|) by { JoinedIs(Le16(top), Le16(|t|)); }
  }

  function Joined(a: seq<byte>, b: seq<byte>): (c: seq<byte>)
    ensures |c| == |a| + |b|
  {
    a + b
  }

  lemma JoinedIs(a: seq<byte>, b: seq<byte>)
    ensures Joined(a, b) == a + b
  {
  }

  function Layout(x: seq<byte>, gap: nat, y: seq<byte>): (c: seq<byte>)
    ensures |c| == |x| + gap + |y|
  {
    x + Zeros(gap) + y
  }

  lemma TwoSplices(x: seq<byte>, g: nat, y: seq<byte>, t: seq<byte>, b: seq<byte>)
    requires |t| + |b| <= g
    ensures Splice(Splice(Layout(x, g, y), |x| + g - |t|, t), |x|, b) ==
              Layout(Joined(x, b), g - |t| - |b|, Joined(t, y))
  {
    hide Splice, Zeros;
    SpliceMiddle(x, g, y, t);
    SpliceMiddle(x, g - |t|, t + y, b);
  }

  lemma ImageIsGrown(owner: PageId, next: Option<PageId>, slots: nat, upper: nat, rs: seq<Option<Tuple>>, t: Tuple)
    requires slots < 0x10000 && upper < 0x10000 && Fits(rs + [Some(t)]) && Fits(rs)
    requires |t| < 0x10000 && PAGE_SIZE - Used(rs) - |t| >= 0
    ensures var top := PAGE_SIZE - Used(rs) - |t|; var g := PAGE_SIZE - SlotPos(|rs|) - Used(rs);
            var b := Joined(Le16(top), Le16(|t|));
            && g - |t| - |b| >= 0
            && Image(owner, next, slots, upper, rs + [Some(t)])
               == Layout(Joined(Joined(Head(owner, next, slots, upper), Directory(rs)), b), g - |t| - |b|,
                         Joined(t, Payload(rs)))
  {
    hide Used, Directory, Payload, Head, Le16, Image, Zeros, Layout;
    GrownParts(rs, t);
    ImageIs(owner, next, slots, upper, rs + [Some(t)]);
    Assoc(Head(owner, next, slots, upper), Directory(rs), Le16(PAGE_SIZE - Used(rs) - |t|) + Le16(|t|));
  }

  lemma Assoc(a: seq<byte>, b: seq<byte>, c: seq<byte>)
    ensures (a + b) + c == a + (b + c)
  {
  }

  lemma ImageIs(owner: PageId, next: Option<PageId>, slots: nat, upper: nat, rs: seq<Option<Tuple>>)
    requires slots < 0x10000 && upper < 0x10000 && Fits(rs)
    ensures Image(owner, next, slots, upper, rs)
         == Layout(Joined(Head(owner, next, slots, upper), Directory(rs)), PAGE_SIZE - SlotPos(|rs|) - Used(rs),
                   Payload(rs))
  {
    hide Head, Directory, Payload, Used, Zeros;
  }

  /** Adding a tombstone leaves the image as it is. */
  lemma ImageSkips(owner: PageId, next: Option<PageId>, slots: nat, upper: nat, rs: seq<Option<Tuple>>)
    requires slots < 0x10000 && upper < 0x10000 && Fits(rs + [None])
    ensures Fits(rs) && Used(rs + [None]) == Used(rs)
    ensures Image(owner, next, slots, upper, rs + [None]) == Image(owner, next, slots, upper, rs)
  {
    var q := rs + [None];
    assert q[..|rs|] == rs;
    assert Directory(q) == Directory(rs) + Zeros(4) && Payload(q) == [] + Payload(rs);
    hide Used, Directory, Payload, Head;
    var g := PAGE_SIZE - SlotPos(|rs|) - Used(rs);
    assert Zeros(g) == Zeros(4) + Zeros(g - 4);
  }

  /** Rewriting the two counters of the header. */
  lemma ImageUpper(owner: PageId, next: Option<PageId>, slots: nat, was: nat, upper: nat, rs: seq<Option<Tuple>>)
    requires slots < 0x10000 && was < 0x10000 && upper < 0x10000 && Fits(rs)
    ensures Splice(Image(owner, next, slots, was, rs), 22, Le16(upper)) == Image(owner, next, slots, upper, rs)
  {
    hide Used, Le16, Splice, Image, HeadStart, Tail;
    var rest := Tail(rs);
    var x := HeadStart(owner, next) + Le16(slots);
    ImageSplit(owner, next, slots, was, rs);
    ImageSplit(owner, next, slots, upper, rs);
    SpliceOver(x, Le16(was), rest, Le16(upper));
  }

  lemma ImageSlots(owner: PageId, next: Option<PageId>, was: nat, slots: nat, upper: nat, rs: seq<Option<Tuple>>)
    requires slots < 0x10000 && was < 0x10000 && upper < 0x10000 && Fits(rs)
    ensures Splice(Image(owner, next, was, upper, rs), 20, Le16(slots)) == Image(owner, next, slots, upper, rs)
  {
    hide Used, Le16, Splice, Image, HeadStart, Tail;
    var rest := Tail(rs);
    var x := HeadStart(owner, next);
    ImageSplit(owner, next, was, upper, rs);
    ImageSplit(owner, next, slots, upper, rs);
    Assoc(x + Le16(was), Le16(upper), rest);
    Assoc(x + Le16(slots), Le16(upper), rest);
    SpliceOver(x, Le16(was), Le16(upper) + rest, Le16(slots));
  }

  function HeadStart(owner: PageId, next: Option<PageId>): (b: seq<byte>)
    ensures |b| == 20
  {
    MAGIC() + Le32(owner) + Le32(if next.Some? then next.value else 0) + [if next.Some? then 1 else 0, 0, 0, 0]
  }

  lemma HeadSplit(owner: PageId, next: Option<PageId>, slots: nat, upper: nat)
    requires slots < 0x10000 && upper < 0x10000
    ensures Head(owner, next, slots, upper) == HeadStart(owner, next) + Le16(slots) + Le16(upper)
  {
  }

  lemma Regroup(h: seq<byte>, d: seq<byte>, z: seq<byte>, p: seq<byte>)
    ensures h + d + z + p == h + (d + z + p)
  {
    Assoc(h, d, z);
    Assoc(h, d + z, p);
  }

  /** The part of an image after its header. */
  function Tail(rs: seq<Option<Tuple>>): (b: seq<byte>)
    requires Fits(rs)
  {
    Directory(rs) + Zeros(PAGE_SIZE - SlotPos(|rs|) - Used(rs)) + Payload(rs)
  }

  lemma ImageSplit(owner: PageId, next: Option<PageId>, slots: nat, upper: nat, rs: seq<Option<Tuple>>)
    requires slots < 0x10000 && upper < 0x10000 && Fits(rs)
    ensures Image(owner, next, slots, upper, rs) == HeadStart(owner, next) + Le16(slots) + Le16(upper) + Tail(rs)
  {
    hide Used, Directory, Payload, Le16, Zeros, Image, Head, HeadStart;
    ImageIs(owner, next, slots, upper, rs);
    HeadSplit(owner, next, slots, upper);
    Regroup(Head(owner, next, slots, upper), Directory(rs), Zeros(PAGE_SIZE - SlotPos(|rs|) - Used(rs)), Payload(rs));
  }

  /** `compact` writes the canonical image of the page's records, with at most one slot changed. */
  method Compact(page: array<byte>, header: Header, change: Option<(nat, Option<Tuple>)>) returns (result: array<byte>)
    requires page.Length == PAGE_SIZE && WellFormed(page[..]) && header == HeaderOf(ViewOf(page[..]))
    requires change.Some? ==> change.value.0 < header.slots
    requires Fits(Changed(ViewOf(page[..]).records, change))
    ensures fresh(result) && result.Length == PAGE_SIZE
    ensures result[..] == Build(View(header.owner, header.next, Changed(ViewOf(page[..]).records, change)))
  {
    hide Image, Used, SlotOffset, SlotLength, SlotOk, SlotsApart, HeadOk, Splice, Head, Le16, Record;
    var p: Page := page[..];
    ghost var rs := Changed(ViewOf(p).records, change);
    var owner, next, slots := header.owner, header.next, header.slots;
    result := new byte[PAGE_SIZE](_ => 0);
    WriteHead(result, owner, next, slots);
    EmptyImage(owner, next, slots);
    var upper := PAGE_SIZE;
    assert rs[..0] == [];
    for k := 0 to slots
      invariant fresh(result) && page[..] == p && Fits(rs[..k])
      invariant upper == PAGE_SIZE - Used(rs[..k])
      invariant result[..] == Image(owner, next, slots, PAGE_SIZE, rs[..k])
    {
      FitsTake(rs, k);
      var tuple: Option<Tuple>;
      if change.Some? && change.value.0 == k {
        tuple := change.value.1;
      } else {
        tuple := ReadSlot(p, k);
      }
      assert rs[..k + 1] == rs[..k] + [tuple];
      upper := PlaceRecord(result, owner, next, slots, rs[..k], k, upper, tuple);
    }
    assert rs[..slots] == rs;
    ImageUpper(owner, next, slots, PAGE_SIZE, upper, rs);
    Put(result, 22, Le16(upper));
  }

  /** One round of the loop: a live record goes below the packed payload and gets its slot. */
  method PlaceRecord(result: array<byte>, ghost owner: PageId, ghost next: Option<PageId>, ghost slots: nat,
                     ghost rs: seq<Option<Tuple>>, k: nat, upper: nat, tuple: Option<Tuple>) returns (upper': nat)
    requires result.Length == PAGE_SIZE && slots < 0x10000 && k == |rs| && Fits(rs + [tuple]) && Fits(rs)
    requires Used(rs + [tuple]) == Used(rs) + Size(tuple)
    requires upper == PAGE_SIZE - Used(rs) && result[..] == Image(owner, next, slots, PAGE_SIZE, rs)
    modifies result
    ensures upper' == PAGE_SIZE - Used(rs + [tuple])
    ensures result[..] == Image(owner, next, slots, PAGE_SIZE, rs + [tuple])
  {
    hide Image, Used, Splice, Le16;
    upper' := upper;
    if tuple.Some? {
      upper' := upper - |tuple.value|;
      ImageGrows(owner, next, slots, PAGE_SIZE, rs, tuple.value);
      Put(result, upper', tuple.value);
      Put(result, SlotPos(k), Le16(upper') + Le16(|tuple.value|));
    } else {
      ImageSkips(owner, next, slots, PAGE_SIZE, rs);
    }
  }

  method ReadSlot(p: Page, k: nat) returns (r: Option<Tuple>)
    requires WellFormed(p) && k < SlotCount(p)
    ensures r == ViewOf(p).records[k]
  {
    assert SlotOk(p, k);
    r := Record(p, k);
  }

  lemma EmptyImage(owner: PageId, next: Option<PageId>, slots: nat)
    requires slots < 0x10000
    ensures Fits([]) && Used([]) == 0
    ensures Image(owner, next, slots, PAGE_SIZE, []) ==
              Head(owner, next, slots, PAGE_SIZE) + Zeros(PAGE_SIZE - HEADER_SIZE)
  {
  }

  // ---------- the operations ----------

  /** `insert`, in place: a refused or failed insertion leaves the page untouched. */
  method Insert(page: array<byte>, tuple: Tuple) returns (r: Result<Option<nat>, PageError>)
    requires page.Length == PAGE_SIZE
    modifies page
    ensures var spec := InsertPage(old(page[..]), tuple);
            match spec
            case Err(e) => r == Err(e) && page[..] == old(page[..])
            case Ok((q, id)) => r == Ok(id) && page[..] == q
  {
    hide WellFormed, ViewOf, Image, Used, Splice, Le16;
    if !TupleOk(tuple) { return Err(InvalidTupleSize); }
    var valid := Validate(page);
    if valid.Err? { return Err(valid.error); }
    var (header, used) := valid.value;
    ghost var v := ViewOf(page[..]);
    RecordsFit(page[..]);
    var slots := header.slots + 1;
    if SlotPos(slots) + used + |tuple| > PAGE_SIZE { return Ok(None); }
    var result := Compact(page, header, None);
    UsedAppend(v.records, Some(tuple));
    var upper := PAGE_SIZE - used - |tuple|;
    ghost var grown := v.records + [Some(tuple)];
    ImageGrows(header.owner, header.next, header.slots, PAGE_SIZE - used, v.records, tuple);
    Put(result, upper, tuple);
    Put(result, SlotPos(header.slots), Le16(upper) + Le16(|tuple|));
    ImageSlots(header.owner, header.next, header.slots, slots, PAGE_SIZE - used, grown);
    Put(result, 20, Le16(slots));
    ImageUpper(header.owner, header.next, slots, PAGE_SIZE - used, upper, grown);
    Put(result, 22, Le16(upper));
    Assign(page, result);
    return Ok(Some(slots));
  }

  method Delete(page: array<byte>, id: nat) returns (r: Result<bool, PageError>)
    requires page.Length == PAGE_SIZE && id >= 1
    modifies page
    ensures var spec := DeletePage(old(page[..]), id);
            match spec
            case Err(e) => r == Err(e) && page[..] == old(page[..])
            case Ok((q, done)) => r == Ok(done) && page[..] == q
  {
    hide WellFormed, ViewOf, Build, Used;
    var valid := Validate(page);
    if valid.Err? { return Err(valid.error); }
    var header := valid.value.0;
    if id > header.slots { return Ok(false); }
    var current := ReadSlot(page[..], id - 1);
    if current.None? { return Ok(false); }
    ChangeFits(page[..], id - 1, None);
    var result := Compact(page, header, Some((id - 1, None)));
    Assign(page, result);
    return Ok(true);
  }

  method Replace(page: array<byte>, id: nat, tuple: Tuple) returns (r: Result<bool, PageError>)
    requires page.Length == PAGE_SIZE && id >= 1
    modifies page
    ensures var spec := ReplacePage(old(page[..]), id, tuple);
            match spec
            case Err(e) => r == Err(e) && page[..] == old(page[..])
            case Ok((q, done)) => r == Ok(done) && page[..] == q
  {
    hide WellFormed, ViewOf, Build, Used;
    if !TupleOk(tuple) { return Err(InvalidTupleSize); }
    var valid := Validate(page);
    if valid.Err? { return Err(valid.error); }
    var (header, used) := valid.value;
    if id > header.slots { return Ok(false); }
    var current := ReadSlot(page[..], id - 1);
    if current.None? || SlotPos(header.slots) + used - |current.value| + |tuple| > PAGE_SIZE { return Ok(false); }
    ChangeFits(page[..], id - 1, Some(tuple));
    var result := Compact(page, header, Some((id - 1, Some(tuple))));
    Assign(page, result);
    return Ok(true);
  }

  lemma LinkAssembled(p: Page, next: Option<PageId>)
    ensures var n: PageId := if next.Some? then next.value else 0;
            Splice(Splice(p, 12, Le32(n)), 16, [if next.Some? then 1 else 0]) == Linked(p, next)
  {
    hide Le32;
    var n: PageId := if next.Some? then next.value else 0;
    var s1 := Splice(p, 12, Le32(n));
    assert s1[..16] == p[..12] + Le32(n) && s1[17..] == p[17..];
  }

  method SetNext(page: array<byte>, next: Option<PageId>) returns (r: Result<(), PageError>)
    requires page.Length == PAGE_SIZE
    modifies page
    ensures var spec := SetNextPage(old(page[..]), next);
            match spec
            case Err(e) => r == Err(e) && page[..] == old(page[..])
            case Ok(q) => r == Ok(()) && page[..] == q
  {
    var valid := Validate(page);
    if valid.Err? { return Err(valid.error); }
    ghost var p := page[..];
    var n: PageId := if next.Some? then next.value else 0;
    Put(page, 12, Le32(n));
    Put(page, 16, [if next.Some? then 1 else 0]);
    LinkAssembled(p, next);
    return Ok(());
  }
}
