/** Second-chance replacement of crates/storage/src/replacement.rs. */
module Clock {
  import opened Options

  /** Frame number j in cyclic order from the hand. */
  function At(hand: nat, n: nat, j: nat): (i: nat)
    requires hand < n && j <= n
    ensures i < n
  {
    if hand + j < n then hand + j else hand + j - n
  }

  /** Whether the eligibility callback accepts the j-th frame of a sweep; the answer may change
      between queries because pins are dropped concurrently. */
  predicate Eligible(canEvict: (nat, nat) -> bool, hand: nat, n: nat, base: nat, j: nat)
    requires hand < n && j < n
  {
    canEvict(At(hand, n, j), base + j)
  }

  /** A frame the sweep passes loses its reference bit if it was eligible, and was not an
      eligible unreferenced frame. */
  predicate Passed(before: seq<bool>, after: seq<bool>, hand: nat, canEvict: (nat, nat) -> bool, base: nat, j: nat)
    requires hand < |before| && |after| == |before| && j < |before|
  {
    var i, e := At(hand, |before|, j), Eligible(canEvict, hand, |before|, base, j);
    (e ==> before[i]) && after[i] == (before[i] && !e)
  }

  predicate Untouched(before: seq<bool>, after: seq<bool>, hand: nat, j: nat)
    requires hand < |before| && |after| == |before| && j < |before|
  {
    after[At(hand, |before|, j)] == before[At(hand, |before|, j)]
  }

  /** A sweep that stops at its first eligible unreferenced frame, or passes all frames. */
  predicate Sweep(before: seq<bool>, after: seq<bool>, hand: nat, canEvict: (nat, nat) -> bool, base: nat,
                  found: Option<nat>) {
    && hand < |before| && |after| == |before|
    && match found
       case None => forall j | 0 <= j < |before| :: Passed(before, after, hand, canEvict, base, j)
       case Some(k) =>
         && k < |before| && Eligible(canEvict, hand, |before|, base, k) && !before[At(hand, |before|, k)]
         && (forall j | 0 <= j < k :: Passed(before, after, hand, canEvict, base, j))
         && forall j | k <= j < |before| :: Untouched(before, after, hand, j)
  }

  class ClockStrategy {
    var referenced: array<bool>
    var hand: nat

    ghost predicate Valid()
      reads this
    {
      referenced.Length > 0 ==> hand < referenced.Length
    }

    constructor (capacity: nat)
      ensures Valid() && fresh(referenced) && referenced.Length == capacity && hand == 0
      ensures forall i | 0 <= i < capacity :: !referenced[i]
    {
      referenced := new bool[capacity](_ => false);
      hand := 0;
    }

    method Access(buffer: nat)
      requires Valid() && buffer < referenced.Length
      modifies referenced
      ensures Valid() && referenced[..] == old(referenced[..])[buffer := true]
    {
      referenced[buffer] := true;
    }

    /** At most two sweeps from the hand. `first` and `second` are the sweeps' outcomes and
        `mid` the bits between them. */
    method Victim(canEvict: (nat, nat) -> bool)
      returns (r: Option<nat>, ghost first: Option<nat>, ghost mid: seq<bool>, ghost second: Option<nat>)
      requires Valid()
      modifies this`hand, referenced
      ensures Valid()
      ensures referenced.Length == 0 ==> r == None && hand == old(hand)
      ensures referenced.Length > 0 ==>
                var n := referenced.Length;
                && Sweep(old(referenced[..]), mid, old(hand), canEvict, 0, first)
                && match first
                   case Some(k) => referenced[..] == mid && r == Some(At(old(hand), n, k)) &&
                       hand == At(old(hand), n, k + 1)
                   case None =>
                     && Sweep(mid, referenced[..], old(hand), canEvict, n, second)
                     && match second
                        case Some(k) => r == Some(At(old(hand), n, k)) && hand == At(old(hand), n, k + 1)
                        case None => r == None && hand == old(hand)
    {
      second := None;
      r, first := SweepOnce(canEvict, 0);
      mid := referenced[..];
      if r.Some? || referenced.Length == 0 { return; }
      r, second := SweepOnce(canEvict, referenced.Length);
    }

    /** The inner loop, whose first query has number `base`. */
    method SweepOnce(canEvict: (nat, nat) -> bool, base: nat) returns (r: Option<nat>, ghost found: Option<nat>)
      requires Valid()
      modifies this`hand, referenced
      ensures Valid()
      ensures referenced.Length == 0 ==> r == None && hand == old(hand)
      ensures referenced.Length > 0 ==>
                && Sweep(old(referenced[..]), referenced[..], old(hand), canEvict, base, found)
                && match found
                   case Some(k) => r == Some(At(old(hand), referenced.Length, k)) &&
                       hand == At(old(hand), referenced.Length, k + 1)
                   case None => r == None && hand == old(hand)
    {
      var n := referenced.Length;
      ghost var bits, start := referenced[..], hand;
      for j := 0 to n
        invariant Valid() && hand == (if n > 0 then At(start, n, j) else start)
        invariant forall l | 0 <= l < j :: Passed(bits, referenced[..], start, canEvict, base, l)
        invariant forall l | j <= l < n :: Untouched(bits, referenced[..], start, l)
      {
        var index := hand;
        NextHand(hand, n);
        hand := (hand + 1) % n;
        ghost var now := referenced[..];
        assert Untouched(bits, now, start, j);
        if canEvict(index, base + j) {
          if !referenced[index] { return Some(index), Some(j); }
          referenced[index] := false;
          Distinct(start, n, j);
          forall l | 0 <= l < j ensures Passed(bits, referenced[..], start, canEvict, base, l) {
            assert Passed(bits, now, start, canEvict, base, l);
          }
          forall l | j < l < n ensures Untouched(bits, referenced[..], start, l) {
            assert Untouched(bits, now, start, l);
          }
        }
      }
      return None, None;
    }
  }

  lemma NextHand(hand: nat, n: nat)
    requires hand < n
    ensures (hand + 1) % n == if hand + 1 < n then hand + 1 else 0
  {
    if hand + 1 < n { SmallMod(hand + 1, n); }
  }

  lemma SmallMod(x: nat, n: nat)
    requires x < n
    ensures x % n == x
  {
  }

  lemma Distinct(hand: nat, n: nat, j: nat)
    requires hand < n && j < n
    ensures forall l | 0 <= l < n && l != j :: At(hand, n, l) != At(hand, n, j)
  {
  }

  /** Every frame is visited once per sweep. */
  lemma Visited(hand: nat, n: nat, i: nat) returns (j: nat)
    requires hand < n && i < n
    ensures j < n && At(hand, n, j) == i
  {
    j := if i >= hand then i - hand else i - hand + n;
  }

  /** Two sweeps that find nothing, while eligibility could only grow: then no frame was
      eligible when the call began. */
  lemma NoneMeansNoneEligible(before: seq<bool>, mid: seq<bool>, after: seq<bool>, hand: nat,
                              canEvict: (nat, nat) -> bool)
    requires Sweep(before, mid, hand, canEvict, 0, None) && Sweep(mid, after, hand, canEvict, |before|, None)
    requires forall i: nat, s: nat, t: nat | s <= t && canEvict(i, s) :: canEvict(i, t)
    ensures forall i: nat | i < |before| :: !canEvict(i, 0)
  {
    forall i: nat | i < |before| ensures !canEvict(i, 0) {
      var j := Visited(hand, |before|, i);
      assert Passed(before, mid, hand, canEvict, 0, j) && Passed(mid, after, hand, canEvict, |before|, j);
    }
  }

  /** With fixed eligibility, the victim is the first eligible unreferenced frame from the
      hand, and the eligible frames before it lose their bits; failing that it is the first
      eligible frame, and all eligible bits are clear; failing that nothing changes. */
  lemma SecondChance(before: seq<bool>, mid: seq<bool>, after: seq<bool>, hand: nat, elig: nat -> bool,
                     canEvict: (nat, nat) -> bool,
                     first: Option<nat>, second: Option<nat>)
    requires forall i: nat, t: nat :: canEvict(i, t) == elig(i)
    requires Sweep(before, mid, hand, canEvict, 0, first)
    requires first == None ==> Sweep(mid, after, hand, canEvict, |before|, second)
    requires first != None ==> after == mid
    ensures first.Some? <==> exists i: nat | i < |before| :: elig(i) && !before[i]
    ensures first.Some? ==>
              var k := first.value;
              && elig(At(hand, |before|, k)) && !before[At(hand, |before|, k)]
              && (forall j | 0 <= j < k ::
                    var i := At(hand, |before|, j);
                    (elig(i) ==> before[i]) && after[i] == (before[i] && !elig(i)))
              && (forall j | k <= j < |before| :: after[At(hand, |before|, j)] == before[At(hand, |before|, j)])
    ensures first.None? ==> (second.Some? <==> exists i: nat | i < |before| :: elig(i))
    ensures first.None? && second.Some? ==>
              var k := second.value;
              elig(At(hand, |before|, k)) && forall j | 0 <= j < k :: !elig(At(hand, |before|, j))
    ensures first.None? ==> forall i: nat | i < |before| :: after[i] == (before[i] && !elig(i))
    ensures first.None? && second.None? ==> after == before
  {
    var n := |before|;
    forall i: nat | i < n && elig(i) ensures first.None? ==> before[i] {
      var j := Visited(hand, n, i);
      if first.None? { assert Passed(before, mid, hand, canEvict, 0, j); }
    }
    if first.Some? {
      forall j | 0 <= j < first.value
        ensures var i := At(hand, n, j); (elig(i) ==> before[i]) && after[i] == (before[i] && !elig(i))
      {
        assert Passed(before, mid, hand, canEvict, 0, j);
      }
      forall j | first.value <= j < n ensures after[At(hand, n, j)] == before[At(hand, n, j)] {
        assert Untouched(before, mid, hand, j);
      }
    } else {
      SecondSweep(before, mid, after, hand, elig, canEvict, second);
    }
  }

  lemma SecondSweep(before: seq<bool>, mid: seq<bool>, after: seq<bool>, hand: nat, elig: nat -> bool,
                    canEvict: (nat, nat) -> bool,
                    second: Option<nat>)
    requires forall i: nat, t: nat :: canEvict(i, t) == elig(i)
    requires Sweep(before, mid, hand, canEvict, 0, None) && Sweep(mid, after, hand, canEvict, |before|, second)
    ensures second.Some? <==> exists i: nat | i < |before| :: elig(i)
    ensures second.Some? ==>
              elig(At(hand, |before|, second.value)) && forall j | 0 <= j < second.value :: !elig(At(hand, |before|, j))
    ensures forall i: nat | i < |before| :: after[i] == (before[i] && !elig(i))
    ensures second.None? ==> after == before
  {
    var n := |before|;
    forall i: nat | i < n
      ensures after[i] == (before[i] && !elig(i))
      ensures elig(i) ==> second.Some?
    {
      var j := Visited(hand, n, i);
      assert Passed(before, mid, hand, canEvict, 0, j);
      if second.None? || j < second.value {
        assert Passed(mid, after, hand, canEvict, n, j);
      } else {
        assert Untouched(mid, after, hand, j);
      }
    }
    if second.Some? {
      forall j | 0 <= j < second.value ensures !elig(At(hand, n, j)) {
        assert Passed(before, mid, hand, canEvict, 0, j) && Passed(mid, after, hand, canEvict, n, j);
      }
    }
  }
}
