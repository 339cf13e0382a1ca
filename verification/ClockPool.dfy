/** CLOCK as the policy of a buffer pool. */
module ClockPool {
  import opened Options
  import opened BufferPools
  import Clock

  /** CLOCK, asked about the pins of a pool, names a frame without pins exactly when there is
      one. A pool that uses it is therefore never given an invalid victim, and is told that all
      frames are pinned only when they are. */
  method AskClock(clock: Clock.ClockStrategy, f: Frames) returns (r: Option<nat>)
    requires clock.Valid() && clock.referenced.Length == |f.pins|
    modifies clock`hand, clock.referenced
    ensures clock.Valid() && Honest(f, r)
  {
    var pins := f.pins;
    var canEvict := (i: nat, query: nat) => i < |pins| && pins[i] == 0;
    ghost var before, hand := clock.referenced[..], clock.hand;
    ghost var first, mid, second;
    r, first, mid, second := clock.Victim(canEvict);
    if r.None? && |pins| > 0 {
      Clock.NoneMeansNoneEligible(before, mid, clock.referenced[..], hand, canEvict);
      forall i | 0 <= i < |pins| ensures pins[i] > 0 { assert !canEvict(i, 0); }
    }
  }
}
