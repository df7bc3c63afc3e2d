/** Slot and duration arithmetic, with Go's 64-bit widths written out. */
module Slots {
  import opened Common

  const SECOND: nat := 1_000_000_000

  /** The whole seconds in the largest `time.Duration`, an int64 of nanoseconds. */
  const MAX_SECONDS: nat := 9_223_372_036

  lemma {:induction false} DivisionBound(a: nat, b: nat, limit: nat)
    requires a > 0
    ensures b > limit / a <==> a * b > limit
  {
    var q := limit / a;
    assert a * q <= limit < a * (q + 1);
    if b > q {
      ScaledOrder(q + 1, b, a);
    } else {
      ScaledOrder(b, q, a);
    }
  }

  /** The product, or nothing when it does not fit. */
  function Multiply(left: U64, right: U64): (r: Option<U64>)
    ensures r == if left * right <= MAX_UINT64 then Some(left * right) else None
  {
    if left != 0 then DivisionBound(left, right, MAX_UINT64);
      if right > MAX_UINT64 / left then None else Some(left * right)
    else Some(0)
  }

  /** A sum or product that the source does not guard. */
  function Wrap(n: nat): U64 {
    n % (MAX_UINT64 + 1)
  }

  /** A duration in nanoseconds, or an error when it does not fit `time.Duration`. */
  function RuntimeDuration(secondsPerSlot: U64, slots: U64): (r: Result<nat>)
    ensures r.Ok? <==> secondsPerSlot * slots <= MAX_SECONDS
    ensures r.Ok? ==> r.value == secondsPerSlot * slots * SECOND
  {
    var seconds := Multiply(secondsPerSlot, slots);
    if seconds.None? || seconds.value > MAX_SECONDS then Err else Ok(seconds.value * SECOND)
  }

  /** When slot `slot` begins, in seconds. */
  function SlotStart(genesisTime: U64, genesisSlot: U64, secondsPerSlot: U64, slot: nat): int {
    genesisTime + (slot - genesisSlot) * secondsPerSlot
  }

  function CurrentSlotAt(unixSeconds: int, genesisTime: U64, secondsPerSlot: U64, genesisSlot: U64): Result<U64> {
    if secondsPerSlot == 0 then Err
    else if unixSeconds < 0 || unixSeconds < genesisTime then Err
    else
      var slotsSinceGenesis := (unixSeconds - genesisTime) / secondsPerSlot;
      if slotsSinceGenesis > MAX_UINT64 - genesisSlot then Err else Ok(genesisSlot + slotsSinceGenesis)
  }

  lemma {:induction false} SlotContains(elapsed: nat, secondsPerSlot: nat, last: nat)
    requires secondsPerSlot > 0
    ensures var k := elapsed / secondsPerSlot; k * secondsPerSlot <= elapsed < (k + 1) * secondsPerSlot
    ensures elapsed / secondsPerSlot > last <==> elapsed >= (last + 1) * secondsPerSlot
  {
  }

  /** The current slot is the slot that contains the time, and there is one exactly when slots have a
      length and the time lies between genesis and the end of the last numbered slot. */
  lemma {:induction false} CurrentSlotContains(t: int, genesisTime: U64, secondsPerSlot: U64, genesisSlot: U64)
    ensures var r := CurrentSlotAt(t, genesisTime, secondsPerSlot, genesisSlot);
            && (r.Ok? <==>
                  && secondsPerSlot > 0 && genesisTime <= t
                  && t < SlotStart(genesisTime, genesisSlot, secondsPerSlot, MAX_UINT64 + 1))
            && (r.Ok? ==>
                  && r.value >= genesisSlot
                  && SlotStart(genesisTime, genesisSlot, secondsPerSlot, r.value) <= t
                  && t < SlotStart(genesisTime, genesisSlot, secondsPerSlot, r.value + 1))
  {
    if secondsPerSlot > 0 && genesisTime <= t {
      SlotContains(t - genesisTime, secondsPerSlot, MAX_UINT64 - genesisSlot);
      var r := CurrentSlotAt(t, genesisTime, secondsPerSlot, genesisSlot);
      if r.Ok? {
        var k := (t - genesisTime) / secondsPerSlot;
        assert r.value - genesisSlot == k && r.value + 1 - genesisSlot == k + 1;
      }
    }
  }

  /** Later observations never fall into an earlier slot. */
  lemma {:induction false} SlotsFollowTime(t: int, u: int, genesisTime: U64, secondsPerSlot: U64, genesisSlot: U64)
    requires t <= u
    requires CurrentSlotAt(t, genesisTime, secondsPerSlot, genesisSlot).Ok?
    requires CurrentSlotAt(u, genesisTime, secondsPerSlot, genesisSlot).Ok?
    ensures CurrentSlotAt(t, genesisTime, secondsPerSlot, genesisSlot).value <=
              CurrentSlotAt(u, genesisTime, secondsPerSlot, genesisSlot).value
  {
    QuotientOrder(t - genesisTime, u - genesisTime, secondsPerSlot);
  }

  lemma {:induction false} QuotientOrder(a: nat, b: nat, k: nat)
    requires a <= b && k > 0
    ensures a / k <= b / k
  {
    var q := b / k;
    var next := (q + 1) * k;
    assert b < next by { SlotContains(b, k, q); }
    assert a / k > q <==> a >= next by { SlotContains(a, k, q); }
  }

  /** The slots between the current slot and the start of the finalized epoch. */
  function FinalityLag(currentSlot: U64, finalizedEpoch: U64, slotsPerEpoch: U64): (r: Result<U64>)
    ensures r.Ok? <==> slotsPerEpoch > 0 && finalizedEpoch * slotsPerEpoch <= currentSlot
    ensures r.Ok? ==> finalizedEpoch * slotsPerEpoch + r.value == currentSlot
  {
    if slotsPerEpoch == 0 then Err else
      DivisionBound(slotsPerEpoch, finalizedEpoch, MAX_UINT64);
      if finalizedEpoch > MAX_UINT64 / slotsPerEpoch then Err
      else if currentSlot < finalizedEpoch * slotsPerEpoch then Err
      else Ok(currentSlot - finalizedEpoch * slotsPerEpoch)
  }

  // ---------- The deadman ----------

  /** The time to live of the injected fault, computed before `Apply`. */
  function DeadmanTTL(durationEpochs: U64, slotsPerEpoch: U64, secondsPerSlot: U64): Result<nat> {
    var slots := Multiply(Wrap(durationEpochs + 2), slotsPerEpoch);
    if slots.None? then Err else RuntimeDuration(secondsPerSlot, slots.value)
  }

  /** The value `validateRunMetadata` expects to find stored. */
  function ExpectedDeadmanSeconds(durationEpochs: U64, slotsPerEpoch: U64, secondsPerSlot: U64): Option<U64> {
    var slots := Multiply(Wrap(durationEpochs + 2), slotsPerEpoch);
    if slots.None? then None else Multiply(slots.value, secondsPerSlot)
  }

  /** Every accepted time to live is stored as the value the metadata validator recomputes. */
  lemma {:induction false} StoredDeadmanIsExpected(durationEpochs: U64, slotsPerEpoch: U64, secondsPerSlot: U64)
    requires DeadmanTTL(durationEpochs, slotsPerEpoch, secondsPerSlot).Ok?
    ensures ExpectedDeadmanSeconds(durationEpochs, slotsPerEpoch, secondsPerSlot) ==
              Some(DeadmanTTL(durationEpochs, slotsPerEpoch, secondsPerSlot).value / SECOND)
  {
  }

  /** The fault that starts no earlier than the slot before the boundary does not expire before the
      end slot is over; the spare time is two epochs less two slots. */
  lemma {:induction false} DeadmanCoversWindow(
    durationEpochs: U64, slotsPerEpoch: U64, secondsPerSlot: U64,
    genesisTime: U64, genesisSlot: U64, preBoundary: U64, applied: int)
    requires durationEpochs <= MAX_UINT64 - 2 && slotsPerEpoch > 0
    requires DeadmanTTL(durationEpochs, slotsPerEpoch, secondsPerSlot).Ok?
    requires CurrentSlotAt(applied, genesisTime, secondsPerSlot, genesisSlot).Ok?
    requires CurrentSlotAt(applied, genesisTime, secondsPerSlot, genesisSlot).value >= preBoundary
    ensures var ttl := DeadmanTTL(durationEpochs, slotsPerEpoch, secondsPerSlot).value;
            var endSlot := preBoundary + 1 + durationEpochs * slotsPerEpoch;
            && ttl % SECOND == 0
            && applied + ttl / SECOND >=
                 SlotStart(genesisTime, genesisSlot, secondsPerSlot, endSlot + 1)
                 + (2 * slotsPerEpoch - 2) * secondsPerSlot
            && applied + ttl / SECOND >= SlotStart(genesisTime, genesisSlot, secondsPerSlot, endSlot + 1)
  {
    CurrentSlotContains(applied, genesisTime, secondsPerSlot, genesisSlot);
    var now := CurrentSlotAt(applied, genesisTime, secondsPerSlot, genesisSlot).value;
    var ttl := DeadmanTTL(durationEpochs, slotsPerEpoch, secondsPerSlot).value;
    var ttlSlots := (durationEpochs + 2) * slotsPerEpoch;
    var endSlot := preBoundary + 1 + durationEpochs * slotsPerEpoch;
    assert ttl == secondsPerSlot * ttlSlots * SECOND;
    assert ttl / SECOND == secondsPerSlot * ttlSlots == ttlSlots * secondsPerSlot;
    ScaledSum(now - genesisSlot, ttlSlots, secondsPerSlot);
    assert ttlSlots == durationEpochs * slotsPerEpoch + 2 * slotsPerEpoch;
    assert now - genesisSlot + ttlSlots >= (endSlot + 1 - genesisSlot) + (2 * slotsPerEpoch - 2);
    ScaledOrder((endSlot + 1 - genesisSlot) + (2 * slotsPerEpoch - 2), now - genesisSlot + ttlSlots, secondsPerSlot);
    ScaledSum(endSlot + 1 - genesisSlot, 2 * slotsPerEpoch - 2, secondsPerSlot);
    ScaledOrder(0, 2 * slotsPerEpoch - 2, secondsPerSlot);
  }

  lemma {:induction false} ScaledSum(a: int, b: int, k: int)
    ensures (a + b) * k == a * k + b * k
  {
  }

  lemma {:induction false} ScaledOrder(a: int, b: int, k: nat)
    requires a <= b
    ensures a * k <= b * k
  {
  }

  /** For the scenario's three fault and four recovery epochs, an accepted time to live means that no
      later duration can be refused and that no unguarded sum or product wraps. */
  lemma {:induction false} DeadmanBoundsTheRest(slotsPerEpoch: U64, secondsPerSlot: U64)
    requires DeadmanTTL(3, slotsPerEpoch, secondsPerSlot).Ok?
    ensures Wrap(2 * slotsPerEpoch) == 2 * slotsPerEpoch && RuntimeDuration(secondsPerSlot, Wrap(2 * slotsPerEpoch)).Ok?
    ensures Multiply(3, slotsPerEpoch).Some? && Wrap(3 * slotsPerEpoch + slotsPerEpoch) == 4 * slotsPerEpoch
    ensures RuntimeDuration(secondsPerSlot, Wrap(3 * slotsPerEpoch + slotsPerEpoch)).Ok?
    ensures Multiply(4, slotsPerEpoch).Some? && Wrap(4 * slotsPerEpoch + slotsPerEpoch) == 5 * slotsPerEpoch
    ensures RuntimeDuration(secondsPerSlot, Wrap(4 * slotsPerEpoch + slotsPerEpoch)).Ok?
  {
  }

  /** With a positive slot length no unguarded operation can mislead a run: once the boundary timeout and
      the window length have been accepted, the doubling was exact and the later sum is exact too. */
  lemma {:induction false} UnguardedSumsExact(slotsPerEpoch: U64, secondsPerSlot: U64)
    requires secondsPerSlot > 0 && RuntimeDuration(secondsPerSlot, Wrap(2 * slotsPerEpoch)).Ok?
    requires Multiply(3, slotsPerEpoch).Some?
    ensures Wrap(2 * slotsPerEpoch) == 2 * slotsPerEpoch
    ensures Wrap(3 * slotsPerEpoch + slotsPerEpoch) == 4 * slotsPerEpoch
  {
  }

  /** The durations of a run of three and four epochs are accepted exactly when five epochs of the fault, or
      four epochs of a control run, fit a duration. */
  lemma {:induction false} DurationsAccepted(slotsPerEpoch: U64, secondsPerSlot: U64)
    requires slotsPerEpoch > 0 && secondsPerSlot > 0
    ensures DeadmanTTL(3, slotsPerEpoch, secondsPerSlot).Ok? <==> 5 * slotsPerEpoch * secondsPerSlot <= MAX_SECONDS
    ensures DeadmanTTL(3, slotsPerEpoch, secondsPerSlot).Ok? ==>
              DeadmanTTL(3, slotsPerEpoch, secondsPerSlot).value == 5 * slotsPerEpoch * secondsPerSlot * SECOND
    ensures 4 * slotsPerEpoch * secondsPerSlot <= MAX_SECONDS <==>
              && RuntimeDuration(secondsPerSlot, Wrap(2 * slotsPerEpoch)).Ok? && Multiply(3, slotsPerEpoch).Some?
              && RuntimeDuration(secondsPerSlot, Wrap(3 * slotsPerEpoch + slotsPerEpoch)).Ok?
  {
    var e, d := slotsPerEpoch, secondsPerSlot;
    Associates(e, d, 2);
    Associates(e, d, 4);
    Associates(e, d, 5);
    ScaledOrder(1, d, e);
  }

  lemma {:induction false} Associates(a: nat, b: nat, k: nat)
    ensures b * (k * a) == k * a * b == k * (a * b)
  {
  }

  /** The boundary timeout alone does not notice: a doubling that wraps can look like no time at all, and
      only the later product refuses the epoch length. */
  lemma {:induction false} DoublingWraps()
    ensures var e: U64 := 0x8000_0000_0000_0000;
            RuntimeDuration(12, Wrap(2 * e)) == Ok(0) && Multiply(3, e).None?
  {
  }
}
