/** The scans over a run's recorded observations. */
module Measurement {
  import opened Common
  import opened Recorder

  // ---------- The latest observation ----------

  predicate Matches(o: BeaconObservation, target: Name, slot: int) {
    o.target == target && o.currentSlot == slot
  }

  /** The latest observation of a target in a slot; the first recorded of those with one timestamp. */
  function AtSlot(observations: seq<BeaconObservation>, target: Name, slot: int): Option<BeaconObservation> {
    if observations == [] then None else
    var before := AtSlot(observations[..|observations| - 1], target, slot);
    var o := observations[|observations| - 1];
    if Matches(o, target, slot) && (before.None? || o.timestamp > before.value.timestamp) then Some(o) else before
  }

  lemma {:induction false} AtSlotIsLatest(observations: seq<BeaconObservation>, target: Name, slot: int)
    ensures var r := AtSlot(observations, target, slot);
            && (r.Some? <==> exists o :: o in observations && Matches(o, target, slot))
            && (r.Some? ==>
                  && r.value in observations && Matches(r.value, target, slot)
                  && forall o :: o in observations && Matches(o, target, slot) ==> o.timestamp <= r.value.timestamp)
  {
    if observations != [] {
      AtSlotIsLatest(observations[..|observations| - 1], target, slot);
    }
  }

  method ObservationAtSlot(observations: seq<BeaconObservation>, target: Name, slot: int)
    returns (r: Option<BeaconObservation>)
    ensures r == AtSlot(observations, target, slot)
  {
    r := None;
    for n := 0 to |observations|
      invariant r == AtSlot(observations[..n], target, slot)
    {
      assert observations[..n + 1][..n] == observations[..n];
      var o := observations[n];
      if o.target == target && o.currentSlot == slot {
        if r.None? || o.timestamp > r.value.timestamp {
          r := Some(o);
        }
      }
    }
    assert observations[..|observations|] == observations;
  }

  /** The latest observation of every target that has one. */
  function Latest(observations: seq<BeaconObservation>): map<Name, BeaconObservation> {
    if observations == [] then map[] else
    var before := Latest(observations[..|observations| - 1]);
    var o := observations[|observations| - 1];
    if o.target !in before || o.timestamp > before[o.target].timestamp then before[o.target := o] else before
  }

  lemma {:induction false} LatestIsLatest(observations: seq<BeaconObservation>)
    ensures forall t :: t in Latest(observations) ==>
              Latest(observations)[t] in observations && Latest(observations)[t].target == t
    ensures forall o :: o in observations ==>
              o.target in Latest(observations) && o.timestamp <= Latest(observations)[o.target].timestamp
  {
    if observations != [] {
      LatestIsLatest(observations[..|observations| - 1]);
    }
  }

  method LatestByTarget(observations: seq<BeaconObservation>) returns (latest: map<Name, BeaconObservation>)
    ensures latest == Latest(observations)
  {
    latest := map[];
    for n := 0 to |observations|
      invariant latest == Latest(observations[..n])
    {
      assert observations[..n + 1][..n] == observations[..n];
      var o := observations[n];
      if o.target !in latest || o.timestamp > latest[o.target].timestamp {
        latest := latest[o.target := o];
      }
    }
    assert observations[..|observations|] == observations;
  }

  // ---------- What the waits look for ----------

  /** Every target was observed in the slot. */
  ghost predicate SlotComplete(observations: seq<BeaconObservation>, targets: seq<Name>, slot: int) {
    forall t :: t in targets ==> AtSlot(observations, t, slot).Some?
  }

  /** The condition of the wait for an exact slot. */
  method ExactSlotObserved(observations: seq<BeaconObservation>, targets: seq<Name>, slot: U64) returns (all: bool)
    ensures all <==> SlotComplete(observations, targets, slot)
  {
    for n := 0 to |targets|
      invariant forall i :: 0 <= i < n ==> AtSlot(observations, targets[i], slot).Some?
    {
      var o := ObservationAtSlot(observations, targets[n], slot);
      if o.None? {
        return false;
      }
    }
    all := true;
  }

  /** A target without an observation counts as being in slot zero. */
  function LatestSlot(latest: map<Name, BeaconObservation>, t: Name): U64 {
    if t in latest then latest[t].currentSlot else 0
  }

  /** The slot that all targets' latest observations share. */
  function CommonSlot(observations: seq<BeaconObservation>, targets: seq<Name>): Option<U64>
    requires targets != []
  {
    var latest := Latest(observations);
    if |latest| == |targets| && forall t :: t in targets ==> LatestSlot(latest, t) == LatestSlot(latest, targets[0])
    then Some(LatestSlot(latest, targets[0])) else None
  }

  method CommonLatestSlot(observations: seq<BeaconObservation>, targets: seq<Name>) returns (slot: Option<U64>)
    requires targets != []
    ensures slot == CommonSlot(observations, targets)
  {
    var latest := LatestByTarget(observations);
    if |latest| != |targets| {
      return None;
    }
    for n := 1 to |targets|
      invariant forall i :: 0 <= i < n ==> LatestSlot(latest, targets[i]) == LatestSlot(latest, targets[0])
    {
      if LatestSlot(latest, targets[n]) != LatestSlot(latest, targets[0]) {
        assert targets[n] in targets;
        return None;
      }
    }
    slot := Some(LatestSlot(latest, targets[0]));
  }

  /** When only the targets are observed, all of them were observed in their common slot. */
  lemma {:induction false} CommonSlotIsComplete(observations: seq<BeaconObservation>, targets: seq<Name>)
    requires targets != [] && Distinct(targets) && CommonSlot(observations, targets).Some?
    requires forall o :: o in observations ==> o.target in targets
    ensures SlotComplete(observations, targets, CommonSlot(observations, targets).value)
  {
    var latest, slot := Latest(observations), CommonSlot(observations, targets).value;
    LatestIsLatest(observations);
    DistinctSize(targets);
    assert latest.Keys <= Elements(targets) && |latest.Keys| == |latest|;
    assert Elements(targets) == latest.Keys + (Elements(targets) - latest.Keys);
    forall t | t in targets ensures AtSlot(observations, t, slot).Some? {
      assert t in Elements(targets);
      assert latest[t] in observations && Matches(latest[t], t, slot);
      AtSlotIsLatest(observations, t, slot);
    }
  }

  /** Some target's latest observation is past the slot. */
  ghost predicate Exceeds(observations: seq<BeaconObservation>, targets: seq<Name>, maximum: U64) {
    exists t :: t in targets && t in Latest(observations) && Latest(observations)[t].currentSlot > maximum
  }

  method LatestSlotExceeds(observations: seq<BeaconObservation>, targets: seq<Name>, maximum: U64)
    returns (exceeds: bool)
    ensures exceeds <==> Exceeds(observations, targets, maximum)
  {
    var latest := LatestByTarget(observations);
    for n := 0 to |targets|
      invariant forall i :: 0 <= i < n ==> targets[i] !in latest || latest[targets[i]].currentSlot <= maximum
    {
      if targets[n] in latest && latest[targets[n]].currentSlot > maximum {
        return true;
      }
    }
    exceeds := false;
  }

  /** A target's later observations are of no earlier slot. */
  ghost predicate SlotsRespectTime(observations: seq<BeaconObservation>, target: Name) {
    forall o, p ::
      o in observations && p in observations && o.target == p.target == target && o.timestamp <= p.timestamp ==>
      o.currentSlot <= p.currentSlot
  }

  /** When no latest observation is past the slot, no observation of the targets is. */
  lemma {:induction false} NothingBeyond(observations: seq<BeaconObservation>, targets: seq<Name>, maximum: U64)
    requires forall t :: t in targets ==> SlotsRespectTime(observations, t)
    ensures !Exceeds(observations, targets, maximum) <==>
              forall o :: o in observations && o.target in targets ==> o.currentSlot <= maximum
  {
    LatestIsLatest(observations);
    var latest := Latest(observations);
    if !Exceeds(observations, targets, maximum) {
      forall o | o in observations && o.target in targets ensures o.currentSlot <= maximum {
        assert SlotsRespectTime(observations, o.target);
        assert latest[o.target] in observations && o.currentSlot <= latest[o.target].currentSlot;
      }
    }
  }

  /** The greatest slot among the latest observations, but at least `low`. */
  ghost predicate IsHighest(latest: map<Name, BeaconObservation>, low: U64, r: U64) {
    && low <= r && (forall t :: t in latest ==> latest[t].currentSlot <= r)
    && (r == low || exists t :: t in latest && latest[t].currentSlot == r)
  }

  /** The map is ranged over in any order. */
  method HighestSlot(latest: map<Name, BeaconObservation>, low: U64) returns (r: U64)
    ensures IsHighest(latest, low, r)
  {
    r := low;
    var rest := latest.Keys;
    while rest != {}
      invariant rest <= latest.Keys && low <= r
      invariant forall t :: t in latest.Keys - rest ==> latest[t].currentSlot <= r
      invariant r == low || exists t :: t in latest && latest[t].currentSlot == r
    {
      var t :| t in rest;
      rest := rest - {t};
      if latest[t].currentSlot > r {
        r := latest[t].currentSlot;
      }
    }
  }

  lemma {:induction false} HighestExists(latest: map<Name, BeaconObservation>, low: U64, keys: set<Name>)
    returns (r: U64)
    requires keys <= latest.Keys
    ensures low <= r && (forall t :: t in keys ==> latest[t].currentSlot <= r)
    ensures r == low || exists t :: t in keys && latest[t].currentSlot == r
    decreases |keys|
  {
    if keys == {} {
      r := low;
    } else {
      var t :| t in keys;
      var before := HighestExists(latest, low, keys - {t});
      r := if latest[t].currentSlot > before then latest[t].currentSlot else before;
    }
  }

  /** The slot in which the fault counts as removed: not before the end slot, nor any latest observation. */
  ghost predicate IsRemovalSlot(observations: seq<BeaconObservation>, targets: seq<Name>, endSlot: U64, r: U64) {
    if |Latest(observations)| == |targets| then IsHighest(Latest(observations), endSlot, r) else r == endSlot
  }

  lemma {:induction false} RemovalSlotExists(observations: seq<BeaconObservation>, targets: seq<Name>, endSlot: U64)
    ensures exists r :: IsRemovalSlot(observations, targets, endSlot, r)
  {
    var latest := Latest(observations);
    var highest := HighestExists(latest, endSlot, latest.Keys);
    assert IsRemovalSlot(observations, targets, endSlot, if |latest| == |targets| then highest else endSlot);
  }

  ghost function RemovalSlot(observations: seq<BeaconObservation>, targets: seq<Name>, endSlot: U64): (r: U64)
    ensures IsRemovalSlot(observations, targets, endSlot, r)
  {
    RemovalSlotExists(observations, targets, endSlot);
    var r :| IsRemovalSlot(observations, targets, endSlot, r);
    r
  }

  method FindRemovalSlot(observations: seq<BeaconObservation>, targets: seq<Name>, endSlot: U64) returns (r: U64)
    ensures r == RemovalSlot(observations, targets, endSlot)
  {
    var latest := LatestByTarget(observations);
    r := endSlot;
    if |latest| == |targets| {
      r := HighestSlot(latest, endSlot);
    }
    HighestIsUnique(latest, endSlot, r, RemovalSlot(observations, targets, endSlot));
  }

  lemma {:induction false} HighestIsUnique(latest: map<Name, BeaconObservation>, low: U64, r: U64, q: U64)
    ensures IsHighest(latest, low, r) && IsHighest(latest, low, q) ==> r == q
  {
  }

  // ---------- Head divergence ----------

  predicate SameHead(a: BeaconObservation, b: BeaconObservation) {
    a.headSlot == b.headSlot && a.headRoot == b.headRoot
  }

  /** What the scan of one slot decides: a target disagrees with the first one before any target is missing. */
  ghost predicate Disagree(observations: seq<BeaconObservation>, targets: seq<Name>, slot: int) {
    exists k :: 0 < k < |targets|
      && (forall j :: 0 <= j <= k ==> AtSlot(observations, targets[j], slot).Some?)
      && !SameHead(AtSlot(observations, targets[k], slot).value, AtSlot(observations, targets[0], slot).value)
  }

  /** When every target was observed, the scan finds a disagreement exactly when two targets report
      different heads, whatever the order of the targets. */
  lemma {:induction false} DisagreeMeaning(observations: seq<BeaconObservation>, targets: seq<Name>, slot: int)
    requires SlotComplete(observations, targets, slot)
    ensures Disagree(observations, targets, slot) <==>
              exists s, t :: s in targets && t in targets
                && !SameHead(AtSlot(observations, s, slot).value, AtSlot(observations, t, slot).value)
  {
    if s, t :| s in targets && t in targets
               && !SameHead(AtSlot(observations, s, slot).value, AtSlot(observations, t, slot).value)
    {
      var first := AtSlot(observations, targets[0], slot).value;
      var x := if SameHead(AtSlot(observations, s, slot).value, first) then t else s;
      var k :| 0 <= k < |targets| && targets[k] == x;
      assert !SameHead(AtSlot(observations, targets[k], slot).value, first);
      assert forall j :: 0 <= j <= k ==> targets[j] in targets;
    }
  }

  /** Two targets do not report different heads in the slot; a missing one reports none. */
  predicate Alike(observations: seq<BeaconObservation>, s: Name, t: Name, slot: int) {
    var a, b := AtSlot(observations, s, slot), AtSlot(observations, t, slot);
    a.Some? && b.Some? ==> SameHead(a.value, b.value)
  }

  /** The targets that were observed in the slot report one head. */
  ghost predicate ObservedAgree(observations: seq<BeaconObservation>, targets: seq<Name>, slot: int) {
    forall s, t :: s in targets && t in targets ==> Alike(observations, s, t, slot)
  }

  /** Every order of the targets decides alike. */
  ghost predicate OrderIrrelevant(observations: seq<BeaconObservation>, targets: seq<Name>, slot: int) {
    forall order :: multiset(order) == multiset(targets) ==>
      (Disagree(observations, order, slot) <==> Disagree(observations, targets, slot))
  }

  lemma {:induction false} MovedFirst(targets: seq<Name>, t: Name) returns (rest: seq<Name>)
    requires t in targets
    ensures multiset([t] + rest) == multiset(targets)
  {
    var k :| 0 <= k < |targets| && targets[k] == t;
    rest := targets[..k] + targets[k + 1..];
    assert targets == targets[..k] + [t] + targets[k + 1..];
  }

  lemma {:induction false} MovedPair(targets: seq<Name>, s: Name, t: Name) returns (rest: seq<Name>)
    requires s in targets && t in targets && s != t
    ensures multiset([s, t] + rest) == multiset(targets)
  {
    var others := MovedFirst(targets, t);
    assert s in multiset([t] + others);
    rest := MovedFirst(others, s);
    assert [s, t] + rest == [s] + ([t] + rest) && [t] + others == [t] + others;
  }

  lemma {:induction false} MissingFirst(observations: seq<BeaconObservation>, m: Name, rest: seq<Name>, slot: int)
    requires AtSlot(observations, m, slot).None?
    ensures !Disagree(observations, [m] + rest, slot)
  {
    assert ([m] + rest)[0] == m;
  }

  lemma {:induction false} DifferentFirst(observations: seq<BeaconObservation>, s: Name, t: Name, rest: seq<Name>,
                                          slot: int)
    requires AtSlot(observations, s, slot).Some? && AtSlot(observations, t, slot).Some?
    requires !SameHead(AtSlot(observations, s, slot).value, AtSlot(observations, t, slot).value)
    ensures Disagree(observations, [s, t] + rest, slot)
  {
    var order := [s, t] + rest;
    assert order[0] == s && order[1] == t;
    assert !SameHead(AtSlot(observations, order[1], slot).value, AtSlot(observations, order[0], slot).value);
  }

  /** The order of the targets is irrelevant exactly when all of them were observed in the slot, or those
      that were report one head. */
  lemma {:induction false} OrderIrrelevantExactly(observations: seq<BeaconObservation>, targets: seq<Name>, slot: int)
    ensures OrderIrrelevant(observations, targets, slot) <==>
              SlotComplete(observations, targets, slot) || ObservedAgree(observations, targets, slot)
  {
    if SlotComplete(observations, targets, slot) || ObservedAgree(observations, targets, slot) {
      forall order | multiset(order) == multiset(targets)
        ensures Disagree(observations, order, slot) <==> Disagree(observations, targets, slot)
      {
        SameInOrder(observations, targets, order, slot);
      }
    } else {
      var m :| m in targets && AtSlot(observations, m, slot).None?;
      var s, t :| s in targets && t in targets && !Alike(observations, s, t, slot);
      var quiet := MovedFirst(targets, m);
      var loud := MovedPair(targets, s, t);
      MissingFirst(observations, m, quiet, slot);
      DifferentFirst(observations, s, t, loud, slot);
    }
  }

  lemma {:induction false} SameInOrder(observations: seq<BeaconObservation>, targets: seq<Name>, order: seq<Name>,
                                       slot: int)
    requires multiset(order) == multiset(targets)
    requires SlotComplete(observations, targets, slot) || ObservedAgree(observations, targets, slot)
    ensures Disagree(observations, order, slot) <==> Disagree(observations, targets, slot)
  {
    PermutationElements(order, targets);
    if SlotComplete(observations, targets, slot) {
      DisagreeMeaning(observations, targets, slot);
      DisagreeMeaning(observations, order, slot);
    } else {
      AgreedIsQuiet(observations, targets, slot);
      AgreedIsQuiet(observations, order, slot);
    }
  }

  lemma {:induction false} AgreedIsQuiet(observations: seq<BeaconObservation>, targets: seq<Name>, slot: int)
    requires ObservedAgree(observations, targets, slot)
    ensures !Disagree(observations, targets, slot)
  {
    forall k | 0 < k < |targets| ensures Alike(observations, targets[k], targets[0], slot) {
      assert targets[k] in targets && targets[0] in targets;
    }
  }

  /** The same data of four targets, one of them missing, disagree or not depending on the order. */
  lemma {:induction false} OrderMattersWhenMissing(r: Root, q: Root, a: Name, b: Name, c: Name, d: Name)
    requires r != q && Distinct([a, b, c, d])
    ensures var seen := [BeaconObservation(1, a, 7, 7, r, 0), BeaconObservation(1, b, 7, 7, q, 0),
                         BeaconObservation(1, c, 7, 7, r, 0)];
            Disagree(seen, [a, b, c, d], 7) && !Disagree(seen, [d, a, b, c], 7)
  {
    var seen := [BeaconObservation(1, a, 7, 7, r, 0), BeaconObservation(1, b, 7, 7, q, 0),
                 BeaconObservation(1, c, 7, 7, r, 0)];
    var targets := [a, b, c, d];
    assert targets[0] != targets[1] && targets[0] != targets[3] && targets[1] != targets[3] && targets[2] != targets[3];
    AtSlotIsLatest(seen, a, 7);
    AtSlotIsLatest(seen, b, 7);
    AtSlotIsLatest(seen, d, 7);
    assert seen[0] in seen && seen[1] in seen;
    assert targets[0] != targets[2] && targets[1] != targets[2];
    assert AtSlot(seen, a, 7).value.headRoot == r && AtSlot(seen, b, 7).value.headRoot == q;
    assert [a, b] + [c, d] == targets && [d] + [a, b, c] == [d, a, b, c];
    DifferentFirst(seen, a, b, [c, d], 7);
    MissingFirst(seen, d, [a, b, c], 7);
  }

  method HeadsDisagreeAtCurrentSlot(observations: seq<BeaconObservation>, targets: seq<Name>, slot: U64)
    returns (r: bool)
    ensures r <==> Disagree(observations, targets, slot)
  {
    var reference: Option<BeaconObservation> := None;
    for index := 0 to |targets|
      invariant forall j :: 0 <= j < index ==> AtSlot(observations, targets[j], slot).Some?
      invariant index > 0 ==> reference == AtSlot(observations, targets[0], slot)
      invariant forall j :: 0 < j < index ==> SameHead(AtSlot(observations, targets[j], slot).value, reference.value)
    {
      var observation := ObservationAtSlot(observations, targets[index], slot);
      if observation.None? {
        return false;
      }
      if index == 0 {
        reference := observation;
      } else if !SameHead(observation.value, reference.value) {
        return true;
      }
    }
    r := false;
  }

  /** The slots at which the scan finds a disagreement. */
  ghost function Disagreements(observations: seq<BeaconObservation>, targets: seq<Name>): iset<int> {
    iset slot: int | Disagree(observations, targets, slot)
  }

  /** `length` consecutive slots, all of them bad. */
  ghost predicate BadRun(bad: iset<int>, from: int, length: nat) {
    forall slot :: from <= slot < from + length ==> slot in bad
  }

  /** Some `length` consecutive slots are bad, the first of them in `first..last`. */
  ghost predicate HasBadRun(bad: iset<int>, first: int, last: int, length: nat) {
    exists from :: first <= from <= last && BadRun(bad, from, length)
  }

  /** No `length` bad slots in a row end before `slot`, and exactly `consecutive` bad slots lead up to it. */
  ghost predicate Scanned(bad: iset<int>, start: int, length: nat, slot: int, consecutive: nat) {
    && consecutive < length && start + consecutive <= slot
    && BadRun(bad, slot - consecutive, consecutive)
    && (start + consecutive < slot ==> slot - consecutive - 1 !in bad)
    && !HasBadRun(bad, start, slot - length, length)
  }

  lemma {:induction false} ScanOne(bad: iset<int>, start: int, length: nat, slot: int, consecutive: nat, last: int)
    requires Scanned(bad, start, length, slot, consecutive) && slot <= last
    ensures slot !in bad ==> Scanned(bad, start, length, slot + 1, 0)
    ensures slot in bad && consecutive + 1 < length ==> Scanned(bad, start, length, slot + 1, consecutive + 1)
    ensures slot in bad && consecutive + 1 == length ==> HasBadRun(bad, start, last - (length - 1), length)
  {
    assert slot in bad && consecutive + 1 == length ==> BadRun(bad, slot + 1 - length, length);
    if slot !in bad || consecutive + 1 < length {
      var good := if slot in bad then slot - consecutive - 1 else slot;
      if start <= slot + 1 - length {
        assert good !in bad && slot + 1 - length <= good < slot + 1;
      }
    }
  }

  /** The counter after one more slot: within the tolerance as long as no run of bad slots is too long. */
  method CountSlot(observations: seq<BeaconObservation>, targets: seq<Name>, slot: U64, consecutive: U64,
                   tolerance: U64, ghost bad: iset<int>, ghost start: int, ghost last: int)
    returns (next: U64)
    requires bad == Disagreements(observations, targets)
    requires Scanned(bad, start, tolerance + 1, slot, consecutive) && slot <= last
    ensures next <= tolerance && consecutive < MAX_UINT64 ==> Scanned(bad, start, tolerance + 1, slot + 1, next)
    ensures next > tolerance ==> tolerance < MAX_UINT64 && HasBadRun(bad, start, last - tolerance, tolerance + 1)
  {
    var disagree := HeadsDisagreeAtCurrentSlot(observations, targets, slot);
    ScanOne(bad, start, tolerance + 1, slot, consecutive, last);
    next := if disagree then Increment(consecutive) else 0;
  }

  /** Exceeded exactly when `tolerance + 1` consecutive slots of the window disagree. The counter is a
      uint64, so the largest tolerance can never be exceeded. */
  method HeadDivergenceExceeded(observations: seq<BeaconObservation>, targets: seq<Name>, startSlot: U64, endSlot: U64,
                                tolerance: U64)
    returns (exceeded: bool)
    requires startSlot <= endSlot
    ensures exceeded <==>
              tolerance < MAX_UINT64
              && HasBadRun(Disagreements(observations, targets), startSlot, endSlot - tolerance, tolerance + 1)
  {
    ghost var bad := Disagreements(observations, targets);
    var consecutive: U64 := 0;
    var slot: U64 := startSlot;
    while true
      invariant startSlot <= slot <= endSlot && consecutive <= tolerance
      invariant Scanned(bad, startSlot, tolerance + 1, slot, consecutive)
      decreases endSlot - slot
    {
      consecutive := CountSlot(observations, targets, slot, consecutive, tolerance, bad, startSlot, endSlot);
      if consecutive > tolerance {
        return true;
      }
      if slot == endSlot {
        break;
      }
      slot := slot + 1;
    }
    exceeded := false;
  }

  function Increment(n: U64): U64 {
    if n == MAX_UINT64 then 0 else n + 1
  }

  // ---------- Measurement gaps ----------

  datatype DataGap =
    | Missing(target: Name, slot: U64)
    | PollGap(failure: PollFailure)
    | Regression(target: Name)
    | WindowIncomplete

  /** A target without an observation reads as the zero value. */
  const ZERO_OBSERVATION := BeaconObservation(0, NO_NAME, 0, 0, Root(""), 0)

  function AtSlotOrZero(observations: seq<BeaconObservation>, target: Name, slot: U64): BeaconObservation {
    var r := AtSlot(observations, target, slot);
    if r.Some? then r.value else ZERO_OBSERVATION
  }

  function AtSlotMap(
    observations: seq<BeaconObservation>, targets: seq<Name>, slot: U64): map<Name, BeaconObservation>
  {
    map t | t in targets :: AtSlotOrZero(observations, t, slot)
  }

  method ObservationsAtSlotMap(observations: seq<BeaconObservation>, targets: seq<Name>, slot: U64)
    returns (m: map<Name, BeaconObservation>)
    ensures m == AtSlotMap(observations, targets, slot)
  {
    m := map[];
    for n := 0 to |targets|
      invariant m == AtSlotMap(observations, targets[..n], slot)
    {
      var o := ObservationAtSlot(observations, targets[n], slot);
      m := m[targets[n] := if o.Some? then o.value else ZERO_OBSERVATION];
    }
    assert targets[..|targets|] == targets;
  }

  ghost predicate IsLatestTime(t: nat, m: map<Name, BeaconObservation>) {
    && (forall k :: k in m ==> m[k].timestamp <= t)
    && (t == 0 || exists k :: k in m && m[k].timestamp == t)
  }

  /** The map is ranged over in any order. */
  method LatestTimestamp(m: map<Name, BeaconObservation>) returns (t: nat)
    ensures IsLatestTime(t, m)
  {
    t := 0;
    var rest := m.Keys;
    while rest != {}
      invariant rest <= m.Keys
      invariant forall k :: k in m.Keys - rest ==> m[k].timestamp <= t
      invariant t == 0 || exists k :: k in m && m[k].timestamp == t
    {
      var k :| k in rest;
      rest := rest - {k};
      if m[k].timestamp > t {
        t := m[k].timestamp;
      }
    }
  }

  predicate InTimes(f: PollFailure, startTime: nat, endTime: nat) {
    startTime <= f.timestamp <= endTime
  }

  method PollGaps(failures: seq<PollFailure>, startTime: nat, endTime: nat) returns (gaps: seq<DataGap>)
    ensures forall g :: g in gaps <==> g.PollGap? && g.failure in failures && InTimes(g.failure, startTime, endTime)
  {
    gaps := [];
    for n := 0 to |failures|
      invariant forall g :: g in gaps <==>
                  g.PollGap? && g.failure in failures[..n] && InTimes(g.failure, startTime, endTime)
    {
      assert failures[..n + 1] == failures[..n] + [failures[n]];
      if startTime <= failures[n].timestamp && failures[n].timestamp <= endTime {
        gaps := gaps + [PollGap(failures[n])];
      }
    }
    assert failures[..|failures|] == failures;
  }

  /** The gaps of the primary window are its poll failures and its missing observations, one per target and slot. */
  ghost predicate IsPrimaryGap(g: DataGap, d: Dataset, targets: seq<Name>, startSlot: U64, endSlot: int, startTime: nat,
                               endTime: nat)
  {
    || (g.PollGap? && g.failure in d.gaps && InTimes(g.failure, startTime, endTime))
    || (g.Missing? && g.target in targets && startSlot <= g.slot <= endSlot && AtSlot(d.beacon, g.target, g.slot).None?)
  }

  method PrimaryMeasurementGaps(d: Dataset, startSlot: U64, endSlot: U64, starts: map<Name, BeaconObservation>,
                                ends: map<Name, BeaconObservation>, targets: seq<Name>)
    returns (gaps: seq<DataGap>, startTime: nat, endTime: nat)
    requires startSlot <= endSlot
    ensures IsLatestTime(startTime, starts) && IsLatestTime(endTime, ends)
    ensures forall g :: g in gaps <==> IsPrimaryGap(g, d, targets, startSlot, endSlot, startTime, endTime)
  {
    startTime := LatestTimestamp(starts);
    endTime := LatestTimestamp(ends);
    gaps := PollGaps(d.gaps, startTime, endTime);
    var slot: U64 := startSlot;
    while true
      invariant startSlot <= slot <= endSlot
      invariant forall g :: g in gaps <==> IsPrimaryGap(g, d, targets, startSlot, slot - 1, startTime, endTime)
      decreases endSlot - slot
    {
      var missing := MissingAt(d.beacon, targets, slot);
      gaps := gaps + missing;
      if slot == endSlot {
        break;
      }
      slot := slot + 1;
    }
  }

  method MissingAt(observations: seq<BeaconObservation>, targets: seq<Name>, slot: U64) returns (gaps: seq<DataGap>)
    ensures forall g :: g in gaps <==>
              g.Missing? && g.slot == slot && g.target in targets && AtSlot(observations, g.target, slot).None?
  {
    gaps := [];
    for n := 0 to |targets|
      invariant forall g :: g in gaps <==>
                  g.Missing? && g.slot == slot && g.target in targets[..n] && AtSlot(observations, g.target, slot).None?
    {
      assert targets[..n + 1] == targets[..n] + [targets[n]];
      var o := ObservationAtSlot(observations, targets[n], slot);
      if o.None? {
        gaps := gaps + [Missing(targets[n], slot)];
      }
    }
    assert targets[..|targets|] == targets;
  }

  /** There are no primary gaps exactly when every target was observed at every slot of the window and no
      poll failed during it. */
  lemma {:induction false} NoPrimaryGaps(d: Dataset, targets: seq<Name>, startSlot: U64, endSlot: U64, startTime: nat,
                                         endTime: nat)
    ensures (forall g :: !IsPrimaryGap(g, d, targets, startSlot, endSlot, startTime, endTime)) <==>
              && (forall slot :: startSlot <= slot <= endSlot ==> SlotComplete(d.beacon, targets, slot))
              && (forall f :: f in d.gaps ==> !InTimes(f, startTime, endTime))
  {
    if forall g :: !IsPrimaryGap(g, d, targets, startSlot, endSlot, startTime, endTime) {
      forall slot | startSlot <= slot <= endSlot ensures SlotComplete(d.beacon, targets, slot) {
        forall t | t in targets ensures AtSlot(d.beacon, t, slot).Some? {
          assert !IsPrimaryGap(Missing(t, slot), d, targets, startSlot, endSlot, startTime, endTime);
        }
      }
      forall f | f in d.gaps ensures !InTimes(f, startTime, endTime) {
        assert !IsPrimaryGap(PollGap(f), d, targets, startSlot, endSlot, startTime, endTime);
      }
    } else {
      var g :| IsPrimaryGap(g, d, targets, startSlot, endSlot, startTime, endTime);
      assert g.Missing? ==> !SlotComplete(d.beacon, targets, g.slot);
    }
  }

  // ---------- Recovery ----------

  ghost predicate IsLatestDatasetTime(t: nat, d: Dataset) {
    && (forall o :: o in d.beacon ==> o.timestamp <= t) && (forall f :: f in d.gaps ==> f.timestamp <= t)
    && (t == 0 || (exists o :: o in d.beacon && o.timestamp == t) || (exists f :: f in d.gaps && f.timestamp == t))
  }

  method LatestDatasetTimestamp(d: Dataset) returns (t: nat)
    ensures IsLatestDatasetTime(t, d)
  {
    t := 0;
    for n := 0 to |d.beacon|
      invariant forall i :: 0 <= i < n ==> d.beacon[i].timestamp <= t
      invariant t == 0 || exists o :: o in d.beacon && o.timestamp == t
    {
      if d.beacon[n].timestamp > t {
        t := d.beacon[n].timestamp;
        assert d.beacon[n] in d.beacon;
      }
    }
    for n := 0 to |d.gaps|
      invariant forall o :: o in d.beacon ==> o.timestamp <= t
      invariant forall i :: 0 <= i < n ==> d.gaps[i].timestamp <= t
      invariant t == 0 || (exists o :: o in d.beacon && o.timestamp == t)
                || (exists f :: f in d.gaps && f.timestamp == t)
    {
      if d.gaps[n].timestamp > t {
        t := d.gaps[n].timestamp;
        assert d.gaps[n] in d.gaps;
      }
    }
  }

  /** The gaps of the recovery window are the poll failures since the removal, and its being cut short. */
  ghost predicate IsRecoveryGap(g: DataGap, d: Dataset, removedAt: nat, windowComplete: bool) {
    || (g.PollGap? && g.failure in d.gaps && removedAt <= g.failure.timestamp)
    || (g.WindowIncomplete? && !windowComplete)
  }

  method RecoveryMeasurementGaps(d: Dataset, removedAt: nat, windowComplete: bool) returns (gaps: seq<DataGap>)
    ensures forall g :: g in gaps <==> IsRecoveryGap(g, d, removedAt, windowComplete)
  {
    var last := LatestDatasetTimestamp(d);
    gaps := PollGaps(d.gaps, removedAt, last);
    if !windowComplete {
      gaps := gaps + [WindowIncomplete];
    }
  }

  /** An observation after the removal whose finalized epoch is above the one at the end of the window. */
  predicate ShowsRecovery(o: BeaconObservation, target: Name, endEpoch: U64, removedAt: nat, removalSlot: U64) {
    o.target == target && o.timestamp >= removedAt && o.finalizedEpoch > endEpoch && o.currentSlot >= removalSlot
  }

  /** Each target's observations are recorded in slot order. */
  ghost predicate SlotsInOrder(observations: seq<BeaconObservation>, target: Name) {
    forall i, j ::
      0 <= i < j < |observations| && observations[i].target == target && observations[j].target == target ==>
      observations[i].currentSlot <= observations[j].currentSlot
  }

  ghost predicate IsFirstRecovery(observations: seq<BeaconObservation>, n: int, target: Name, endEpoch: U64,
                                  removedAt: nat, removalSlot: U64)
  {
    && 0 <= n < |observations| && ShowsRecovery(observations[n], target, endEpoch, removedAt, removalSlot)
    && forall i :: 0 <= i < n ==> !ShowsRecovery(observations[i], target, endEpoch, removedAt, removalSlot)
  }

  /** Recovery is absent exactly when no observation shows it, and otherwise taken from the first that does.
      When the target's observations are in slot order it is the least distance from the removal slot among
      all observations that show it. */
  ghost predicate IsRecovery(observations: seq<BeaconObservation>, target: Name, endEpoch: U64, removedAt: nat,
                             removalSlot: U64, recovery: Option<U64>)
  {
    && (recovery.None? <==>
          forall o :: o in observations ==> !ShowsRecovery(o, target, endEpoch, removedAt, removalSlot))
    && (recovery.Some? ==>
          && (exists n :: IsFirstRecovery(observations, n, target, endEpoch, removedAt, removalSlot)
                && observations[n].currentSlot == removalSlot + recovery.value)
          && (SlotsInOrder(observations, target) ==>
                forall o :: o in observations && ShowsRecovery(o, target, endEpoch, removedAt, removalSlot) ==>
                  o.currentSlot >= removalSlot + recovery.value))
  }

  method RecoverySlots(observations: seq<BeaconObservation>, target: Name, endEpoch: U64, removedAt: nat,
                       removalSlot: U64)
    returns (recovery: Option<U64>)
    ensures IsRecovery(observations, target, endEpoch, removedAt, removalSlot, recovery)
  {
    for n := 0 to |observations|
      invariant forall i :: 0 <= i < n ==> !ShowsRecovery(observations[i], target, endEpoch, removedAt, removalSlot)
    {
      var o := observations[n];
      if o.target != target || o.timestamp < removedAt || o.finalizedEpoch <= endEpoch || o.currentSlot < removalSlot {
        continue;
      }
      assert o in observations && IsFirstRecovery(observations, n, target, endEpoch, removedAt, removalSlot);
      return Some(o.currentSlot - removalSlot);
    }
    recovery := None;
  }

  /** The wait after the removal: every target's latest observation is past the finality of the window's
      end, or every one has reached the censor slot. */
  ghost predicate WaitOver(observations: seq<BeaconObservation>, targets: seq<Name>, ends: map<Name, BeaconObservation>,
                           censorSlot: U64)
    requires forall t :: t in targets ==> t in ends
  {
    var latest := Latest(observations);
    && |latest| == |targets| && (forall t :: t in targets ==> t in latest)
    && (|| (forall t :: t in targets ==> latest[t].finalizedEpoch > ends[t].finalizedEpoch)
        || (forall t :: t in targets ==> latest[t].currentSlot >= censorSlot))
  }

  method RecoveredOrCensored(observations: seq<BeaconObservation>, targets: seq<Name>,
                             ends: map<Name, BeaconObservation>, censorSlot: U64)
    returns (over: bool)
    requires forall t :: t in targets ==> t in ends
    ensures over <==> WaitOver(observations, targets, ends, censorSlot)
  {
    var latest := LatestByTarget(observations);
    var allRecovered := |latest| == |targets|;
    var allCensored := |latest| == |targets|;
    for n := 0 to |targets|
      invariant forall i :: 0 <= i < n ==> targets[i] in latest
      invariant allRecovered <==>
                  |latest| == |targets| && forall i :: 0 <= i < n ==>
                    latest[targets[i]].finalizedEpoch > ends[targets[i]].finalizedEpoch
      invariant allCensored <==>
                  |latest| == |targets| && forall i :: 0 <= i < n ==> latest[targets[i]].currentSlot >= censorSlot
    {
      var t := targets[n];
      if t !in latest {
        return false;
      }
      allRecovered := allRecovered && latest[t].finalizedEpoch > ends[t].finalizedEpoch;
      allCensored := allCensored && latest[t].currentSlot >= censorSlot;
    }
    over := allRecovered || allCensored;
  }

  /** A snapshot whose latest observation of the target is past the finality of the window's end shows
      recovery exactly if that observation is itself from after the removal. */
  lemma {:induction false} LatestShowsRecovery(observations: seq<BeaconObservation>, target: Name, endEpoch: U64,
                                               removedAt: nat, removalSlot: U64)
    requires SlotsRespectTime(observations, target)
    requires target in Latest(observations) && Latest(observations)[target].finalizedEpoch > endEpoch
    ensures (exists o :: o in observations && ShowsRecovery(o, target, endEpoch, removedAt, removalSlot)) <==>
              Latest(observations)[target].timestamp >= removedAt
              && Latest(observations)[target].currentSlot >= removalSlot
  {
    LatestIsLatest(observations);
    var last := Latest(observations)[target];
    if last.timestamp >= removedAt && last.currentSlot >= removalSlot {
      assert last in observations && ShowsRecovery(last, target, endEpoch, removedAt, removalSlot);
    }
  }

  /** The wait does not look at the removal, and more is recorded after it. When it has returned a snapshot in
      which the target's finality is past that of the window's end, the target has a recovery value exactly if
      its latest observation in the snapshot is from after the removal, or a later record shows recovery. */
  lemma {:induction false} RecoveredWaitMeansRecovery(
    tested: seq<BeaconObservation>, final: seq<BeaconObservation>, target: Name, endEpoch: U64, removedAt: nat,
    removalSlot: U64, recovery: Option<U64>)
    requires tested <= final && SlotsRespectTime(tested, target)
    requires target in Latest(tested) && Latest(tested)[target].finalizedEpoch > endEpoch
    requires IsRecovery(final, target, endEpoch, removedAt, removalSlot, recovery)
    ensures recovery.Some? <==>
              || (Latest(tested)[target].timestamp >= removedAt && Latest(tested)[target].currentSlot >= removalSlot)
              || exists o :: o in final[|tested|..] && ShowsRecovery(o, target, endEpoch, removedAt, removalSlot)
  {
    LatestShowsRecovery(tested, target, endEpoch, removedAt, removalSlot);
    assert final == tested + final[|tested|..];
  }

  /** What the end of the wait says about one target: its finality was seen past that of the window's end, and
      it has a recovery value exactly as above, or every target was seen in the censor slot or later. */
  lemma {:induction false} WaitMeaning(
    tested: seq<BeaconObservation>, final: seq<BeaconObservation>, targets: seq<Name>,
    ends: map<Name, BeaconObservation>, censorSlot: U64, target: Name, removedAt: nat, removalSlot: U64,
    recovery: Option<U64>)
    requires tested <= final && SlotsRespectTime(final, target) && target in targets
    requires (forall t :: t in targets ==> t in ends) && WaitOver(tested, targets, ends, censorSlot)
    requires IsRecovery(final, target, ends[target].finalizedEpoch, removedAt, removalSlot, recovery)
    ensures var last, endEpoch := Latest(tested)[target], ends[target].finalizedEpoch;
            && (last.finalizedEpoch > endEpoch ==>
                  (recovery.Some? <==>
                     || (last.timestamp >= removedAt && last.currentSlot >= removalSlot)
                     || exists o :: o in final[|tested|..]
                          && ShowsRecovery(o, target, endEpoch, removedAt, removalSlot)))
            && (last.finalizedEpoch <= endEpoch ==>
                  forall t :: t in targets ==> Latest(tested)[t].currentSlot >= censorSlot)
  {
    var endEpoch := ends[target].finalizedEpoch;
    assert SlotsRespectTime(tested, target);
    if Latest(tested)[target].finalizedEpoch > endEpoch {
      RecoveredWaitMeansRecovery(tested, final, target, endEpoch, removedAt, removalSlot, recovery);
    }
  }
}
