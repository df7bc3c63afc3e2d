/** What a run's summary says, in terms of the recorded observations and failures. */
module Reports {
  import opened Common
  import opened Recorder
  import opened Scenario
  import opened Split
  import opened Measurement
  import opened Results
  import opened Summary

  // ---------- Observations ----------

  ghost predicate NotSeen(os: seq<BeaconObservation>, t: Name, slot: int) {
    forall o :: o in os ==> o.target != t || o.currentSlot != slot
  }

  /** Entry `k` is the target's latest observation in the slot, and the first recorded of those with its time. */
  ghost predicate LatestAt(os: seq<BeaconObservation>, k: int, t: Name, slot: int) {
    && 0 <= k < |os| && os[k].target == t && os[k].currentSlot == slot
    && (forall o :: o in os && o.target == t && o.currentSlot == slot ==> o.timestamp <= os[k].timestamp)
    && forall j :: 0 <= j < k && os[j].target == t && os[j].currentSlot == slot ==> os[j].timestamp < os[k].timestamp
  }

  lemma {:induction false} AtSlotMeaning(os: seq<BeaconObservation>, t: Name, slot: int)
    ensures AtSlot(os, t, slot).None? <==> NotSeen(os, t, slot)
    ensures AtSlot(os, t, slot).Some? ==> exists k :: LatestAt(os, k, t, slot) && os[k] == AtSlot(os, t, slot).value
  {
    AtSlotIsLatest(os, t, slot);
    if AtSlot(os, t, slot).Some? {
      var init, last := os[..|os| - 1], os[|os| - 1];
      AtSlotMeaning(init, t, slot);
      assert os == init + [last];
      if AtSlot(init, t, slot) == AtSlot(os, t, slot) {
        var k :| LatestAt(init, k, t, slot) && init[k] == AtSlot(init, t, slot).value;
        assert LatestAt(os, k, t, slot);
      } else {
        LastIsLatest(init, last, t, slot);
      }
    }
  }

  lemma {:induction false} LastIsLatest(init: seq<BeaconObservation>, last: BeaconObservation, t: Name, slot: int)
    requires last.target == t && last.currentSlot == slot
    requires AtSlot(init, t, slot).Some? ==> AtSlot(init, t, slot).value.timestamp < last.timestamp
    ensures LatestAt(init + [last], |init|, t, slot)
  {
    var os := init + [last];
    AtSlotIsLatest(init, t, slot);
    assert os[|init|] == last;
    forall j | 0 <= j < |init| && os[j].target == t && os[j].currentSlot == slot
      ensures os[j].timestamp < last.timestamp
    {
      assert os[j] == init[j] && init[j] in init && Matches(init[j], t, slot);
    }
  }

  /** There is only one such entry. */
  lemma {:induction false} LatestOnce(os: seq<BeaconObservation>, k: int, l: int, t: Name, slot: int)
    requires LatestAt(os, k, t, slot) && LatestAt(os, l, t, slot)
    ensures k == l
  {
    assert os[k] in os && os[l] in os;
  }

  /** The finalized epoch of the latest observation in the slot; zero without one. */
  ghost predicate FinalizedAt(os: seq<BeaconObservation>, t: Name, slot: int, epoch: U64) {
    if NotSeen(os, t, slot) then epoch == 0 else exists k :: LatestAt(os, k, t, slot) && os[k].finalizedEpoch == epoch
  }

  lemma {:induction false} FinalizedMeaning(os: seq<BeaconObservation>, t: Name, slot: U64)
    ensures FinalizedAt(os, t, slot, AtSlotOrZero(os, t, slot).finalizedEpoch)
  {
    AtSlotMeaning(os, t, slot);
  }

  /** Entry `k` is the target's latest observation, and the first recorded of those with its time. */
  ghost predicate NewestAt(os: seq<BeaconObservation>, k: int, t: Name) {
    && 0 <= k < |os| && os[k].target == t
    && (forall o :: o in os && o.target == t ==> o.timestamp <= os[k].timestamp)
    && forall j :: 0 <= j < k && os[j].target == t ==> os[j].timestamp < os[k].timestamp
  }

  /** Of each target that was observed the latest observation is kept, whatever its slot. */
  lemma {:induction false} NewestMeaning(os: seq<BeaconObservation>, t: Name)
    ensures t in Latest(os) <==> exists o :: o in os && o.target == t
    ensures t in Latest(os) ==> exists k :: NewestAt(os, k, t) && os[k] == Latest(os)[t]
  {
    LatestIsLatest(os);
    if t in Latest(os) {
      var init, last := os[..|os| - 1], os[|os| - 1];
      NewestMeaning(init, t);
      assert os == init + [last];
      if t in Latest(init) && Latest(init)[t] == Latest(os)[t] {
        var k :| NewestAt(init, k, t) && init[k] == Latest(init)[t];
        StillNewest(init, last, k, t);
      } else {
        LastIsNewest(init, last, t);
      }
    }
  }

  lemma {:induction false} StillNewest(init: seq<BeaconObservation>, last: BeaconObservation, k: int, t: Name)
    requires NewestAt(init, k, t) && (last.target == t ==> last.timestamp <= init[k].timestamp)
    ensures NewestAt(init + [last], k, t)
  {
  }

  lemma {:induction false} LastIsNewest(init: seq<BeaconObservation>, last: BeaconObservation, t: Name)
    requires last.target == t && (t in Latest(init) ==> Latest(init)[t].timestamp < last.timestamp)
    ensures NewestAt(init + [last], |init|, t)
  {
    var os := init + [last];
    LatestIsLatest(init);
    assert os[|init|] == last;
    forall j | 0 <= j < |init| && os[j].target == t ensures os[j].timestamp < last.timestamp {
      assert os[j] == init[j] && init[j] in init;
    }
  }

  // ---------- The removal ----------

  ghost predicate EachSeen(os: seq<BeaconObservation>, targets: seq<Name>) {
    forall t :: t in targets ==> exists o :: o in os && o.target == t
  }

  lemma {:induction false} CountMeaning(os: seq<BeaconObservation>, targets: seq<Name>)
    requires Distinct(targets) && forall o :: o in os ==> o.target in targets
    ensures |Latest(os)| == |targets| <==> EachSeen(os, targets)
  {
    LatestIsLatest(os);
    DistinctSize(targets);
    var keys := Latest(os).Keys;
    assert |keys| == |Latest(os)|;
    assert keys <= Elements(targets) by {
      forall t | t in keys ensures t in targets {
        assert Latest(os)[t] in os;
      }
    }
    if |keys| == |targets| {
      SameSizeSubset(keys, Elements(targets));
      assert forall t :: t in targets ==> t in Elements(targets);
    }
    if EachSeen(os, targets) {
      assert Elements(targets) == keys;
    }
  }

  /** The fault counts as removed in the greatest slot of the targets' latest observations, if every target was
      observed, but not before the end slot. */
  lemma {:induction false} RemovalMeaning(os: seq<BeaconObservation>, targets: seq<Name>, endSlot: U64, r: U64)
    requires Distinct(targets) && (forall o :: o in os ==> o.target in targets)
    requires IsRemovalSlot(os, targets, endSlot, r)
    ensures r >= endSlot && (!EachSeen(os, targets) ==> r == endSlot)
    ensures EachSeen(os, targets) ==> forall t, k :: NewestAt(os, k, t) ==> os[k].currentSlot <= r
    ensures r == endSlot || exists t, k :: NewestAt(os, k, t) && os[k].currentSlot == r
  {
    CountMeaning(os, targets);
    forall t ensures t in Latest(os) ==> exists k :: NewestAt(os, k, t) && os[k] == Latest(os)[t] {
      NewestMeaning(os, t);
    }
    forall t, k | NewestAt(os, k, t) ensures t in Latest(os) && os[k] == Latest(os)[t] {
      NewestMeaning(os, t);
      assert os[k] in os;
      var l :| NewestAt(os, l, t) && os[l] == Latest(os)[t];
      assert os[l] in os;
    }
  }

  // ---------- Head divergence ----------

  ghost predicate DifferentHeads(os: seq<BeaconObservation>, s: Name, t: Name, slot: int) {
    exists k, l ::
      && LatestAt(os, k, s, slot) && LatestAt(os, l, t, slot)
      && (os[k].headSlot != os[l].headSlot || os[k].headRoot != os[l].headRoot)
  }

  /** A target reports another head than the first target, and none before it is missing. */
  ghost predicate ApartInOrder(os: seq<BeaconObservation>, names: seq<Name>, slot: int) {
    exists k :: 0 < k < |names| && DifferentHeads(os, names[0], names[k], slot)
      && forall j :: 0 <= j < k ==> !NotSeen(os, names[j], slot)
  }

  lemma {:induction false} ApartMeaning(os: seq<BeaconObservation>, s: Name, t: Name, slot: int)
    ensures DifferentHeads(os, s, t, slot) <==>
              && AtSlot(os, s, slot).Some? && AtSlot(os, t, slot).Some?
              && !SameHead(AtSlot(os, t, slot).value, AtSlot(os, s, slot).value)
  {
    AtSlotMeaning(os, s, slot);
    AtSlotMeaning(os, t, slot);
    if DifferentHeads(os, s, t, slot) {
      var k, l :|
        && LatestAt(os, k, s, slot) && LatestAt(os, l, t, slot)
        && (os[k].headSlot != os[l].headSlot || os[k].headRoot != os[l].headRoot);
      LatestIsAtSlot(os, k, s, slot);
      LatestIsAtSlot(os, l, t, slot);
    }
  }

  lemma {:induction false} DisagreeInOrder(os: seq<BeaconObservation>, names: seq<Name>, slot: int)
    ensures Disagree(os, names, slot) <==> ApartInOrder(os, names, slot)
  {
    forall k | 0 <= k < |names|
      ensures AtSlot(os, names[k], slot).None? <==> NotSeen(os, names[k], slot)
      ensures DifferentHeads(os, names[0], names[k], slot) <==>
                && AtSlot(os, names[0], slot).Some? && AtSlot(os, names[k], slot).Some?
                && !SameHead(AtSlot(os, names[k], slot).value, AtSlot(os, names[0], slot).value)
    {
      AtSlotMeaning(os, names[k], slot);
      ApartMeaning(os, names[0], names[k], slot);
    }
  }

  /** In two consecutive slots of the window the heads are apart. */
  ghost predicate ApartTwice(e: Evidence, names: seq<Name>) {
    exists a, b :: e.startSlot <= a && b == a + 1 && b <= e.endSlot
      && ApartInOrder(e.final.beacon, names, a) && ApartInOrder(e.final.beacon, names, b)
  }

  lemma {:induction false} DivergedMeaning(c: Config, e: Evidence, names: seq<Name>)
    requires c.scenario.thresholds.headDivergenceToleranceSlots == 1 && e.startSlot <= e.endSlot
    ensures Diverged(c, e, names) <==> ApartTwice(e, names)
  {
    TwoInARow(Disagreements(e.final.beacon, names), e.startSlot, e.endSlot);
    BadSlots(e.final.beacon, names);
  }

  lemma {:induction false} BadSlots(os: seq<BeaconObservation>, names: seq<Name>)
    ensures forall slot :: slot in Disagreements(os, names) <==> ApartInOrder(os, names, slot)
  {
    forall slot: int ensures slot in Disagreements(os, names) <==> ApartInOrder(os, names, slot) {
      DisagreeInOrder(os, names, slot);
    }
  }

  // ---------- The results ----------

  /** An observation after the removal that is finalized past the end of the window. */
  ghost predicate RecoveredIn(e: Evidence, o: BeaconObservation, t: TargetResult) {
    && o.target == t.target && o.timestamp >= e.removedAt && o.currentSlot >= e.removalSlot
    && o.finalizedEpoch > t.endEpoch
  }

  /** The slots from the removal to the first recorded observation that shows recovery, if there is one. */
  ghost predicate RecoveryIs(e: Evidence, t: TargetResult) {
    match t.recovery
    case None => forall o :: o in e.final.beacon ==> !RecoveredIn(e, o, t)
    case Some(slots) =>
      exists n :: 0 <= n < |e.final.beacon| && RecoveredIn(e, e.final.beacon[n], t)
        && e.final.beacon[n].currentSlot == e.removalSlot + slots
        && forall i :: 0 <= i < n ==> !RecoveredIn(e, e.final.beacon[i], t)
  }

  /** One target's line: its client, its epochs, its progress and its recovery. */
  ghost predicate ResultFits(c: Config, e: Evidence, condition: Condition, t: TargetResult) {
    && (exists p :: p in c.scenario.participants && p.beaconTarget == t.target && p.clClient == t.clClient)
    && FinalizedAt(e.initial.beacon, t.target, e.startSlot, t.startEpoch)
    && FinalizedAt(e.ending.beacon, t.target, e.endSlot, t.endEpoch)
    && (t.startEpoch <= t.endEpoch ==> t.startEpoch + t.progress == t.endEpoch)
    && (t.startEpoch > t.endEpoch ==> t.progress == 0)
    && match condition
       case ControlRun => t.recovery.None?
       case FaultRun => RecoveryIs(e, t)
  }

  lemma {:induction false} TargetClient(c: Config, t: Name)
    requires ValidConfig(c) && t in SortNames(c.targets)
    ensures exists p :: p in c.scenario.participants && p.beaconTarget == t
              && p.clClient == Lookup(ClientsOf(c.scenario.participants), t)
  {
    ConfigMaps(c);
    ByTargetIndexes(c.scenario.participants);
    assert t in TargetsOf(c.scenario.participants);
    var p :| p in c.scenario.participants && p.beaconTarget == t;
    assert ByTarget(c.scenario.participants)[t] == p;
  }

  lemma {:induction false} ResultMeaning(c: Config, e: Evidence, condition: Condition, t: TargetResult, diverged: bool)
    requires ValidConfig(c) && t.target in SortNames(c.targets)
    requires Summarized(e, condition, t.target, ClientsOf(c.scenario.participants), TargetGroups(c), diverged, t)
    ensures ResultFits(c, e, condition, t) && t.divergenceExceeded == diverged
  {
    TargetClient(c, t.target);
    FinalizedMeaning(e.initial.beacon, t.target, e.startSlot);
    FinalizedMeaning(e.ending.beacon, t.target, e.endSlot);
    if condition == FaultRun {
      RecoveryIsFirst(e, t);
    }
  }

  lemma {:induction false} RecoveryIsFirst(e: Evidence, t: TargetResult)
    requires IsRecovery(e.final.beacon, t.target, t.endEpoch, e.removedAt, e.removalSlot, t.recovery)
    ensures RecoveryIs(e, t)
  {
    forall o ensures RecoveredIn(e, o, t) <==> ShowsRecovery(o, t.target, t.endEpoch, e.removedAt, e.removalSlot) {
    }
  }

  // ---------- The gaps ----------

  /** What each kind of gap stands for. */
  ghost predicate GapFits(c: Config, e: Evidence, condition: Condition, r: RunSummary, g: DataGap) {
    match g
    case PollGap(f) =>
      && f in e.final.gaps
      && (|| r.window.startedAt <= f.timestamp <= r.window.endedAt
          || (condition.FaultRun? && f.timestamp >= e.removedAt))
    case Missing(t, slot) => t in c.targets && e.startSlot <= slot <= e.endSlot && NotSeen(e.final.beacon, t, slot)
    case Regression(t) => exists x :: x in r.targets && x.target == t && x.startEpoch > x.endEpoch
    case WindowIncomplete => condition.FaultRun? && !e.windowComplete
  }

  ghost predicate EverySeen(c: Config, e: Evidence, slot: int) {
    forall t :: t in c.targets ==> !NotSeen(e.final.beacon, t, slot)
  }

  /** Every target was seen in every slot, no poll failed meanwhile, and no finality went back. */
  ghost predicate PrimaryFits(c: Config, e: Evidence, r: RunSummary) {
    && (forall slot :: e.startSlot <= slot <= e.endSlot ==> EverySeen(c, e, slot))
    && (forall f :: f in e.final.gaps ==> f.timestamp < r.window.startedAt || f.timestamp > r.window.endedAt)
    && forall x :: x in r.targets ==> x.startEpoch <= x.endEpoch
  }

  /** The greatest time among the targets' latest observations in the slot; zero without any. */
  ghost predicate TimeFits(c: Config, os: seq<BeaconObservation>, slot: U64, time: nat) {
    && (forall t, k :: t in c.targets && LatestAt(os, k, t, slot) ==> os[k].timestamp <= time)
    && (time == 0 || exists t, k :: t in c.targets && LatestAt(os, k, t, slot) && os[k].timestamp == time)
  }

  ghost predicate SummaryFits(c: Config, e: Evidence, condition: Condition, r: RunSummary) {
    && r.window.startSlot == e.startSlot && r.window.endSlot == e.endSlot
    && TimeFits(c, e.initial.beacon, e.startSlot, r.window.startedAt)
    && TimeFits(c, e.ending.beacon, e.endSlot, r.window.endedAt)
    && |r.targets| == 4 && (forall t :: t in c.targets <==> exists x :: x in r.targets && x.target == t)
    && (forall i, j :: 0 <= i < j < 4 ==> StringLe(r.targets[i].target.text, r.targets[j].target.text))
    && (forall x :: x in r.targets ==> ResultFits(c, e, condition, x))
    && (forall x :: x in r.targets ==> (x.divergenceExceeded <==> ApartTwice(e, SortNames(c.targets))))
    && (forall g :: g in r.gaps <==> GapFits(c, e, condition, r, g))
    && (r.primaryComplete <==> PrimaryFits(c, e, r))
    && (r.recoveryComplete <==>
          condition.FaultRun? ==> e.windowComplete && forall f :: f in e.final.gaps ==> f.timestamp < e.removedAt)
  }

  lemma {:induction false} TimeMeaning(c: Config, os: seq<BeaconObservation>, slot: U64, time: nat)
    requires IsLatestTime(time, AtSlotMap(os, SortNames(c.targets), slot))
    ensures TimeFits(c, os, slot, time)
  {
    var names := SortNames(c.targets);
    PermutationElements(names, c.targets);
    forall t, k | t in c.targets && LatestAt(os, k, t, slot) ensures os[k].timestamp <= time {
      LatestIsAtSlot(os, k, t, slot);
      assert AtSlotMap(os, names, slot)[t] == os[k];
    }
    if time != 0 {
      var t :| t in names && AtSlotMap(os, names, slot)[t].timestamp == time;
      AtSlotMeaning(os, t, slot);
    }
  }

  lemma {:induction false} LatestIsAtSlot(os: seq<BeaconObservation>, k: int, t: Name, slot: int)
    requires LatestAt(os, k, t, slot)
    ensures AtSlot(os, t, slot) == Some(os[k])
  {
    AtSlotMeaning(os, t, slot);
    assert os[k] in os;
    var l :| LatestAt(os, l, t, slot) && os[l] == AtSlot(os, t, slot).value;
    LatestOnce(os, k, l, t, slot);
  }

  lemma {:induction false} ResultsMeaning(c: Config, e: Evidence, condition: Condition, r: RunSummary)
    requires ValidConfig(c) && e.startSlot <= e.endSlot
    requires IsResults(c, e, SortNames(c.targets), condition, r.targets)
    ensures |r.targets| == 4 && forall i :: 0 <= i < 4 ==> r.targets[i].target == SortNames(c.targets)[i]
    ensures forall x :: x in r.targets ==>
              ResultFits(c, e, condition, x) && (x.divergenceExceeded <==> ApartTwice(e, SortNames(c.targets)))
  {
    var names := SortNames(c.targets);
    SortedTargets(c);
    DivergedMeaning(c, e, names);
    forall x | x in r.targets
      ensures ResultFits(c, e, condition, x) && (x.divergenceExceeded <==> ApartTwice(e, names))
    {
      var i :| 0 <= i < |r.targets| && r.targets[i] == x;
      assert Summarized(e, condition, names[i], ClientsOf(c.scenario.participants), TargetGroups(c),
                        Diverged(c, e, names), r.targets[i]);
      assert x.target == names[i] && names[i] in names;
      ResultMeaning(c, e, condition, x, Diverged(c, e, names));
    }
  }

  /** The results are those of the targets, in the order of their names. */
  ghost predicate ListsTargets(c: Config, e: Evidence, r: RunSummary) {
    && |r.targets| == |SortNames(c.targets)|
    && forall i :: 0 <= i < |r.targets| ==>
         && r.targets[i].target == SortNames(c.targets)[i]
         && r.targets[i].startEpoch == StartEpoch(e, r.targets[i].target)
         && r.targets[i].endEpoch == EndEpoch(e, r.targets[i].target)
  }

  lemma {:induction false} TargetsListed(c: Config, e: Evidence, r: RunSummary)
    requires ListsTargets(c, e, r)
    ensures forall t :: t in c.targets <==> exists x :: x in r.targets && x.target == t
    ensures forall x :: x in r.targets ==>
              x.startEpoch == StartEpoch(e, x.target) && x.endEpoch == EndEpoch(e, x.target)
  {
    var names := SortNames(c.targets);
    PermutationElements(names, c.targets);
    forall t | t in c.targets ensures exists x :: x in r.targets && x.target == t {
      var i :| 0 <= i < |names| && names[i] == t;
      assert r.targets[i] in r.targets;
    }
    forall x | x in r.targets
      ensures x.target in c.targets && x.startEpoch == StartEpoch(e, x.target) && x.endEpoch == EndEpoch(e, x.target)
    {
      var i :| 0 <= i < |r.targets| && r.targets[i] == x;
      assert names[i] in names;
    }
  }

  lemma {:induction false} ListedByName(c: Config, e: Evidence, r: RunSummary)
    requires ListsTargets(c, e, r)
    ensures forall i, j :: 0 <= i < j < |r.targets| ==> StringLe(r.targets[i].target.text, r.targets[j].target.text)
  {
    var names := SortNames(c.targets);
    forall i, j | 0 <= i < j < |names| ensures StringLe(names[i].text, names[j].text) {
      assert NameLe(names[i], names[j]);
    }
  }

  lemma {:induction false} GapsMeaning(c: Config, e: Evidence, condition: Condition, r: RunSummary, g: DataGap)
    requires ListsTargets(c, e, r)
    ensures GapFits(c, e, condition, r, g) <==>
              || IsPrimaryProblem(e, SortNames(c.targets), r.window.startedAt, r.window.endedAt, g)
              || IsRecoveryProblem(e, condition, g)
  {
    PermutationElements(SortNames(c.targets), c.targets);
    match g
    case Missing(t, slot) => AtSlotMeaning(e.final.beacon, t, slot);
    case Regression(t) => TargetsListed(c, e, r);
    case _ =>
  }

  lemma {:induction false} CompleteMeaning(c: Config, e: Evidence, condition: Condition, r: RunSummary)
    requires ListsTargets(c, e, r) && e.startSlot <= e.endSlot && IsCompleteness(e, SortNames(c.targets), condition, r)
    ensures r.primaryComplete <==> PrimaryFits(c, e, r)
    ensures r.recoveryComplete <==>
              condition.FaultRun? ==> e.windowComplete && forall f :: f in e.final.gaps ==> f.timestamp < e.removedAt
  {
    var names := SortNames(c.targets);
    CompletenessMeaning(e, names, condition, r);
    EpochsInOrder(c, e, r);
    WindowSeen(c, e, names);
  }

  lemma {:induction false} WindowSeen(c: Config, e: Evidence, names: seq<Name>)
    requires names == SortNames(c.targets)
    ensures (forall slot :: e.startSlot <= slot <= e.endSlot ==> SlotComplete(e.final.beacon, names, slot)) <==>
              forall slot :: e.startSlot <= slot <= e.endSlot ==> EverySeen(c, e, slot)
  {
    PermutationElements(names, c.targets);
    forall slot: int ensures SlotComplete(e.final.beacon, names, slot) <==> EverySeen(c, e, slot) {
      forall t ensures AtSlot(e.final.beacon, t, slot).None? <==> NotSeen(e.final.beacon, t, slot) {
        AtSlotMeaning(e.final.beacon, t, slot);
      }
    }
  }

  lemma {:induction false} EpochsInOrder(c: Config, e: Evidence, r: RunSummary)
    requires ListsTargets(c, e, r)
    ensures (forall t :: t in SortNames(c.targets) ==> StartEpoch(e, t) <= EndEpoch(e, t)) <==>
              forall x :: x in r.targets ==> x.startEpoch <= x.endEpoch
  {
    TargetsListed(c, e, r);
    PermutationElements(SortNames(c.targets), c.targets);
  }

  /** Everything that a summary says follows from the recorded observations and failures. */
  lemma {:induction false} SummaryMeaning(c: Config, e: Evidence, condition: Condition, repetition: U64,
                                          split: RealizedSplit, r: RunSummary)
    requires ValidConfig(c) && e.startSlot <= e.endSlot && IsSummary(c, e, condition, repetition, split, r)
    ensures SummaryFits(c, e, condition, r)
    ensures r.schemaVersion == "ethquake.run/v1alpha1" && r.runID == c.runID && r.condition == condition
    ensures r.repetition == repetition && r.split == split && r.dependencies == c.dependencies
    ensures r.confounders == Confounders(true, true, true)
  {
    ResultsMeaning(c, e, condition, r);
    ResultsListed(c, e, condition, r);
    TimesMeaning(c, e, r.window);
    TargetsListed(c, e, r);
    ListedByName(c, e, r);
    CompleteMeaning(c, e, condition, r);
    AllGapsMeaning(c, e, condition, r);
  }

  lemma {:induction false} TimesMeaning(c: Config, e: Evidence, w: Window)
    requires IsWindow(e, SortNames(c.targets), w)
    ensures w.startSlot == e.startSlot && w.endSlot == e.endSlot
    ensures TimeFits(c, e.initial.beacon, e.startSlot, w.startedAt)
    ensures TimeFits(c, e.ending.beacon, e.endSlot, w.endedAt)
  {
    TimeMeaning(c, e.initial.beacon, e.startSlot, w.startedAt);
    TimeMeaning(c, e.ending.beacon, e.endSlot, w.endedAt);
  }

  lemma {:induction false} AllGapsMeaning(c: Config, e: Evidence, condition: Condition, r: RunSummary)
    requires ListsTargets(c, e, r) && IsCompleteness(e, SortNames(c.targets), condition, r)
    ensures forall g :: g in r.gaps <==> GapFits(c, e, condition, r, g)
  {
    forall g ensures g in r.gaps <==> GapFits(c, e, condition, r, g) {
      GapsMeaning(c, e, condition, r, g);
    }
  }

  lemma {:induction false} ResultsListed(c: Config, e: Evidence, condition: Condition, r: RunSummary)
    requires e.startSlot <= e.endSlot && IsResults(c, e, SortNames(c.targets), condition, r.targets)
    ensures ListsTargets(c, e, r)
  {
    var names := SortNames(c.targets);
    forall i | 0 <= i < |r.targets|
      ensures r.targets[i].target == names[i]
      ensures r.targets[i].startEpoch == StartEpoch(e, r.targets[i].target)
      ensures r.targets[i].endEpoch == EndEpoch(e, r.targets[i].target)
    {
      assert Summarized(e, condition, names[i], ClientsOf(c.scenario.participants), TargetGroups(c),
                        Diverged(c, e, names), r.targets[i]);
    }
  }
}
