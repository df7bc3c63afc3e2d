/** The observer's polls: what each one records, and what a run of polls says about the recorded slots. */
module Polling {
  import opened Common
  import opened Recorder
  import opened Measurement
  import S = Slots

  /** The constants fixed when the observer is initialized. */
  datatype Network = Network(genesisTime: U64, genesisSlot: U64, secondsPerSlot: U64, slotsPerEpoch: U64)

  datatype NodeAnswer = NodeAnswer(headSlot: U64, headRoot: Root, finalizedEpoch: U64)

  datatype Reply = Answered(answer: NodeAnswer) | PollFailed | Cancelled

  /** One poll: the clock after it, the node's reply, and whether the time-series file takes the poll's
      record and the comparison; the dataset gets what the file has taken. */
  datatype Poll = Poll(target: Name, observedAt: nat, reply: Reply, taken: bool, comparisonTaken: bool)

  /** Seconds from the zero time to 1970. */
  const UNIX_EPOCH: int := 62_135_596_800

  function UnixSeconds(timestamp: nat): int {
    timestamp / S.SECOND - UNIX_EPOCH
  }

  function SlotAt(n: Network, timestamp: nat): Result<U64> {
    S.CurrentSlotAt(UnixSeconds(timestamp), n.genesisTime, n.secondsPerSlot, n.genesisSlot)
  }

  /** The record of a poll: an observation, or the failure of one of its three steps. */
  function RecordOf(n: Network, p: Poll): Record {
    if !p.reply.Answered? then GapRecord(PollFailure(p.observedAt, p.target, "beacon_poll")) else
    var slot := SlotAt(n, p.observedAt);
    if slot.Err? then GapRecord(PollFailure(p.observedAt, p.target, "calculate_current_slot")) else
    var a := p.reply.answer;
    if S.FinalityLag(slot.value, a.finalizedEpoch, n.slotsPerEpoch).Err? then
      GapRecord(PollFailure(p.observedAt, p.target, "calculate_finality_lag"))
    else
      BeaconRecord(BeaconObservation(p.observedAt, p.target, slot.value, a.headSlot, a.headRoot, a.finalizedEpoch))
  }

  /** A cancelled poll records nothing. */
  predicate IsRecorded(p: Poll) {
    !p.reply.Cancelled? && p.taken
  }

  /** What the comparator is told. */
  function HeadOf(o: BeaconObservation): Comparison.Observation {
    Comparison.Observation(o.timestamp, o.target.text, o.headSlot, o.headRoot.text)
  }

  /** A poll whose observation is recorded; nothing else reaches the comparator. */
  predicate IsObserved(n: Network, p: Poll) {
    IsRecorded(p) && RecordOf(n, p).BeaconRecord?
  }

  /** What the comparator makes of a poll; an observer of a single target has none. */
  ghost function Compared(
    c: Option<Comparison.Setup>, slots: Comparison.Slots, n: Network, p: Poll): Comparison.Stepped
  {
    if c.None? || !IsObserved(n, p) then Comparison.Stepped(slots, None)
    else Comparison.Step(c.value, slots, HeadOf(RecordOf(n, p).observation))
  }

  /** What a poll adds to the dataset. */
  function AddPoll(d: Dataset, n: Network, p: Poll, comparison: Option<Comparison.HeadComparison>): Dataset {
    if !IsRecorded(p) then d
    else if comparison.Some? && p.comparisonTaken then Add(Add(d, RecordOf(n, p)), ComparisonRecord(comparison.value))
    else Add(d, RecordOf(n, p))
  }

  method RecordGap(failure: PollFailure, taken: bool, recorder: DatasetRecorder)
    modifies recorder
    ensures recorder.gaps == old(recorder.gaps) + if taken then [failure] else []
    ensures recorder.View() == old(recorder.View()).(gaps := recorder.gaps)
    ensures recorder.changed <==> taken || old(recorder.changed)
  {
    if taken {
      recorder.RecordPollFailure(failure);
    }
  }

  ghost function SetupOf(comparator: Comparison.HeadComparator?): Option<Comparison.Setup> {
    if comparator == null then None else Some(Comparison.Setup(comparator.targets, comparator.historyLimit))
  }

  ghost function SlotsOf(comparator: Comparison.HeadComparator?): Comparison.Slots
    reads comparator
  {
    if comparator == null then map[] else comparator.slots
  }

  method PollAndRecord(n: Network, p: Poll, recorder: DatasetRecorder, comparator: Comparison.HeadComparator?)
    returns (failed: bool)
    modifies recorder, comparator
    ensures var after := Compared(SetupOf(comparator), old(SlotsOf(comparator)), n, p);
            && recorder.View() == AddPoll(old(recorder.View()), n, p, after.comparison)
            && SlotsOf(comparator) == after.slots
            && (failed <==>
                  !p.reply.Cancelled? && (!p.taken || (after.comparison.Some? && !p.comparisonTaken)))
    ensures recorder.changed <==> (p.taken && !p.reply.Cancelled?) || old(recorder.changed)
  {
    if p.reply.Cancelled? {
      return false;
    }
    failed := !p.taken;
    if p.reply.PollFailed? {
      RecordGap(PollFailure(p.observedAt, p.target, "beacon_poll"), p.taken, recorder);
      return;
    }
    var currentSlot := S.CurrentSlotAt(UnixSeconds(p.observedAt), n.genesisTime, n.secondsPerSlot, n.genesisSlot);
    if currentSlot.Err? {
      RecordGap(PollFailure(p.observedAt, p.target, "calculate_current_slot"), p.taken, recorder);
      return;
    }
    var a := p.reply.answer;
    var lag := S.FinalityLag(currentSlot.value, a.finalizedEpoch, n.slotsPerEpoch);
    if lag.Err? {
      RecordGap(PollFailure(p.observedAt, p.target, "calculate_finality_lag"), p.taken, recorder);
      return;
    }
    if !p.taken {
      return;
    }
    recorder.RecordBeacon(
      BeaconObservation(p.observedAt, p.target, currentSlot.value, a.headSlot, a.headRoot, a.finalizedEpoch));
    if comparator != null {
      failed := CompareAndRecord(n, p, recorder, comparator);
    }
  }

  /** The comparison of a recorded observation. */
  method CompareAndRecord(n: Network, p: Poll, recorder: DatasetRecorder, comparator: Comparison.HeadComparator)
    returns (failed: bool)
    requires IsObserved(n, p)
    modifies recorder, comparator
    ensures var after := Compared(SetupOf(comparator), old(comparator.slots), n, p);
            && comparator.slots == after.slots && (failed <==> after.comparison.Some? && !p.comparisonTaken)
            && recorder.View() == if after.comparison.None? || failed then old(recorder.View())
                                  else Add(old(recorder.View()), ComparisonRecord(after.comparison.value))
    ensures recorder.changed <==> old(recorder.changed) || recorder.View() != old(recorder.View())
  {
    var o := RecordOf(n, p).observation;
    var comparison := comparator.Observe(o.timestamp, o.target.text, o.headSlot, o.headRoot.text);
    if comparison.Some? {
      if !p.comparisonTaken {
        return true;
      }
      recorder.RecordHeadComparison(comparison.value);
    }
    failed := false;
  }

  // ---------- A run of polls ----------

  /** The observations of a run, whatever the order in which the targets' polls are interleaved. */
  function Observations(n: Network, polls: seq<Poll>): seq<BeaconObservation> {
    if polls == [] then [] else
    var before, last := Observations(n, polls[..|polls| - 1]), polls[|polls| - 1];
    if IsObserved(n, last) then before + [RecordOf(n, last).observation] else before
  }

  /** The recorder and the comparator together. */
  datatype Observer = Observer(dataset: Dataset, slots: Comparison.Slots)

  /** What the polls of a run leave behind, one after the other. */
  ghost function ObserverAfter(c: Option<Comparison.Setup>, start: Dataset, n: Network, polls: seq<Poll>): Observer {
    if polls == [] then Observer(start, map[]) else
    var before, last := ObserverAfter(c, start, n, polls[..|polls| - 1]), polls[|polls| - 1];
    var after := Compared(c, before.slots, n, last);
    Observer(AddPoll(before.dataset, n, last, after.comparison), after.slots)
  }

  /** What the comparator is told during a run. */
  function Heads(n: Network, polls: seq<Poll>): seq<Comparison.Observation> {
    if polls == [] then [] else
    var before, last := Heads(n, polls[..|polls| - 1]), polls[|polls| - 1];
    if IsObserved(n, last) then before + [HeadOf(RecordOf(n, last).observation)] else before
  }

  /** The comparison that a complete history calls for, if its slot is among the greatest seen before. */
  ghost function CalledFor(c: Comparison.Setup, history: seq<Comparison.Observation>, o: Comparison.Observation)
    : Option<Comparison.HeadComparison>
  {
    if o.slot in Comparison.Greatest(c.historyLimit, Comparison.SlotsSeen(history)) then
      Comparison.Expected(c, history, o)
    else None
  }

  /** The comparisons that a complete history of a run calls for and that the recorder takes. */
  ghost function Comparisons(c: Comparison.Setup, n: Network, polls: seq<Poll>): seq<Comparison.HeadComparison> {
    if polls == [] then [] else
    var init, last := polls[..|polls| - 1], polls[|polls| - 1];
    Comparisons(c, n, init)
    + if !IsObserved(n, last) || !last.comparisonTaken then []
      else ListOf(CalledFor(c, Heads(n, init), HeadOf(RecordOf(n, last).observation)))
  }

  function ListOf<T>(x: Option<T>): seq<T> {
    if x.Some? then [x.value] else []
  }

  lemma {:induction false} HeadsStep(n: Network, polls: seq<Poll>)
    requires polls != []
    ensures var init, last := polls[..|polls| - 1], polls[|polls| - 1];
            Heads(n, polls) ==
              Heads(n, init) + if IsObserved(n, last) then [HeadOf(RecordOf(n, last).observation)] else []
  {
  }

  lemma {:induction false} EmittedIsCalledFor(c: Comparison.Setup, n: Network, polls: seq<Poll>)
    requires polls != [] && IsObserved(n, polls[|polls| - 1])
    requires Comparison.ValidSetup(c) && Comparison.FromTargets(c, Heads(n, polls))
    ensures var init, last := polls[..|polls| - 1], polls[|polls| - 1];
            var o, slots := HeadOf(RecordOf(n, last).observation), Comparison.SlotsAfter(c, Heads(n, init));
            && Comparison.Step(c, slots, o).comparison == CalledFor(c, Heads(n, init), o)
            && Comparison.Step(c, slots, o).slots == Comparison.SlotsAfter(c, Heads(n, polls))
  {
    var init, last := polls[..|polls| - 1], polls[|polls| - 1];
    var history, o := Heads(n, init), HeadOf(RecordOf(n, last).observation);
    HeadsStep(n, polls);
    Comparison.EmitsExpected(c, history, o);
    assert (history + [o])[..|history|] == history;
  }

  lemma {:induction false} AddPollParts(d: Dataset, n: Network, p: Poll, comparison: Option<Comparison.HeadComparison>)
    requires comparison.Some? ==> IsObserved(n, p)
    ensures AddPoll(d, n, p, comparison).beacon ==
              d.beacon + if IsObserved(n, p) then [RecordOf(n, p).observation] else []
    ensures AddPoll(d, n, p, comparison).headComparisons ==
              d.headComparisons + if p.comparisonTaken then ListOf(comparison) else []
  {
  }

  /** On every run the dataset holds exactly the observations of the polls, and exactly the comparisons that a
      complete history calls for while their slots are retained, as far as they were taken. */
  lemma {:induction false} RunIsRecorded(c: Option<Comparison.Setup>, start: Dataset, n: Network, polls: seq<Poll>)
    requires c.Some? ==> Comparison.ValidSetup(c.value) && Comparison.FromTargets(c.value, Heads(n, polls))
    ensures var d := ObserverAfter(c, start, n, polls).dataset;
            && d.beacon == start.beacon + Observations(n, polls)
            && d.headComparisons == start.headComparisons + if c.Some? then Comparisons(c.value, n, polls) else []
    ensures c.Some? ==>
              ObserverAfter(c, start, n, polls).slots == Comparison.SlotsAfter(c.value, Heads(n, polls))
  {
    if polls != [] {
      var init, last := polls[..|polls| - 1], polls[|polls| - 1];
      HeadsStep(n, polls);
      RunIsRecorded(c, start, n, init);
      var before := ObserverAfter(c, start, n, init);
      AddPollParts(before.dataset, n, last, Compared(c, before.slots, n, last).comparison);
      if c.Some? && IsObserved(n, last) {
        EmittedIsCalledFor(c.value, n, polls);
      }
    }
  }

  // ---------- What a poll leaves behind ----------

  /** Slots are counted from the genesis slot, each of the configured seconds; times count nanoseconds from the
      first of January of the year one. */
  ghost predicate InSlot(n: Network, timestamp: nat, slot: U64) {
    && n.secondsPerSlot > 0 && slot >= n.genesisSlot
    && var unix := timestamp / 1_000_000_000 - 62_135_596_800;
    && n.genesisTime + (slot - n.genesisSlot) * n.secondsPerSlot <= unix
    && unix < n.genesisTime + (slot - n.genesisSlot + 1) * n.secondsPerSlot
  }

  ghost predicate HasSlot(n: Network, timestamp: nat) {
    exists slot: U64 :: InSlot(n, timestamp, slot)
  }

  /** The finalized epoch has begun in the slot of the time. */
  ghost predicate FinalityBegun(n: Network, timestamp: nat, finalizedEpoch: U64) {
    n.slotsPerEpoch > 0 && exists slot: U64 :: InSlot(n, timestamp, slot) && finalizedEpoch * n.slotsPerEpoch <= slot
  }

  /** The failure that a poll leaves behind, from its reply and its time. */
  ghost function FailureOf(n: Network, p: Poll): seq<PollFailure> {
    if !p.taken then [] else
    match p.reply
    case Cancelled => []
    case PollFailed => [PollFailure(p.observedAt, p.target, "beacon_poll")]
    case Answered(a) =>
      if !HasSlot(n, p.observedAt) then [PollFailure(p.observedAt, p.target, "calculate_current_slot")]
      else if !FinalityBegun(n, p.observedAt, a.finalizedEpoch) then
        [PollFailure(p.observedAt, p.target, "calculate_finality_lag")]
      else []
  }

  /** The poll was answered with this head and this finality, in this slot. */
  ghost predicate Shows(n: Network, p: Poll, o: BeaconObservation) {
    && p.taken && p.reply.Answered? && o.timestamp == p.observedAt && o.target == p.target
    && InSlot(n, p.observedAt, o.currentSlot) && FinalityBegun(n, p.observedAt, p.reply.answer.finalizedEpoch)
    && o.headSlot == p.reply.answer.headSlot && o.headRoot == p.reply.answer.headRoot
    && o.finalizedEpoch == p.reply.answer.finalizedEpoch
  }

  /** An answered poll that is taken leaves a failure or shows an observation. */
  ghost predicate ShowsSomething(n: Network, p: Poll) {
    p.taken && p.reply.Answered? && FailureOf(n, p) == []
  }

  ghost function FailuresOf(n: Network, polls: seq<Poll>): seq<PollFailure> {
    if polls == [] then [] else FailuresOf(n, polls[..|polls| - 1]) + FailureOf(n, polls[|polls| - 1])
  }

  /** The observations are those that the polls show, in order. */
  ghost predicate Shown(n: Network, polls: seq<Poll>, os: seq<BeaconObservation>) {
    if polls == [] then os == [] else
    var init, last := polls[..|polls| - 1], polls[|polls| - 1];
    if ShowsSomething(n, last) then os != [] && Shows(n, last, os[|os| - 1]) && Shown(n, init, os[..|os| - 1])
    else Shown(n, init, os)
  }

  lemma {:induction false} SlotMeaning(n: Network, timestamp: nat)
    ensures SlotAt(n, timestamp).Ok? <==> HasSlot(n, timestamp)
    ensures forall slot: U64 :: InSlot(n, timestamp, slot) <==> SlotAt(n, timestamp) == Ok(slot)
  {
    var unix := UnixSeconds(timestamp);
    S.CurrentSlotContains(unix, n.genesisTime, n.secondsPerSlot, n.genesisSlot);
    forall slot: U64 ensures InSlot(n, timestamp, slot) <==> SlotAt(n, timestamp) == Ok(slot) {
      if InSlot(n, timestamp, slot) {
        S.SlotContains(unix - n.genesisTime, n.secondsPerSlot, slot - n.genesisSlot);
        OnlySlot(unix - n.genesisTime, n.secondsPerSlot, slot - n.genesisSlot);
      }
    }
  }

  lemma {:induction false} OnlySlot(elapsed: nat, secondsPerSlot: nat, k: nat)
    requires secondsPerSlot > 0 && k * secondsPerSlot <= elapsed < (k + 1) * secondsPerSlot
    ensures elapsed / secondsPerSlot == k
  {
    S.SlotContains(elapsed, secondsPerSlot, k);
    if k > 0 {
      S.SlotContains(elapsed, secondsPerSlot, k - 1);
    }
  }

  /** A poll's record is the failure it leaves behind, or the observation it shows. */
  lemma {:induction false} PollMeaning(n: Network, p: Poll)
    ensures IsObserved(n, p) <==> ShowsSomething(n, p)
    ensures IsObserved(n, p) ==> Shows(n, p, RecordOf(n, p).observation)
    ensures IsRecorded(p) && !IsObserved(n, p) ==>
              RecordOf(n, p).GapRecord? && FailureOf(n, p) == [RecordOf(n, p).failure]
    ensures IsObserved(n, p) || !IsRecorded(p) ==> FailureOf(n, p) == []
  {
    SlotMeaning(n, p.observedAt);
  }

  /** A poll adds its failure or the observation it shows, and touches no spec. */
  ghost predicate Adds(n: Network, p: Poll, d: Dataset, e: Dataset) {
    && e.specs == d.specs && e.genesis == d.genesis && e.gaps == d.gaps + FailureOf(n, p)
    && if ShowsSomething(n, p) then exists o :: Shows(n, p, o) && e.beacon == d.beacon + [o] else e.beacon == d.beacon
  }

  lemma {:induction false} AddMeaning(d: Dataset, n: Network, p: Poll, comparison: Option<Comparison.HeadComparison>)
    ensures Adds(n, p, d, AddPoll(d, n, p, comparison))
  {
    PollMeaning(n, p);
    if IsObserved(n, p) {
      assert Shows(n, p, RecordOf(n, p).observation);
    }
  }

  lemma {:induction false} ShownStep(n: Network, init: seq<Poll>, last: Poll, start: Dataset, d: Dataset, e: Dataset,
                                     os: seq<BeaconObservation>)
    requires Shown(n, init, os) && d.beacon == start.beacon + os && Adds(n, last, d, e)
    ensures exists longer :: Shown(n, init + [last], longer) && e.beacon == start.beacon + longer
  {
    var polls := init + [last];
    assert polls[..|polls| - 1] == init;
    if ShowsSomething(n, last) {
      var o :| Shows(n, last, o) && e.beacon == d.beacon + [o];
      assert (os + [o])[..|os + [o]| - 1] == os;
      assert Shown(n, polls, os + [o]);
    } else {
      assert Shown(n, polls, os);
    }
  }

  /** On every run of polls the gaps are exactly the failures of the taken polls, in order, the new observations
      are exactly those that the polls show, and the specs stay as they were. */
  lemma {:induction false} RunMeaning(c: Option<Comparison.Setup>, start: Dataset, n: Network, polls: seq<Poll>)
    ensures ObserverAfter(c, start, n, polls).dataset.gaps == start.gaps + FailuresOf(n, polls)
    ensures exists os :: Shown(n, polls, os) && ObserverAfter(c, start, n, polls).dataset.beacon == start.beacon + os
    ensures ObserverAfter(c, start, n, polls).dataset.specs == start.specs
    ensures ObserverAfter(c, start, n, polls).dataset.genesis == start.genesis
  {
    if polls == [] {
      assert Shown(n, polls, []) && start.beacon == start.beacon + [];
    } else {
      var init, last := polls[..|polls| - 1], polls[|polls| - 1];
      RunMeaning(c, start, n, init);
      var before, after := ObserverAfter(c, start, n, init), ObserverAfter(c, start, n, polls);
      AddMeaning(before.dataset, n, last, Compared(c, before.slots, n, last).comparison);
      assert polls == init + [last];
      var os :| Shown(n, init, os) && before.dataset.beacon == start.beacon + os;
      ShownStep(n, init, last, start, before.dataset, after.dataset, os);
    }
  }

  /** A target's polls follow each other, and its clock does not go back between them. */
  ghost predicate ClockForward(polls: seq<Poll>, target: Name) {
    forall i, j :: 0 <= i < j < |polls| && polls[i].target == polls[j].target == target ==>
      polls[i].observedAt <= polls[j].observedAt
  }

  /** An observation carries the slot that contains its timestamp, and no finality from the future. */
  ghost predicate Stamped(n: Network, o: BeaconObservation) {
    && SlotAt(n, o.timestamp) == Ok(o.currentSlot)
    && o.finalizedEpoch * n.slotsPerEpoch <= o.currentSlot
  }

  lemma {:induction false} RecordStamped(n: Network, p: Poll)
    ensures RecordOf(n, p).BeaconRecord? ==>
              var o := RecordOf(n, p).observation;
              Stamped(n, o) && o.target == p.target && o.timestamp == p.observedAt
  {
  }

  /** Every observation of a run is stamped, and a target's observations are recorded in the order of time. */
  lemma {:induction false} RunStamped(n: Network, polls: seq<Poll>, target: Name)
    requires ClockForward(polls, target)
    ensures forall o :: o in Observations(n, polls) ==> Stamped(n, o)
    ensures forall o :: o in Observations(n, polls) && o.target == target ==>
              exists i :: 0 <= i < |polls| && polls[i].target == target && polls[i].observedAt == o.timestamp
    ensures TimesInOrder(Observations(n, polls), target)
  {
    if polls != [] {
      var init, p := polls[..|polls| - 1], polls[|polls| - 1];
      RunStamped(n, init, target);
      RecordStamped(n, p);
      var before := Observations(n, init);
      forall o | o in before && o.target == target
        ensures exists i :: 0 <= i < |polls| && polls[i].target == target && polls[i].observedAt == o.timestamp
        ensures p.target == target ==> o.timestamp <= p.observedAt
      {
        var i :| 0 <= i < |init| && init[i].target == target && init[i].observedAt == o.timestamp;
        assert polls[i] == init[i];
      }
    }
  }

  ghost predicate TimesInOrder(observations: seq<BeaconObservation>, target: Name) {
    forall i, j ::
      0 <= i < j < |observations| && observations[i].target == target && observations[j].target == target ==>
      observations[i].timestamp <= observations[j].timestamp
  }

  /** Stamped observations of a later time are of no earlier slot. */
  lemma {:induction false} StampedInOrder(n: Network, o: BeaconObservation, p: BeaconObservation)
    requires Stamped(n, o) && Stamped(n, p) && o.timestamp <= p.timestamp
    ensures o.currentSlot <= p.currentSlot
  {
    S.QuotientOrder(o.timestamp, p.timestamp, S.SECOND);
    S.SlotsFollowTime(UnixSeconds(o.timestamp), UnixSeconds(p.timestamp), n.genesisTime, n.secondsPerSlot,
                      n.genesisSlot);
  }

  /** On every run of polls a target's observations are in slot order, both as recorded and by time. */
  lemma {:induction false} RunInSlotOrder(n: Network, polls: seq<Poll>, target: Name)
    requires ClockForward(polls, target)
    ensures SlotsInOrder(Observations(n, polls), target) && SlotsRespectTime(Observations(n, polls), target)
  {
    var os := Observations(n, polls);
    RunStamped(n, polls, target);
    forall i, j | 0 <= i < j < |os| && os[i].target == target && os[j].target == target
      ensures os[i].currentSlot <= os[j].currentSlot
    {
      StampedInOrder(n, os[i], os[j]);
    }
    forall o, p | o in os && p in os && o.target == p.target == target && o.timestamp <= p.timestamp
      ensures o.currentSlot <= p.currentSlot
    {
      StampedInOrder(n, o, p);
    }
  }

  /** On every run of polls the recovery of a target is the least distance from the removal slot among all
      its observations that show recovery. */
  lemma {:induction false} RecoveryIsLeast(n: Network, polls: seq<Poll>, target: Name, endEpoch: U64, removedAt: nat,
                                           removalSlot: U64, recovery: Option<U64>)
    requires ClockForward(polls, target)
    requires IsRecovery(Observations(n, polls), target, endEpoch, removedAt, removalSlot, recovery)
    ensures recovery.Some? ==>
              forall o :: o in Observations(n, polls) && ShowsRecovery(o, target, endEpoch, removedAt, removalSlot) ==>
                removalSlot + recovery.value <= o.currentSlot
  {
    RunInSlotOrder(n, polls, target);
  }
}
