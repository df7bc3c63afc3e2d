/** A fault run whose recovery wait is ended by finality that moved on before the removal. */
module EarlyFinality {
  import opened Common
  import opened Recorder
  import opened Measurement
  import opened Waits
  import L = Lifecycle
  import P = Polling
  import S = Slots
  import C = HeadComparison

  /** Twelve seconds a slot, thirty-two slots an epoch. */
  const NETWORK := P.Network(12, 0, 12, 32)

  const CONSTANTS := Spec(12, 32, map[Name("ALTAIR_FORK_EPOCH") := Name("0")])

  function Zeros(n: nat): string {
    if n == 0 then "" else Zeros(n - 1) + "0"
  }

  const ROOT := Root("0x" + Zeros(64))

  const GENESIS := Genesis(12, 0, ROOT.text, "0x00000000")

  // ---------- What is observed ----------

  /** A moment of a slot, in nanoseconds. */
  function Moment(slot: nat, k: nat): nat {
    (P.UNIX_EPOCH + 12 + 12 * slot) * S.SECOND + k
  }

  /** A target's head stays in one slot. */
  function SeenBy(t: Name, slot: U64, k: nat, epoch: U64, heads: map<Name, U64>): BeaconObservation {
    BeaconObservation(Moment(slot, k), t, slot, if t in heads then heads[t] else 0, ROOT, epoch)
  }

  /** One observation of every target. */
  function SeeAll(
    targets: seq<Name>, slot: U64, k: nat, epoch: U64, heads: map<Name, U64>): (os: seq<BeaconObservation>)
    ensures |os| == |targets| && forall i :: 0 <= i < |targets| ==> os[i] == SeenBy(targets[i], slot, k, epoch, heads)
  {
    seq(|targets|, i requires 0 <= i < |targets| => SeenBy(targets[i], slot, k, epoch, heads))
  }

  /** Everything in `before` was observed of the targets and before the moment. */
  ghost predicate Before(before: seq<BeaconObservation>, targets: seq<Name>, time: nat) {
    forall o :: o in before ==> o.target in targets && o.timestamp < time
  }

  lemma {:induction false} RoundMembers(targets: seq<Name>, slot: U64, k: nat, epoch: U64, heads: map<Name, U64>)
    ensures forall o: BeaconObservation ::
              o in SeeAll(targets, slot, k, epoch, heads) <==>
              o.target in targets && o == SeenBy(o.target, slot, k, epoch, heads)
  {
    var os := SeeAll(targets, slot, k, epoch, heads);
    forall o: BeaconObservation | o.target in targets && o == SeenBy(o.target, slot, k, epoch, heads) ensures o in os {
      var i :| 0 <= i < |targets| && targets[i] == o.target;
      assert os[i] == o;
    }
  }

  /** After a round every target's latest observation is the one of the round. */
  lemma {:induction false} LatestOfRound(before: seq<BeaconObservation>, targets: seq<Name>, slot: U64, k: nat,
                                         epoch: U64, heads: map<Name, U64>)
    requires Before(before, targets, Moment(slot, k)) && Distinct(targets)
    ensures var latest := Latest(before + SeeAll(targets, slot, k, epoch, heads));
            && latest.Keys == Elements(targets) && |latest| == |targets|
            && forall t :: t in targets ==> latest[t] == SeenBy(t, slot, k, epoch, heads)
  {
    var os := before + SeeAll(targets, slot, k, epoch, heads);
    RoundMembers(targets, slot, k, epoch, heads);
    LatestIsLatest(os);
    DistinctSize(targets);
    forall t | t in targets ensures t in Latest(os) && Latest(os)[t] == SeenBy(t, slot, k, epoch, heads) {
      assert SeenBy(t, slot, k, epoch, heads) in os;
    }
    assert Latest(os).Keys == Elements(targets) && |Latest(os).Keys| == |Latest(os)|;
  }

  lemma {:induction false} AtSlotOfRound(before: seq<BeaconObservation>, targets: seq<Name>, slot: U64, k: nat,
                                         epoch: U64, heads: map<Name, U64>)
    requires Before(before, targets, Moment(slot, k))
    ensures forall t :: t in targets ==>
              AtSlot(before + SeeAll(targets, slot, k, epoch, heads), t, slot) == Some(SeenBy(t, slot, k, epoch, heads))
  {
    var os := before + SeeAll(targets, slot, k, epoch, heads);
    RoundMembers(targets, slot, k, epoch, heads);
    forall t | t in targets ensures AtSlot(os, t, slot) == Some(SeenBy(t, slot, k, epoch, heads)) {
      AtSlotIsLatest(os, t, slot);
      assert SeenBy(t, slot, k, epoch, heads) in os && Matches(SeenBy(t, slot, k, epoch, heads), t, slot);
    }
  }

  lemma {:induction false} SeenIsStamped(t: Name, slot: U64, k: nat, epoch: U64, heads: map<Name, U64>)
    requires k < S.SECOND && slot < 1000 && epoch * 32 <= slot
    ensures P.Stamped(NETWORK, SeenBy(t, slot, k, epoch, heads))
  {
    assert Moment(slot, k) / S.SECOND == P.UNIX_EPOCH + 12 + 12 * slot;
    assert P.UnixSeconds(Moment(slot, k)) == 12 + 12 * slot;
    assert (12 * slot) / 12 == slot;
  }

  // ---------- What is recorded ----------

  function SpecRecords(targets: seq<Name>): seq<Record> {
    if targets == [] then []
    else SpecRecords(targets[..|targets| - 1]) + [SpecRecord(targets[|targets| - 1], CONSTANTS, GENESIS)]
  }

  function BeaconRecords(os: seq<BeaconObservation>): seq<Record> {
    if os == [] then [] else BeaconRecords(os[..|os| - 1]) + [BeaconRecord(os[|os| - 1])]
  }

  lemma {:induction false} RecordAdded(log: seq<Record>, r: Record)
    ensures DatasetOf(log + [r]) == Add(DatasetOf(log), r)
  {
    assert (log + [r])[..|log|] == log;
  }

  lemma {:induction false} AddedLast(d: Dataset, os: seq<BeaconObservation>)
    requires os != []
    ensures Add(d.(beacon := d.beacon + os[..|os| - 1]), BeaconRecord(os[|os| - 1])) == d.(beacon := d.beacon + os)
  {
    assert d.beacon + os == d.beacon + os[..|os| - 1] + [os[|os| - 1]];
  }

  lemma {:induction false} BeaconRecorded(log: seq<Record>, os: seq<BeaconObservation>)
    ensures DatasetOf(log + BeaconRecords(os)) == DatasetOf(log).(beacon := DatasetOf(log).beacon + os)
  {
    if os == [] {
      assert log + BeaconRecords(os) == log;
    } else {
      var init, last := os[..|os| - 1], os[|os| - 1];
      BeaconRecorded(log, init);
      RecordAdded(log + BeaconRecords(init), BeaconRecord(last));
      assert log + BeaconRecords(os) == log + BeaconRecords(init) + [BeaconRecord(last)];
      AddedLast(DatasetOf(log), os);
    }
  }

  /** The constants of the targets and nothing else. */
  ghost predicate OnlySpecs(d: Dataset, targets: seq<Name>) {
    && d.specs == (map t | t in targets :: CONSTANTS) && d.beacon == [] && d.headComparisons == [] && d.gaps == []
  }

  lemma {:induction false} OneMoreSpec(d: Dataset, targets: seq<Name>)
    requires targets != [] && OnlySpecs(d, targets[..|targets| - 1])
    ensures OnlySpecs(Add(d, SpecRecord(targets[|targets| - 1], CONSTANTS, GENESIS)), targets)
  {
    assert targets == targets[..|targets| - 1] + [targets[|targets| - 1]];
  }

  lemma {:induction false} SpecsRecorded(targets: seq<Name>)
    ensures OnlySpecs(DatasetOf(SpecRecords(targets)), targets)
  {
    if targets != [] {
      var init, last := targets[..|targets| - 1], targets[|targets| - 1];
      SpecsRecorded(init);
      OneMoreSpec(DatasetOf(SpecRecords(init)), targets);
      RecordAdded(SpecRecords(init), SpecRecord(last, CONSTANTS, GENESIS));
    }
  }

  lemma {:induction false} SpecsFit(targets: seq<Name>, all: seq<Name>)
    requires forall t :: t in targets ==> t in all
    ensures forall r :: r in SpecRecords(targets) ==> RecordFits(r, all)
  {
    if targets != [] {
      SpecsFit(targets[..|targets| - 1], all);
    }
  }

  lemma {:induction false} BeaconFits(os: seq<BeaconObservation>, all: seq<Name>)
    requires forall o :: o in os ==> o.target in all
    ensures forall r :: r in BeaconRecords(os) ==> RecordFits(r, all)
  {
    if os != [] {
      BeaconFits(os[..|os| - 1], all);
    }
  }

  // ---------- The recorder's events ----------

  ghost function Logging(records: seq<Record>): seq<Event> {
    if records == [] then []
    else Logging(records[..|records| - 1]) + [Append(0, records[|records| - 1]), Notify(0)]
  }

  ghost function Waiting(goal: Goal, targets: seq<Name>): seq<Event>
    requires targets != []
  {
    [Begin(d => Meets(goal, targets, d)), Snapshot, Test]
  }

  /** Nothing is under way, and this is the log. */
  ghost predicate Calm(events: seq<Event>, log: seq<Record>) {
    After(events).waiter.Idle? && After(events).pending == map[] && After(events).log == log
  }

  lemma {:induction false} AfterLogging(events: seq<Event>, log: seq<Record>, records: seq<Record>)
    requires Calm(events, log)
    ensures Calm(events + Logging(records), log + records)
  {
    if records == [] {
      assert events + Logging(records) == events && log + records == log;
    } else {
      var init, last := records[..|records| - 1], records[|records| - 1];
      var before := events + Logging(init);
      AfterLogging(events, log, init);
      AfterAppend(before, Append(0, last));
      AfterAppend(before + [Append(0, last)], Notify(0));
      assert before + [Append(0, last)] + [Notify(0)] == events + Logging(records);
      assert log + init + [last] == log + records;
    }
  }

  lemma {:induction false} AfterWaiting(events: seq<Event>, log: seq<Record>, goal: Goal, targets: seq<Name>,
                                        full: seq<Event>)
    requires targets != [] && Calm(events, log) && Meets(goal, targets, DatasetOf(log))
    requires events + Waiting(goal, targets) <= full
    ensures Calm(events + Waiting(goal, targets), log)
    ensures Answers(full, |events| + 2, targets, goal, DatasetOf(log))
  {
    var wait := Waiting(goal, targets);
    AfterAppend(events, wait[0]);
    AfterAppend(events + [wait[0]], Snapshot);
    AfterAppend(events + [wait[0]] + [Snapshot], Test);
    assert events + [wait[0]] + [Snapshot] + [Test] == events + wait;
    assert full[..|events| + 2] == events + [wait[0]] + [Snapshot];
    assert full[|events| + 2] == (events + wait)[|events| + 2] == Test;
  }

  lemma {:induction false} CalmIsRead(events: seq<Event>, log: seq<Record>, full: seq<Event>)
    requires Calm(events, log) && events <= full
    ensures Reads(full, |events|, DatasetOf(log))
  {
    assert full[..|events|] == events;
  }

  // ---------- The run ----------

  /** The targets are seen in the last slot of an epoch, in the first slot of the window, and twice in its last
      slot: finality moves on between these two. */
  function One(targets: seq<Name>, heads: map<Name, U64>): seq<BeaconObservation> {
    [] + SeeAll(targets, 223, 0, 5, heads)
  }

  function Two(targets: seq<Name>, heads: map<Name, U64>): seq<BeaconObservation> {
    One(targets, heads) + SeeAll(targets, 224, 0, 5, heads)
  }

  function Three(targets: seq<Name>, heads: map<Name, U64>): seq<BeaconObservation> {
    Two(targets, heads) + SeeAll(targets, 320, 4, 7, heads)
  }

  function Four(targets: seq<Name>, heads: map<Name, U64>): seq<BeaconObservation> {
    Three(targets, heads) + SeeAll(targets, 320, 5, 8, heads)
  }

  function LogWith(targets: seq<Name>, os: seq<BeaconObservation>): seq<Record> {
    SpecRecords(targets) + BeaconRecords(os)
  }

  function DataOf(targets: seq<Name>, os: seq<BeaconObservation>): Dataset {
    DatasetOf(LogWith(targets, os))
  }

  /** Everything goes well. The fault is removed right after the second look at the last slot. */
  function TheEnv(targets: seq<Name>, heads: map<Name, U64>): L.Env {
    var one, four := DataOf(targets, One(targets, heads)), DataOf(targets, Four(targets, heads));
    L.Env(true, true, true, Some(L.Timing(32, 12)), Some(one), true, one, Some(DataOf(targets, Two(targets, heads))),
          Some(DataOf(targets, Three(targets, heads))), true, Moment(320, 6), four, L.Satisfied(four), true, true, four,
          true, true, true, true)
  }

  const WINDOW := L.RunWindow(224, 320, 320, true)

  lemma {:induction false} DataMeaning(targets: seq<Name>, os: seq<BeaconObservation>)
    ensures DataOf(targets, os).beacon == os
    ensures DataOf(targets, os).specs == map t | t in targets :: CONSTANTS
  {
    SpecsRecorded(targets);
    BeaconRecorded(SpecRecords(targets), os);
  }

  /** All observations could have been recorded. */
  ghost predicate AllStamped(os: seq<BeaconObservation>) {
    forall o :: o in os ==> P.Stamped(NETWORK, o)
  }

  lemma {:induction false} RoundAdded(before: seq<BeaconObservation>, targets: seq<Name>, slot: U64, k: nat,
                                        epoch: U64, heads: map<Name, U64>, time: nat)
    requires Before(before, targets, Moment(slot, k)) && Moment(slot, k) < time
    requires AllStamped(before) && k < S.SECOND && slot < 1000 && epoch * 32 <= slot
    ensures Before(before + SeeAll(targets, slot, k, epoch, heads), targets, time)
    ensures AllStamped(before + SeeAll(targets, slot, k, epoch, heads))
  {
    RoundMembers(targets, slot, k, epoch, heads);
    forall o | o in SeeAll(targets, slot, k, epoch, heads) ensures P.Stamped(NETWORK, o) {
      SeenIsStamped(o.target, slot, k, epoch, heads);
    }
  }

  lemma {:induction false} RoundsInOrder(targets: seq<Name>, heads: map<Name, U64>)
    ensures Before(One(targets, heads), targets, Moment(224, 0)) && Before(Two(targets, heads), targets, Moment(320, 4))
    ensures Before(Three(targets, heads), targets, Moment(320, 5))
    ensures Before(Four(targets, heads), targets, Moment(320, 6))
    ensures AllStamped(Four(targets, heads))
  {
    RoundAdded([], targets, 223, 0, 5, heads, Moment(224, 0));
    RoundAdded(One(targets, heads), targets, 224, 0, 5, heads, Moment(320, 4));
    RoundAdded(Two(targets, heads), targets, 320, 4, 7, heads, Moment(320, 5));
    RoundAdded(Three(targets, heads), targets, 320, 5, 8, heads, Moment(320, 6));
  }

  // ---------- What the run sees ----------

  lemma {:induction false} AfterOne(targets: seq<Name>, heads: map<Name, U64>)
    requires targets != [] && Distinct(targets)
    ensures |Latest(One(targets, heads))| == |targets| && CommonSlot(One(targets, heads), targets) == Some(223)
    ensures !Exceeds(One(targets, heads), targets, 223)
  {
    LatestOfRound([], targets, 223, 0, 5, heads);
    assert targets[0] in targets;
  }

  lemma {:induction false} AfterTwo(targets: seq<Name>, heads: map<Name, U64>)
    ensures SlotComplete(Two(targets, heads), targets, 224)
  {
    RoundsInOrder(targets, heads);
    AtSlotOfRound(One(targets, heads), targets, 224, 0, 5, heads);
  }

  lemma {:induction false} AfterThree(targets: seq<Name>, heads: map<Name, U64>)
    ensures SlotComplete(Three(targets, heads), targets, 320)
    ensures forall t :: t in targets ==> AtSlot(Three(targets, heads), t, 320) == Some(SeenBy(t, 320, 4, 7, heads))
  {
    RoundsInOrder(targets, heads);
    AtSlotOfRound(Two(targets, heads), targets, 320, 4, 7, heads);
  }

  function RecoveryEnds(targets: seq<Name>, heads: map<Name, U64>): map<Name, BeaconObservation> {
    AtSlotMap(Three(targets, heads), targets, 320)
  }

  /** The wait for the recovery is over: finality has moved on everywhere. */
  lemma {:induction false} AfterFour(targets: seq<Name>, heads: map<Name, U64>)
    requires targets != [] && Distinct(targets)
    ensures WaitOver(Four(targets, heads), targets, RecoveryEnds(targets, heads), 448)
    ensures RemovalSlot(Four(targets, heads), targets, 320) == 320
  {
    RoundsInOrder(targets, heads);
    AfterThree(targets, heads);
    LatestOfRound(Three(targets, heads), targets, 320, 5, 8, heads);
    var latest := Latest(Four(targets, heads));
    assert forall t :: t in latest ==> t in Elements(targets) && t in targets;
    HighestIsUnique(latest, 320, 320, RemovalSlot(Four(targets, heads), targets, 320));
  }

  // ---------- The recorder's history ----------

  ghost function LogStep(before: seq<Event>, os: seq<BeaconObservation>): seq<Event> {
    before + Logging(BeaconRecords(os))
  }

  lemma {:induction false} BeaconRecordsJoin(a: seq<BeaconObservation>, b: seq<BeaconObservation>)
    ensures BeaconRecords(a + b) == BeaconRecords(a) + BeaconRecords(b)
  {
    if b == [] {
      assert a + b == a;
    } else {
      assert (a + b)[..|a + b| - 1] == a + b[..|b| - 1];
      BeaconRecordsJoin(a, b[..|b| - 1]);
    }
  }

  /** More observations are logged. */
  lemma {:induction false} AfterStep(before: seq<Event>, specs: seq<Record>, a: seq<BeaconObservation>,
                                     b: seq<BeaconObservation>)
    requires Calm(before, specs + BeaconRecords(a))
    ensures Calm(LogStep(before, b), specs + BeaconRecords(a + b))
  {
    AfterLogging(before, specs + BeaconRecords(a), BeaconRecords(b));
    BeaconRecordsJoin(a, b);
    assert specs + BeaconRecords(a) + BeaconRecords(b) == specs + (BeaconRecords(a) + BeaconRecords(b));
  }

  ghost function WithWait(before: seq<Event>, goal: Goal, targets: seq<Name>): seq<Event>
    requires targets != []
  {
    before + Waiting(goal, targets)
  }

  ghost function SpecsLogged(targets: seq<Name>, heads: map<Name, U64>): seq<Event> {
    LogStep([] + Logging(SpecRecords(targets)), SeeAll(targets, 223, 0, 5, heads))
  }

  ghost function BoundarySeen(targets: seq<Name>, heads: map<Name, U64>): seq<Event>
    requires targets != []
  {
    WithWait(WithWait(SpecsLogged(targets, heads), SpecsAndHeads, targets), CommonAt(32, 31), targets)
  }

  ghost function StartLogged(targets: seq<Name>, heads: map<Name, U64>): seq<Event>
    requires targets != []
  {
    LogStep(BoundarySeen(targets, heads), SeeAll(targets, 224, 0, 5, heads))
  }

  ghost function EndLogged(targets: seq<Name>, heads: map<Name, U64>): seq<Event>
    requires targets != []
  {
    LogStep(WithWait(StartLogged(targets, heads), ExactSlot(224), targets), SeeAll(targets, 320, 4, 7, heads))
  }

  ghost function RemovalLogged(targets: seq<Name>, heads: map<Name, U64>): seq<Event>
    requires targets != []
  {
    LogStep(WithWait(EndLogged(targets, heads), ExactSlot(320), targets), SeeAll(targets, 320, 5, 8, heads))
  }

  ghost function FinalityGoal(targets: seq<Name>, heads: map<Name, U64>): Goal {
    RecoveryOrCensor(RecoveryEnds(targets, heads), 448)
  }

  /** All events of the run. */
  ghost function TheEvents(targets: seq<Name>, heads: map<Name, U64>): seq<Event>
    requires targets != []
  {
    WithWait(RemovalLogged(targets, heads), FinalityGoal(targets, heads), targets)
  }

  /** Calm again after a wait, which was answered with everything logged before. */
  ghost predicate AnsweredWait(before: seq<Event>, goal: Goal, targets: seq<Name>, log: seq<Record>, full: seq<Event>)
    requires targets != []
  {
    Calm(WithWait(before, goal, targets), log) && Answers(full, |before| + 2, targets, goal, DatasetOf(log))
  }

  lemma {:induction false} WaitIsAnswered(before: seq<Event>, goal: Goal, targets: seq<Name>,
                                          os: seq<BeaconObservation>, full: seq<Event>)
    requires targets != [] && Calm(before, LogWith(targets, os)) && Meets(goal, targets, DataOf(targets, os))
    requires WithWait(before, goal, targets) <= full
    ensures AnsweredWait(before, goal, targets, LogWith(targets, os), full)
  {
    AfterWaiting(before, LogWith(targets, os), goal, targets, full);
  }

  lemma {:induction false} ToBoundary(targets: seq<Name>, heads: map<Name, U64>, full: seq<Event>)
    requires targets != [] && Distinct(targets) && BoundarySeen(targets, heads) <= full
    ensures AnsweredWait(SpecsLogged(targets, heads), SpecsAndHeads, targets, LogWith(targets, One(targets, heads)),
                         full)
    ensures AnsweredWait(WithWait(SpecsLogged(targets, heads), SpecsAndHeads, targets), CommonAt(32, 31), targets,
                     LogWith(targets, One(targets, heads)), full)
  {
    var os := One(targets, heads);
    assert BeaconRecords([]) == [] && [] + SpecRecords(targets) == SpecRecords(targets) + [];
    AfterLogging([], [], SpecRecords(targets));
    AfterStep([] + Logging(SpecRecords(targets)), SpecRecords(targets), [], SeeAll(targets, 223, 0, 5, heads));
    AfterOne(targets, heads);
    DataMeaning(targets, os);
    SpecsCounted(targets);
    WaitIsAnswered(SpecsLogged(targets, heads), SpecsAndHeads, targets, os, full);
    WaitIsAnswered(WithWait(SpecsLogged(targets, heads), SpecsAndHeads, targets), CommonAt(32, 31), targets, os, full);
  }

  lemma {:induction false} SpecsCounted(targets: seq<Name>)
    requires Distinct(targets)
    ensures |map t | t in targets :: CONSTANTS| == |targets|
  {
    DistinctSize(targets);
    var m := map t | t in targets :: CONSTANTS;
    assert m.Keys == Elements(targets) && |m.Keys| == |m|;
  }

  lemma {:induction false} ToStart(targets: seq<Name>, heads: map<Name, U64>, full: seq<Event>)
    requires targets != [] && Calm(BoundarySeen(targets, heads), LogWith(targets, One(targets, heads)))
    requires WithWait(StartLogged(targets, heads), ExactSlot(224), targets) <= full
    ensures AnsweredWait(StartLogged(targets, heads), ExactSlot(224), targets, LogWith(targets, Two(targets, heads)),
                         full)
  {
    AfterStep(BoundarySeen(targets, heads), SpecRecords(targets), One(targets, heads),
              SeeAll(targets, 224, 0, 5, heads));
    AfterTwo(targets, heads);
    DataMeaning(targets, Two(targets, heads));
    WaitIsAnswered(StartLogged(targets, heads), ExactSlot(224), targets, Two(targets, heads), full);
  }

  lemma {:induction false} ToEnd(targets: seq<Name>, heads: map<Name, U64>, full: seq<Event>)
    requires targets != []
    requires Calm(WithWait(StartLogged(targets, heads), ExactSlot(224), targets), LogWith(targets, Two(targets, heads)))
    requires WithWait(EndLogged(targets, heads), ExactSlot(320), targets) <= full
    ensures AnsweredWait(EndLogged(targets, heads), ExactSlot(320), targets, LogWith(targets, Three(targets, heads)),
                         full)
  {
    AfterStep(WithWait(StartLogged(targets, heads), ExactSlot(224), targets), SpecRecords(targets), Two(targets, heads),
              SeeAll(targets, 320, 4, 7, heads));
    AfterThree(targets, heads);
    DataMeaning(targets, Three(targets, heads));
    WaitIsAnswered(EndLogged(targets, heads), ExactSlot(320), targets, Three(targets, heads), full);
  }

  lemma {:induction false} ToRecovery(targets: seq<Name>, heads: map<Name, U64>, full: seq<Event>)
    requires targets != [] && Distinct(targets)
    requires Calm(WithWait(EndLogged(targets, heads), ExactSlot(320), targets), LogWith(targets, Three(targets, heads)))
    requires TheEvents(targets, heads) <= full
    ensures Calm(RemovalLogged(targets, heads), LogWith(targets, Four(targets, heads)))
    ensures AnsweredWait(RemovalLogged(targets, heads), FinalityGoal(targets, heads), targets,
                         LogWith(targets, Four(targets, heads)), full)
  {
    AfterStep(WithWait(EndLogged(targets, heads), ExactSlot(320), targets), SpecRecords(targets), Three(targets, heads),
              SeeAll(targets, 320, 5, 8, heads));
    AfterFour(targets, heads);
    DataMeaning(targets, Four(targets, heads));
    WaitIsAnswered(RemovalLogged(targets, heads), FinalityGoal(targets, heads), targets, Four(targets, heads), full);
  }

  // ---------- The run succeeds ----------

  lemma {:induction false} TimingIsTwelve(targets: seq<Name>, os: seq<BeaconObservation>)
    requires targets != []
    ensures L.TimingOf(DataOf(targets, os), targets) == L.Timing(32, 12)
  {
    DataMeaning(targets, os);
    PermutationElements(SortNames(targets), targets);
    assert SortNames(targets)[0] in SortNames(targets);
  }

  lemma {:induction false} DurationsFit()
    ensures S.DeadmanTTL(3, 32, 12).Ok? && S.RuntimeDuration(12, S.Wrap(2 * 32)).Ok?
    ensures S.RuntimeDuration(12, S.Wrap(3 * 32 + 32)).Ok? && S.RuntimeDuration(12, S.Wrap(4 * 32 + 32)).Ok?
  {
  }

  lemma {:induction false} RunInjects(plan: L.Plan, env: L.Env)
    requires plan.targets != [] && plan.durationEpochs == 3 && env.boundary.Some? && env.applied && env.atStart.Some?
    requires CommonSlot(env.boundary.value.beacon, plan.targets) == Some(223)
    requires !Exceeds(env.afterApply.beacon, plan.targets, 223)
    ensures L.BoundarySlot(plan, env) == 223 && L.Injects(plan, env, L.Timing(32, 12))
  {
    DurationsFit();
  }

  lemma {:induction false} RunBegins(plan: L.Plan, targets: seq<Name>, heads: map<Name, U64>)
    requires targets != [] && Distinct(targets) && plan.isFault && plan.durationEpochs == 3 && plan.targets == targets
    ensures L.BoundarySlot(plan, TheEnv(targets, heads)) == 223 && L.Begins(plan, TheEnv(targets, heads))
  {
    DataMeaning(targets, One(targets, heads));
    AfterOne(targets, heads);
    DurationsFit();
    RunInjects(plan, TheEnv(targets, heads));
  }

  lemma {:induction false} RunFinishes(plan: L.Plan, targets: seq<Name>, heads: map<Name, U64>)
    requires targets != [] && Distinct(targets) && plan.isFault && plan.durationEpochs == 3 && plan.postFaultEpochs == 4
    requires plan.targets == targets
    ensures var t, env := L.Timing(32, 12), TheEnv(targets, heads);
            && L.Measures(plan, env, t, 224) && L.EndSlot(plan, t, 224) == 320
            && L.Recovers(plan, env, t, 320) && L.CensorSlot(plan, env, 320) == 448
            && L.Finishes(plan, env, t, 224)
    ensures RemovalSlot(TheEnv(targets, heads).afterRemoval.beacon, targets, 320) == 320
  {
    DataMeaning(targets, Four(targets, heads));
    AfterFour(targets, heads);
    DurationsFit();
  }

  lemma {:induction false} EnvSucceeds(plan: L.Plan, targets: seq<Name>, heads: map<Name, U64>)
    requires targets != [] && Distinct(targets) && plan.isFault && plan.durationEpochs == 3 && plan.postFaultEpochs == 4
    requires plan.targets == targets
    ensures L.RunSucceeds(plan, TheEnv(targets, heads)) && L.IsRunWindow(plan, TheEnv(targets, heads), WINDOW)
  {
    RunBegins(plan, targets, heads);
    RunFinishes(plan, targets, heads);
  }

  // ---------- The run is honest ----------

  ghost function TheHistory(targets: seq<Name>, heads: map<Name, U64>): L.History
    requires targets != []
  {
    L.History(TheEvents(targets, heads), |SpecsLogged(targets, heads)| + 2,
              |WithWait(SpecsLogged(targets, heads), SpecsAndHeads, targets)| + 2, |BoundarySeen(targets, heads)|,
              |StartLogged(targets, heads)| + 2, |EndLogged(targets, heads)| + 2, |RemovalLogged(targets, heads)|,
              |RemovalLogged(targets, heads)| + 2, |TheEvents(targets, heads)|)
  }

  lemma {:induction false} StagesArePrefixes(targets: seq<Name>, heads: map<Name, U64>)
    requires targets != []
    ensures BoundarySeen(targets, heads) <= TheEvents(targets, heads)
    ensures WithWait(StartLogged(targets, heads), ExactSlot(224), targets) <= TheEvents(targets, heads)
    ensures WithWait(EndLogged(targets, heads), ExactSlot(320), targets) <= TheEvents(targets, heads)
    ensures RemovalLogged(targets, heads) <= TheEvents(targets, heads)
    ensures L.StepsInOrder(TheHistory(targets, heads))
  {
    assert RemovalLogged(targets, heads) <= TheEvents(targets, heads);
    assert WithWait(EndLogged(targets, heads), ExactSlot(320), targets) <= RemovalLogged(targets, heads);
    assert EndLogged(targets, heads) <= WithWait(EndLogged(targets, heads), ExactSlot(320), targets);
    assert WithWait(StartLogged(targets, heads), ExactSlot(224), targets) <= EndLogged(targets, heads);
    assert StartLogged(targets, heads) <= WithWait(StartLogged(targets, heads), ExactSlot(224), targets);
    assert BoundarySeen(targets, heads) <= StartLogged(targets, heads);
  }

  /** What the recorder's protocol gives to the waits and reads of the run. */
  lemma {:induction false} AllAnswered(targets: seq<Name>, heads: map<Name, U64>)
    requires targets != [] && Distinct(targets)
    ensures var full := TheEvents(targets, heads);
            var one, two := LogWith(targets, One(targets, heads)), LogWith(targets, Two(targets, heads));
            var three, four := LogWith(targets, Three(targets, heads)), LogWith(targets, Four(targets, heads));
            && AnsweredWait(SpecsLogged(targets, heads), SpecsAndHeads, targets, one, full)
            && AnsweredWait(WithWait(SpecsLogged(targets, heads), SpecsAndHeads, targets), CommonAt(32, 31), targets,
                            one, full)
            && AnsweredWait(StartLogged(targets, heads), ExactSlot(224), targets, two, full)
            && AnsweredWait(EndLogged(targets, heads), ExactSlot(320), targets, three, full)
            && Calm(RemovalLogged(targets, heads), four)
            && AnsweredWait(RemovalLogged(targets, heads), FinalityGoal(targets, heads), targets, four, full)
  {
    var full := TheEvents(targets, heads);
    StagesArePrefixes(targets, heads);
    ToBoundary(targets, heads, full);
    ToStart(targets, heads, full);
    ToEnd(targets, heads, full);
    ToRecovery(targets, heads, full);
  }

  lemma {:induction false} LogFits(targets: seq<Name>, heads: map<Name, U64>)
    requires targets != [] && Calm(TheEvents(targets, heads), LogWith(targets, Four(targets, heads)))
    ensures AllFit(TheEvents(targets, heads), targets)
  {
    SpecsFit(targets, targets);
    RoundsInOrder(targets, heads);
    BeaconFits(Four(targets, heads), targets);
  }

  ghost predicate FaultPlan(plan: L.Plan, targets: seq<Name>) {
    && targets != [] && Distinct(targets) && plan.targets == targets
    && plan.isFault && plan.durationEpochs == 3 && plan.postFaultEpochs == 4
  }

  /** The answers at the steps of the history. */
  ghost predicate BeginAnswered(targets: seq<Name>, heads: map<Name, U64>)
    requires targets != []
  {
    var h, one := TheHistory(targets, heads), DataOf(targets, One(targets, heads));
    && Answers(h.events, h.specs, targets, SpecsAndHeads, one)
    && Answers(h.events, h.boundary, targets, CommonAt(32, 31), one) && Reads(h.events, h.applied, one)
    && Answers(h.events, h.start, targets, ExactSlot(224), DataOf(targets, Two(targets, heads)))
  }

  ghost predicate EndAnswered(targets: seq<Name>, heads: map<Name, U64>)
    requires targets != []
  {
    var h := TheHistory(targets, heads);
    Answers(h.events, h.end, targets, ExactSlot(320), DataOf(targets, Three(targets, heads)))
  }

  ghost predicate RemovalAnswered(targets: seq<Name>, heads: map<Name, U64>)
    requires targets != []
  {
    var h, four := TheHistory(targets, heads), DataOf(targets, Four(targets, heads));
    && Reads(h.events, h.removed, four) && Reads(h.events, h.stopped, four)
    && Answers(h.events, h.recovered, targets, FinalityGoal(targets, heads), four)
  }

  lemma {:induction false} AllRecorded(targets: seq<Name>, heads: map<Name, U64>)
    requires targets != [] && Distinct(targets)
    ensures L.StepsInOrder(TheHistory(targets, heads)) && AllFit(TheEvents(targets, heads), targets)
    ensures BeginAnswered(targets, heads) && EndAnswered(targets, heads) && RemovalAnswered(targets, heads)
  {
    StagesArePrefixes(targets, heads);
    AllAnswered(targets, heads);
    LogFits(targets, heads);
    CalmIsRead(BoundarySeen(targets, heads), LogWith(targets, One(targets, heads)), TheEvents(targets, heads));
    CalmIsRead(RemovalLogged(targets, heads), LogWith(targets, Four(targets, heads)), TheEvents(targets, heads));
    CalmIsRead(TheEvents(targets, heads), LogWith(targets, Four(targets, heads)), TheEvents(targets, heads));
  }

  lemma {:induction false} HistoryIsRecorded(plan: L.Plan, targets: seq<Name>, heads: map<Name, U64>)
    requires FaultPlan(plan, targets)
    ensures L.Honest(plan, TheEnv(targets, heads))
  {
    AllRecorded(targets, heads);
    BeginIsRecorded(plan, targets, heads);
    EndIsRecorded(plan, targets, heads);
    RemovalIsRecorded(plan, targets, heads);
    assert L.Recorded(plan, TheEnv(targets, heads), TheHistory(targets, heads));
  }

  lemma {:induction false} BeginIsRecorded(plan: L.Plan, targets: seq<Name>, heads: map<Name, U64>)
    requires FaultPlan(plan, targets) && L.StepsInOrder(TheHistory(targets, heads))
    requires BeginAnswered(targets, heads)
    ensures L.BeginRecorded(plan, TheEnv(targets, heads), TheHistory(targets, heads))
  {
    TimingIsTwelve(targets, One(targets, heads));
    RunBegins(plan, targets, heads);
  }

  lemma {:induction false} EndIsRecorded(plan: L.Plan, targets: seq<Name>, heads: map<Name, U64>)
    requires FaultPlan(plan, targets) && L.StepsInOrder(TheHistory(targets, heads))
    requires EndAnswered(targets, heads)
    ensures L.EndRecorded(plan, TheEnv(targets, heads), TheHistory(targets, heads))
  {
    RunBegins(plan, targets, heads);
  }

  lemma {:induction false} RemovalIsRecorded(plan: L.Plan, targets: seq<Name>, heads: map<Name, U64>)
    requires FaultPlan(plan, targets) && L.StepsInOrder(TheHistory(targets, heads))
    requires RemovalAnswered(targets, heads)
    ensures L.RemovalRecorded(plan, TheEnv(targets, heads), TheHistory(targets, heads))
  {
    RunBegins(plan, targets, heads);
    RunFinishes(plan, targets, heads);
    DataMeaning(targets, Three(targets, heads));
  }

  // ---------- The polls behind it ----------

  /** A poll that makes the observation. */
  function PollOf(o: BeaconObservation): P.Poll {
    P.Poll(o.target, o.timestamp, P.Answered(P.NodeAnswer(o.headSlot, o.headRoot, o.finalizedEpoch)), true, true)
  }

  function PollsOf(os: seq<BeaconObservation>): seq<P.Poll> {
    if os == [] then [] else PollsOf(os[..|os| - 1]) + [PollOf(os[|os| - 1])]
  }

  /** Stamped observations are what the polls observe. */
  lemma {:induction false} PollsObserve(os: seq<BeaconObservation>)
    requires AllStamped(os)
    ensures P.Observations(NETWORK, PollsOf(os)) == os
    ensures forall h :: h in P.Heads(NETWORK, PollsOf(os)) ==> exists o :: o in os && h == P.HeadOf(o)
  {
    if os != [] {
      var init, last := os[..|os| - 1], os[|os| - 1];
      assert os == init + [last] && last in os;
      PollsObserve(init);
      assert P.RecordOf(NETWORK, PollOf(last)) == BeaconRecord(last);
      assert PollsOf(os)[..|PollsOf(os)| - 1] == PollsOf(init);
      P.HeadsStep(NETWORK, PollsOf(os));
    }
  }

  /** The comparator of the targets. */
  function ComparatorOf(targets: seq<Name>): C.Setup {
    C.Setup(SortStrings(Texts(targets)), 2)
  }

  function Texts(targets: seq<Name>): (texts: seq<string>)
    ensures |texts| == |targets| && forall i :: 0 <= i < |targets| ==> texts[i] == targets[i].text
  {
    seq(|targets|, i requires 0 <= i < |targets| => targets[i].text)
  }

  /** Each target reports a head slot of its own. */
  ghost predicate HeadsApart(targets: seq<Name>, heads: map<Name, U64>) {
    && (forall t :: t in targets ==> t in heads)
    && forall s, t :: s in targets && t in targets && heads[s] == heads[t] ==> s == t
  }

  /** What the comparator is told of them. */
  ghost predicate HeadsOfTargets(history: seq<C.Observation>, targets: seq<Name>, heads: map<Name, U64>)
    requires HeadsApart(targets, heads)
  {
    forall h :: h in history ==>
      Name(h.target) in targets && h.slot == heads[Name(h.target)] && h.root == ROOT.text
  }

  lemma {:induction false} RootsOfOneTarget(history: seq<C.Observation>, targets: seq<Name>, heads: map<Name, U64>,
                                            slot: U64)
    requires HeadsApart(targets, heads) && HeadsOfTargets(history, targets, heads)
    ensures forall s :: s in C.RootsAt(history, slot) ==> Name(s) in targets && heads[Name(s)] == slot
  {
    if history != [] {
      var init, last := history[..|history| - 1], history[|history| - 1];
      assert last in history && forall h :: h in init ==> h in history;
      RootsOfOneTarget(init, targets, heads, slot);
    }
  }

  lemma {:induction false} SetupIsValid(targets: seq<Name>)
    requires |targets| >= 2 && Distinct(targets)
    ensures C.ValidSetup(ComparatorOf(targets))
    ensures forall s :: s in ComparatorOf(targets).targets <==> Name(s) in targets
  {
    var texts := Texts(targets);
    assert forall i, j :: 0 <= i < j < |texts| ==> targets[i] != targets[j];
    PermutationElements(ComparatorOf(targets).targets, texts);
    forall s ensures s in texts <==> Name(s) in targets {
      if Name(s) in targets {
        var i :| 0 <= i < |targets| && targets[i] == Name(s);
        assert texts[i] == s;
      }
    }
  }

  /** Nothing is ever compared. */
  lemma {:induction false} NothingCalledFor(targets: seq<Name>, heads: map<Name, U64>, history: seq<C.Observation>,
                                            o: C.Observation)
    requires |targets| >= 2 && Distinct(targets) && HeadsApart(targets, heads)
    requires HeadsOfTargets(history + [o], targets, heads)
    ensures P.CalledFor(ComparatorOf(targets), history, o) == None
  {
    var all := history + [o];
    RootsOfOneTarget(all, targets, heads, o.slot);
    SetupIsValid(targets);
    var s, t := targets[0].text, targets[1].text;
    assert Name(s) in targets && Name(t) in targets && Name(s) != Name(t);
    assert s in Elements(ComparatorOf(targets).targets) && t in Elements(ComparatorOf(targets).targets);
    assert !(s in C.RootsAt(all, o.slot) && t in C.RootsAt(all, o.slot));
  }

  lemma {:induction false} NothingCompared(targets: seq<Name>, heads: map<Name, U64>, polls: seq<P.Poll>)
    requires |targets| >= 2 && Distinct(targets) && HeadsApart(targets, heads)
    requires HeadsOfTargets(P.Heads(NETWORK, polls), targets, heads)
    ensures P.Comparisons(ComparatorOf(targets), NETWORK, polls) == []
  {
    if polls != [] {
      var init, last := polls[..|polls| - 1], polls[|polls| - 1];
      P.HeadsStep(NETWORK, polls);
      NothingCompared(targets, heads, init);
      if P.IsObserved(NETWORK, last) {
        NothingCalledFor(targets, heads, P.Heads(NETWORK, init), P.HeadOf(P.RecordOf(NETWORK, last).observation));
      }
    }
  }

  lemma {:induction false} OthersUntouched(c: Option<C.Setup>, start: Dataset, os: seq<BeaconObservation>)
    requires AllStamped(os)
    ensures var d := P.ObserverAfter(c, start, NETWORK, PollsOf(os)).dataset;
            d.specs == start.specs && d.genesis == start.genesis && d.gaps == start.gaps
  {
    if os != [] {
      var init, last := os[..|os| - 1], os[|os| - 1];
      assert os == init + [last] && last in os;
      OthersUntouched(c, start, init);
      assert P.RecordOf(NETWORK, PollOf(last)) == BeaconRecord(last);
      assert PollsOf(os)[..|PollsOf(os)| - 1] == PollsOf(init);
    }
  }

  lemma {:induction false} HeadsStay(targets: seq<Name>, heads: map<Name, U64>, os: seq<BeaconObservation>)
    requires HeadsApart(targets, heads) && AllStamped(os)
    requires forall o :: o in os ==> o.target in targets && o.headSlot == heads[o.target] && o.headRoot == ROOT
    ensures HeadsOfTargets(P.Heads(NETWORK, PollsOf(os)), targets, heads)
  {
    PollsObserve(os);
  }

  lemma {:induction false} RoundsOfTargets(targets: seq<Name>, heads: map<Name, U64>)
    requires HeadsApart(targets, heads)
    ensures forall o :: o in Four(targets, heads) ==>
              o.target in targets && o.headSlot == heads[o.target] && o.headRoot == ROOT
  {
    RoundMembers(targets, 223, 0, 5, heads);
    RoundMembers(targets, 224, 0, 5, heads);
    RoundMembers(targets, 320, 4, 7, heads);
    RoundMembers(targets, 320, 5, 8, heads);
  }

  lemma {:induction false} NothingToCompare(targets: seq<Name>, heads: map<Name, U64>)
    requires |targets| >= 2 && Distinct(targets) && HeadsApart(targets, heads)
    ensures C.ValidSetup(ComparatorOf(targets))
    ensures C.FromTargets(ComparatorOf(targets), P.Heads(NETWORK, PollsOf(Four(targets, heads))))
    ensures P.Comparisons(ComparatorOf(targets), NETWORK, PollsOf(Four(targets, heads))) == []
  {
    RoundsInOrder(targets, heads);
    RoundsOfTargets(targets, heads);
    HeadsStay(targets, heads, Four(targets, heads));
    ToldOfTargets(targets, heads, PollsOf(Four(targets, heads)));
  }

  lemma {:induction false} ToldOfTargets(targets: seq<Name>, heads: map<Name, U64>, polls: seq<P.Poll>)
    requires |targets| >= 2 && Distinct(targets) && HeadsApart(targets, heads)
    requires HeadsOfTargets(P.Heads(NETWORK, polls), targets, heads)
    ensures C.ValidSetup(ComparatorOf(targets)) && C.FromTargets(ComparatorOf(targets), P.Heads(NETWORK, polls))
    ensures P.Comparisons(ComparatorOf(targets), NETWORK, polls) == []
  {
    SetupIsValid(targets);
    RootIsOneLine();
    NothingCompared(targets, heads, polls);
  }

  lemma {:induction false} RootIsOneLine()
    ensures C.OneLine(ROOT.text)
  {
    ZerosAreZeros(64);
  }

  lemma {:induction false} ZerosAreZeros(n: nat)
    ensures forall c :: c in Zeros(n) ==> c == '0'
  {
    if n > 0 {
      ZerosAreZeros(n - 1);
    }
  }

  /** The data of the run are what polls leave behind after the runtime constants. */
  lemma {:induction false} DataArePolled(targets: seq<Name>, heads: map<Name, U64>)
    requires |targets| >= 2 && Distinct(targets) && HeadsApart(targets, heads)
    ensures DataOf(targets, Four(targets, heads)) ==
              P.ObserverAfter(Some(ComparatorOf(targets)), DatasetOf(SpecRecords(targets)), NETWORK,
                              PollsOf(Four(targets, heads))).dataset
    ensures P.Observations(NETWORK, PollsOf(Four(targets, heads))) == Four(targets, heads)
  {
    var os, start, c := Four(targets, heads), DatasetOf(SpecRecords(targets)), ComparatorOf(targets);
    RoundsInOrder(targets, heads);
    PollsObserve(os);
    NothingToCompare(targets, heads);
    P.RunIsRecorded(Some(c), start, NETWORK, PollsOf(os));
    OthersUntouched(Some(c), start, os);
    SpecsRecorded(targets);
    BeaconRecorded(SpecRecords(targets), os);
  }

  // ---------- The clock ----------

  ghost predicate TimeOrdered(os: seq<BeaconObservation>) {
    forall i, j :: 0 <= i < j < |os| ==> os[i].timestamp <= os[j].timestamp
  }

  lemma {:induction false} RoundAfter(before: seq<BeaconObservation>, targets: seq<Name>, slot: U64, k: nat, epoch: U64,
                                      heads: map<Name, U64>)
    requires TimeOrdered(before) && Before(before, targets, Moment(slot, k))
    ensures TimeOrdered(before + SeeAll(targets, slot, k, epoch, heads))
  {
    assert forall i :: 0 <= i < |before| ==> before[i] in before;
  }

  lemma {:induction false} FourInTime(targets: seq<Name>, heads: map<Name, U64>)
    ensures TimeOrdered(Four(targets, heads))
  {
    RoundsInOrder(targets, heads);
    RoundAfter([], targets, 223, 0, 5, heads);
    RoundAfter(One(targets, heads), targets, 224, 0, 5, heads);
    RoundAfter(Two(targets, heads), targets, 320, 4, 7, heads);
    RoundAfter(Three(targets, heads), targets, 320, 5, 8, heads);
  }

  lemma {:induction false} PollsInTime(os: seq<BeaconObservation>)
    requires TimeOrdered(os)
    ensures |PollsOf(os)| == |os| && forall i :: 0 <= i < |os| ==> PollsOf(os)[i] == PollOf(os[i])
    ensures forall t :: P.ClockForward(PollsOf(os), t)
  {
    if os != [] {
      PollsInTime(os[..|os| - 1]);
    }
  }

  // ---------- Nothing recovers ----------

  /** The run succeeds with a complete recovery window. */
  ghost predicate CompleteRun(plan: L.Plan, env: L.Env) {
    && L.Honest(plan, env) && L.RunSucceeds(plan, env) && L.IsRunWindow(plan, env, WINDOW) && WINDOW.recoveryComplete
  }

  /** The target has no recovery value. */
  ghost predicate NoRecovery(env: L.Env, t: Name)
    requires env.atEnd.Some?
  {
    var end := AtSlot(env.atEnd.value.beacon, t, WINDOW.endSlot);
    && end.Some?
    && IsRecovery(env.final.beacon, t, end.value.finalizedEpoch, env.removedAt, WINDOW.removalSlot, None)
  }

  /** The data are what the observer's polls of the targets leave behind, with clocks that only go forward. */
  ghost predicate Polled(env: L.Env, targets: seq<Name>, polls: seq<P.Poll>) {
    && env.final ==
       P.ObserverAfter(Some(ComparatorOf(targets)), DatasetOf(SpecRecords(targets)), NETWORK, polls).dataset
    && env.final.beacon == P.Observations(NETWORK, polls) && forall t :: P.ClockForward(polls, t)
  }

  lemma {:induction false} RunIsComplete(plan: L.Plan, targets: seq<Name>, heads: map<Name, U64>)
    requires FaultPlan(plan, targets)
    ensures CompleteRun(plan, TheEnv(targets, heads))
  {
    HistoryIsRecorded(plan, targets, heads);
    EnvSucceeds(plan, targets, heads);
  }

  lemma {:induction false} NothingRecovers(targets: seq<Name>, heads: map<Name, U64>)
    ensures forall t :: t in targets ==> NoRecovery(TheEnv(targets, heads), t)
  {
    RoundsInOrder(targets, heads);
    AfterThree(targets, heads);
    DataMeaning(targets, Three(targets, heads));
    DataMeaning(targets, Four(targets, heads));
  }

  /** For any two or more targets there is a fault run of three epochs with four epochs of recovery that succeeds
      with a complete recovery window, on data that polls leave behind, although no target has a recovery value:
      finality had moved on before the fault was removed. */
  lemma {:induction false} EarlyFinalityIsNoRecovery(plan: L.Plan, targets: seq<Name>, heads: map<Name, U64>)
    requires FaultPlan(plan, targets) && |targets| >= 2 && HeadsApart(targets, heads)
    ensures CompleteRun(plan, TheEnv(targets, heads))
    ensures Polled(TheEnv(targets, heads), targets, PollsOf(Four(targets, heads)))
    ensures forall t :: t in targets ==> NoRecovery(TheEnv(targets, heads), t)
  {
    RunIsComplete(plan, targets, heads);
    NothingRecovers(targets, heads);
    DataArePolled(targets, heads);
    DataMeaning(targets, Four(targets, heads));
    FourInTime(targets, heads);
    PollsInTime(Four(targets, heads));
  }
}
