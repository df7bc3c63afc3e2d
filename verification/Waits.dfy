/** What the run waits for, and what a wait returns when the recorder's other goroutines interleave with it. */
module Waits {
  import opened Common
  import opened Recorder
  import opened Measurement

  /** The conditions of the run's waits. */
  datatype Goal =
    | SpecsAndHeads
    | CommonAt(slotsPerEpoch: U64, remainder: int)
    | ExactSlot(slot: int)
    | RecoveryOrCensor(ends: map<Name, BeaconObservation>, censorSlot: U64)

  ghost predicate Meets(goal: Goal, targets: seq<Name>, d: Dataset)
    requires targets != []
  {
    match goal
    case SpecsAndHeads => |d.specs| == |targets| && |Latest(d.beacon)| == |targets|
    case CommonAt(slotsPerEpoch, remainder) =>
      var slot := CommonSlot(d.beacon, targets);
      slot.Some? && slotsPerEpoch > 0 && slot.value % slotsPerEpoch == remainder
    case ExactSlot(slot) => SlotComplete(d.beacon, targets, slot)
    case RecoveryOrCensor(ends, censorSlot) =>
      (forall t :: t in targets ==> t in ends) && WaitOver(d.beacon, targets, ends, censorSlot)
  }

  /** The wait for the goal returns the dataset in step `n`. */
  ghost predicate Answers(events: seq<Event>, n: nat, targets: seq<Name>, goal: Goal, d: Dataset)
    requires targets != []
  {
    && ReturnsAt(events, n) && d == Returned(events, n)
    && forall x {:trigger Meets(goal, targets, x)} :: After(events[..n]).condition(x) <==> Meets(goal, targets, x)
  }

  /** A snapshot taken directly in step `n`. */
  ghost predicate Reads(events: seq<Event>, n: nat, d: Dataset) {
    BetweenWaits(events, n) && d == ReadAt(events, n)
  }

  ghost predicate AllFit(events: seq<Event>, targets: seq<Name>) {
    forall r :: r in After(events).log ==> RecordFits(r, targets)
  }

  lemma {:induction false} LogsFit(events: seq<Event>, n: nat, targets: seq<Name>)
    requires n <= |events| && AllFit(events, targets)
    ensures forall r :: r in After(events[..n]).log ==> RecordFits(r, targets)
    decreases |events|
  {
    if n < |events| {
      var init := events[..|events| - 1];
      assert init[..n] == events[..n];
      assert After(init).log <= After(events).log;
      assert forall r :: r in After(init).log ==> r in After(events).log;
      LogsFit(init, n, targets);
    } else {
      assert events[..n] == events;
    }
  }

  /** A wait that ends by its test meets its goal, with data of the targets only. */
  lemma {:induction false} AnswerMeets(events: seq<Event>, n: nat, targets: seq<Name>, goal: Goal, d: Dataset)
    requires targets != [] && Answers(events, n, targets, goal, d) && AllFit(events, targets)
    ensures Meets(goal, targets, d) && DataFit(d, targets)
  {
    ReturnedIsLogged(events, n);
    LogsFit(events, n, targets);
    var s := After(events[..n]);
    assert forall r :: r in s.log[..s.seen] ==> r in s.log;
    FittingData(s.log[..s.seen], targets);
  }

  lemma {:induction false} AnswersInOrder(events: seq<Event>, m: nat, n: nat, targets: seq<Name>, first: Goal,
                                          second: Goal, d: Dataset, e: Dataset)
    requires targets != [] && m <= n && Answers(events, m, targets, first, d) && Answers(events, n, targets, second, e)
    ensures Extends(d, e)
  {
    if m < n {
      WaitsGrow(events, m, n);
    }
  }

  lemma {:induction false} AnswerThenRead(events: seq<Event>, n: nat, targets: seq<Name>, goal: Goal, d: Dataset,
                                          k: nat, e: Dataset)
    requires targets != [] && n <= k && Answers(events, n, targets, goal, d) && Reads(events, k, e)
    ensures Extends(d, e)
  {
    WaitThenRead(events, n, k);
  }

  lemma {:induction false} ReadThenAnswer(events: seq<Event>, k: nat, e: Dataset, n: nat, targets: seq<Name>,
                                          goal: Goal, d: Dataset)
    requires targets != [] && k <= n && Reads(events, k, e) && Answers(events, n, targets, goal, d)
    ensures Extends(e, d)
  {
    ReadThenWait(events, k, n);
  }
}
