/** The run's dataset recorder, and the wakeup protocol between its writers and the one waiter. */
module Recorder {
  import opened Common
  import Comparison = HeadComparison

  datatype Spec = Spec(secondsPerSlot: U64, slotsPerEpoch: U64, forkEpochs: map<Name, Name>)

  datatype Genesis = Genesis(time: U64, slot: U64, validatorsRoot: string, forkVersion: string)

  datatype Root = Root(text: string)

  /** Timestamps count from the zero time. */
  datatype BeaconObservation = BeaconObservation(
    timestamp: nat, target: Name, currentSlot: U64, headSlot: U64, headRoot: Root, finalizedEpoch: U64)

  datatype PollFailure = PollFailure(timestamp: nat, target: Name, operation: string)

  datatype Dataset = Dataset(
    specs: map<Name, Spec>,
    genesis: map<Name, Genesis>,
    beacon: seq<BeaconObservation>,
    headComparisons: seq<Comparison.HeadComparison>,
    gaps: seq<PollFailure>)

  datatype Record =
    | SpecRecord(target: Name, spec: Spec, genesis: Genesis)
    | BeaconRecord(observation: BeaconObservation)
    | ComparisonRecord(comparison: Comparison.HeadComparison)
    | GapRecord(failure: PollFailure)

  const EMPTY_DATASET := Dataset(map[], map[], [], [], [])

  function Add(d: Dataset, r: Record): Dataset {
    match r
    case SpecRecord(target, spec, genesis) =>
      d.(specs := d.specs[target := spec], genesis := d.genesis[target := genesis])
    case BeaconRecord(observation) => d.(beacon := d.beacon + [observation])
    case ComparisonRecord(comparison) => d.(headComparisons := d.headComparisons + [comparison])
    case GapRecord(failure) => d.(gaps := d.gaps + [failure])
  }

  /** What a log of records amounts to. */
  function DatasetOf(log: seq<Record>): Dataset {
    if log == [] then EMPTY_DATASET else Add(DatasetOf(log[..|log| - 1]), log[|log| - 1])
  }

  class DatasetRecorder {
    var specs: map<Name, Spec>
    var genesis: map<Name, Genesis>
    var beacon: seq<BeaconObservation>
    var headComparisons: seq<Comparison.HeadComparison>
    var gaps: seq<PollFailure>
    var changed: bool  // whether the one-slot channel holds its token

    function View(): Dataset
      reads this
    {
      Dataset(specs, genesis, beacon, headComparisons, gaps)
    }

    constructor ()
      ensures View() == EMPTY_DATASET && !changed
    {
      specs, genesis, beacon, headComparisons, gaps := map[], map[], [], [], [];
      changed := false;
    }

    method RecordSpec(target: Name, spec: Spec, genesisValue: Genesis)
      modifies this
      ensures specs == old(specs)[target := spec] && genesis == old(genesis)[target := genesisValue] && changed
      ensures View() == old(View()).(specs := specs, genesis := genesis)
    {
      specs := specs[target := spec];
      genesis := genesis[target := genesisValue];
      Notify();
    }

    method RecordBeacon(observation: BeaconObservation)
      modifies this
      ensures beacon == old(beacon) + [observation] && changed
      ensures View() == old(View()).(beacon := beacon)
    {
      beacon := beacon + [observation];
      Notify();
    }

    method RecordHeadComparison(comparison: Comparison.HeadComparison)
      modifies this
      ensures headComparisons == old(headComparisons) + [comparison] && changed
      ensures View() == old(View()).(headComparisons := headComparisons)
    {
      headComparisons := headComparisons + [comparison];
      Notify();
    }

    method RecordPollFailure(failure: PollFailure)
      modifies this
      ensures gaps == old(gaps) + [failure] && changed
      ensures View() == old(View()).(gaps := gaps)
    {
      gaps := gaps + [failure];
      Notify();
    }

    method Snapshot() returns (d: Dataset)
      ensures d == View()
    {
      d := Dataset(specs, genesis, beacon, headComparisons, gaps);
    }

    /** A non-blocking send: a full channel keeps its token. */
    method Notify()
      modifies this`changed
      ensures changed
    {
      if !changed {
        changed := true;
      }
    }
  }

  // ---------- Interleavings ----------

  /** The steps between which the goroutines may be interleaved. A `Record*` call appends under the
      lock and notifies after it has released the lock; `waitFor` takes a snapshot, tests it, and
      only then blocks on the channel or the two contexts. */
  datatype Event =
    | Append(writer: nat, record: Record)
    | Notify(writer: nat)
    | Begin(condition: Dataset -> bool)
    | Snapshot
    | Test
    | Receive
    | Cancel

  datatype Waiter = Idle | Ready | Testing | Blocked

  datatype State = State(
    log: seq<Record>,
    pending: map<nat, nat>,  // the position of the record each unfinished call appended
    token: bool,
    waiter: Waiter,
    seen: nat,               // how much of the log the last snapshot holds
    snapshot: Dataset,
    condition: Dataset -> bool)

  /** One step; a step that is not enabled does nothing. */
  ghost function Do(s: State, e: Event): State {
    match e
    case Append(w, r) =>
      if w in s.pending then s else s.(log := s.log + [r], pending := s.pending[w := |s.log|])
    case Notify(w) =>
      if w in s.pending then s.(pending := s.pending - {w}, token := true) else s
    case Begin(p) =>
      if s.waiter.Idle? then s.(waiter := Ready, condition := p) else s
    case Snapshot =>
      if s.waiter.Ready? then s.(waiter := Testing, seen := |s.log|, snapshot := DatasetOf(s.log)) else s
    case Test =>
      if s.waiter.Testing? then s.(waiter := if s.condition(s.snapshot) then Idle else Blocked) else s
    case Receive =>
      if s.waiter.Blocked? && s.token then s.(waiter := Ready, token := false) else s
    case Cancel =>
      if s.waiter.Blocked? then s.(waiter := Idle) else s
  }

  ghost function After(events: seq<Event>): State {
    if events == [] then State([], map[], false, Idle, 0, EMPTY_DATASET, d => false)
    else Do(After(events[..|events| - 1]), events[|events| - 1])
  }

  ghost predicate Completed(s: State, i: nat) {
    i < |s.log| && i !in s.pending.Values
  }

  ghost predicate Invariant(s: State) {
    && s.seen <= |s.log|
    && (s.waiter.Testing? || s.waiter.Blocked? ==>
          && s.snapshot == DatasetOf(s.log[..s.seen])
          && (!s.token ==> forall i :: s.seen <= i < |s.log| ==> i in s.pending.Values))
    && (s.waiter.Blocked? ==> !s.condition(s.snapshot))
  }

  lemma {:induction false} DoKeepsInvariant(s: State, e: Event)
    requires Invariant(s)
    ensures Invariant(Do(s, e))
  {
    var t := Do(s, e);
    match e
    case Append(w, r) =>
      if w !in s.pending {
        assert t.log[..t.seen] == s.log[..s.seen];
        forall i | s.seen <= i < |t.log| && (i < |s.log| ==> i in s.pending.Values)
          ensures i in t.pending.Values
        {
          if i < |s.log| {
            var v :| v in s.pending && s.pending[v] == i;
            assert t.pending[v] == i;
          } else {
            assert t.pending[w] == i;
          }
        }
      }
    case Snapshot =>
      assert t.log[..|t.log|] == t.log;
    case _ =>
  }

  lemma {:induction false} InvariantHolds(events: seq<Event>)
    ensures Invariant(After(events))
  {
    if events != [] {
      InvariantHolds(events[..|events| - 1]);
      DoKeepsInvariant(After(events[..|events| - 1]), events[|events| - 1]);
    }
  }

  /** Under every interleaving, while the waiter is blocked and the channel is empty, the snapshot it
      last tested is the log up to a point that covers every completed call, and the condition failed on it. */
  lemma {:induction false} NoLostWakeup(events: seq<Event>)
    ensures var s := After(events);
            s.waiter.Blocked? && !s.token ==>
              && s.seen <= |s.log| && s.snapshot == DatasetOf(s.log[..s.seen]) && !s.condition(s.snapshot)
              && forall i: nat :: Completed(s, i) ==> i < s.seen
  {
    InvariantHolds(events);
  }

  /** Whenever all calls have completed and the recorded data meets the condition, the blocked waiter
      has a token and its own next steps end the wait. */
  lemma {:induction false} SatisfiedWaitEnds(events: seq<Event>)
    requires var s := After(events);
             s.waiter.Blocked? && s.pending == map[] && s.condition(DatasetOf(s.log))
    ensures After(events).token
    ensures After(events + [Receive, Snapshot, Test]).waiter.Idle?
  {
    InvariantHolds(events);
    TokenWhenSatisfied(After(events));
    AfterAppend(events, Receive);
    AfterAppend(events + [Receive], Snapshot);
    AfterAppend(events + [Receive] + [Snapshot], Test);
    assert events + [Receive] + [Snapshot] + [Test] == events + [Receive, Snapshot, Test];
  }

  lemma {:induction false} TokenWhenSatisfied(s: State)
    requires Invariant(s) && s.waiter.Blocked? && s.pending == map[] && s.condition(DatasetOf(s.log))
    ensures s.token && Do(Do(Do(s, Receive), Snapshot), Test).waiter.Idle?
  {
    assert s.log[..|s.log|] == s.log;
    assert s.seen < |s.log| ==> s.seen !in s.pending.Values;
  }

  lemma {:induction false} AfterAppend(events: seq<Event>, e: Event)
    ensures After(events + [e]) == Do(After(events), e)
  {
  }

  // ---------- What the waits of a run return ----------

  /** Step `n` is a test that succeeds: the wait ends and returns the snapshot it tested. */
  ghost predicate ReturnsAt(events: seq<Event>, n: nat) {
    n < |events| && events[n].Test? && After(events[..n]).waiter.Testing?
    && After(events[..n]).condition(After(events[..n]).snapshot)
  }

  ghost function Returned(events: seq<Event>, n: nat): Dataset
    requires n <= |events|
  {
    After(events[..n]).snapshot
  }

  /** The waiter's goroutine is not waiting, so it may take a snapshot of its own. */
  ghost predicate BetweenWaits(events: seq<Event>, n: nat) {
    n <= |events| && After(events[..n]).waiter.Idle?
  }

  ghost function ReadAt(events: seq<Event>, n: nat): Dataset
    requires n <= |events|
  {
    DatasetOf(After(events[..n]).log)
  }

  /** The later dataset holds everything of the earlier one, in the same order. */
  ghost predicate Extends(earlier: Dataset, later: Dataset) {
    && earlier.beacon <= later.beacon && earlier.headComparisons <= later.headComparisons
    && earlier.gaps <= later.gaps
  }

  lemma {:induction false} DatasetGrows(log: seq<Record>, n: nat)
    requires n <= |log|
    ensures Extends(DatasetOf(log[..n]), DatasetOf(log))
    decreases |log|
  {
    if n < |log| {
      var init := log[..|log| - 1];
      assert init[..n] == log[..n];
      DatasetGrows(init, n);
    } else {
      assert log[..n] == log;
    }
  }

  lemma {:induction false} PrefixGrows(a: seq<Record>, b: seq<Record>)
    requires a <= b
    ensures Extends(DatasetOf(a), DatasetOf(b))
  {
    DatasetGrows(b, |a|);
    assert b[..|a|] == a;
  }

  lemma {:induction false} StepOf(events: seq<Event>, n: nat)
    requires n < |events|
    ensures After(events[..n + 1]) == Do(After(events[..n]), events[n])
  {
    assert events[..n + 1][..n] == events[..n];
  }

  /** The log has grown from `base`, and a snapshot under test covers it. */
  ghost predicate Covers(s: State, base: seq<Record>) {
    base <= s.log && (s.waiter.Testing? || s.waiter.Blocked? ==> |base| <= s.seen)
  }

  lemma {:induction false} DoKeepsCover(s: State, e: Event, base: seq<Record>)
    requires Covers(s, base)
    ensures Covers(Do(s, e), base)
  {
  }

  lemma {:induction false} CoverAfter(before: seq<Event>, more: seq<Event>, base: seq<Record>)
    requires Covers(After(before), base)
    ensures Covers(After(before + more), base)
  {
    if more == [] {
      assert before + more == before;
    } else {
      var init, last := more[..|more| - 1], more[|more| - 1];
      CoverAfter(before, init, base);
      AfterAppend(before + init, last);
      DoKeepsCover(After(before + init), last, base);
      assert before + init + [last] == before + more;
    }
  }

  /** A snapshot that is tested after a moment without a wait holds everything logged before that moment. */
  lemma {:induction false} SeenSince(events: seq<Event>, k: nat, n: nat)
    requires k <= n <= |events| && BetweenWaits(events, k)
    ensures Covers(After(events[..n]), After(events[..k]).log)
  {
    CoverAfter(events[..k], events[k..n], After(events[..k]).log);
    assert events[..k] + events[k..n] == events[..n];
  }

  /** What a wait returns is the data of the log at some moment of that wait. */
  lemma {:induction false} ReturnedIsLogged(events: seq<Event>, n: nat)
    requires ReturnsAt(events, n)
    ensures After(events[..n]).seen <= |After(events[..n]).log|
    ensures Returned(events, n) == DatasetOf(After(events[..n]).log[..After(events[..n]).seen])
    ensures BetweenWaits(events, n + 1) && After(events[..n + 1]).log == After(events[..n]).log
  {
    InvariantHolds(events[..n]);
    StepOf(events, n);
  }

  lemma {:induction false} ReadsGrow(events: seq<Event>, k: nat, n: nat)
    requires k <= n <= |events| && BetweenWaits(events, k)
    ensures Extends(ReadAt(events, k), ReadAt(events, n))
  {
    SeenSince(events, k, n);
    PrefixGrows(After(events[..k]).log, After(events[..n]).log);
  }

  lemma {:induction false} ReadThenWait(events: seq<Event>, k: nat, n: nat)
    requires k <= n && BetweenWaits(events, k) && ReturnsAt(events, n)
    ensures Extends(ReadAt(events, k), Returned(events, n))
  {
    SeenSince(events, k, n);
    ReturnedIsLogged(events, n);
    var s := After(events[..n]);
    PrefixGrows(After(events[..k]).log, s.log[..s.seen]);
  }

  lemma {:induction false} WaitThenRead(events: seq<Event>, n: nat, k: nat)
    requires n < k <= |events| && ReturnsAt(events, n)
    ensures Extends(Returned(events, n), ReadAt(events, k))
  {
    ReturnedIsLogged(events, n);
    var s := After(events[..n]);
    DatasetGrows(s.log, s.seen);
    ReadsGrow(events, n + 1, k);
  }

  /** Under every interleaving, each wait that ends by its test returns a snapshot that meets its condition,
      a later wait returns one that extends it, and the data recorded in the end extend both. */
  lemma {:induction false} WaitsGrow(events: seq<Event>, m: nat, n: nat)
    requires m < n && ReturnsAt(events, m) && ReturnsAt(events, n)
    ensures After(events[..m]).condition(Returned(events, m)) && After(events[..n]).condition(Returned(events, n))
    ensures Extends(Returned(events, m), Returned(events, n))
    ensures Extends(Returned(events, n), ReadAt(events, |events|))
  {
    ReturnedIsLogged(events, m);
    WaitThenRead(events, m, m + 1);
    ReadThenWait(events, m + 1, n);
    WaitThenRead(events, n, |events|);
  }

  // ---------- What the data inherit from the records ----------

  /** The observer records only its targets, and its clients return only positive constants. */
  predicate RecordFits(r: Record, targets: seq<Name>) {
    match r
    case SpecRecord(target, spec, _) => target in targets && spec.secondsPerSlot > 0 && spec.slotsPerEpoch > 0
    case BeaconRecord(o) => o.target in targets
    case _ => true
  }

  ghost predicate DataFit(d: Dataset, targets: seq<Name>) {
    && (forall o :: o in d.beacon ==> o.target in targets)
    && forall t :: t in d.specs ==> t in targets && d.specs[t].secondsPerSlot > 0 && d.specs[t].slotsPerEpoch > 0
  }

  lemma {:induction false} FittingData(log: seq<Record>, targets: seq<Name>)
    requires forall r :: r in log ==> RecordFits(r, targets)
    ensures DataFit(DatasetOf(log), targets)
  {
    if log != [] {
      var init, last := log[..|log| - 1], log[|log| - 1];
      assert last in log && forall r :: r in init ==> r in log;
      FittingData(init, targets);
    }
  }
}
