/** The six runs an analysis accepts, and the trial they form. */
module Runs {
  import opened Common
  import opened Scenario
  import opened Split
  import opened Results
  import opened Gates

  // ---------- Accepted runs ----------

  ghost predicate RunAccepted(s: Scenario, run: RunSummary) {
    && run.schemaVersion == RUN_SCHEMA && ParseRunID(run.runID) == Some((run.condition, run.repetition))
    && ValidDependencies(run.dependencies) && SplitAccepted(s, run.split)
  }

  /** Two accepted runs have different ids and the same dependency closure. */
  predicate Comparable(a: RunSummary, b: RunSummary) {
    a.runID != b.runID && a.dependencies == b.dependencies
  }

  ghost predicate AllAccepted(s: Scenario, runs: seq<RunSummary>) {
    forall i :: 0 <= i < |runs| ==> RunAccepted(s, runs[i])
  }

  ghost predicate AllComparable(runs: seq<RunSummary>) {
    forall i, j :: 0 <= i < j < |runs| ==> Comparable(runs[i], runs[j])
  }

  ghost predicate RunsAccepted(s: Scenario, runs: seq<RunSummary>) {
    |runs| == |s.methodology.runOrder| && AllAccepted(s, runs) && AllComparable(runs)
  }

  predicate Is(run: RunSummary, condition: Condition, repetition: U64) {
    run.condition == condition && run.repetition == repetition
  }

  /** The condition and repetition of an accepted run determine its id. */
  lemma {:induction false} IdentityIsId(s: Scenario, run: RunSummary)
    requires RunAccepted(s, run)
    ensures 1 <= run.repetition <= 3 && run.runID == RunIDOf(run.condition, run.repetition)
  {
    RunIDRoundTrip(run.runID, run.condition, run.repetition);
  }

  ghost predicate IndexesRuns(runs: seq<RunSummary>, m: map<string, RunSummary>) {
    && (forall i :: 0 <= i < |runs| ==> runs[i].runID in m && m[runs[i].runID] == runs[i])
    && (forall id :: id in m ==> m[id] in runs && m[id].runID == id)
  }

  // ---------- Checking the runs ----------

  /** The checks of one run; the dependencies are compared with those of the first run. */
  method CheckRun(s: Scenario, run: RunSummary, byID: map<string, RunSummary>, reference: Option<DependencyMetadata>)
    returns (ok: bool)
    requires reference.Some? ==> ValidDependencies(reference.value)
    ensures ok <==>
              RunAccepted(s, run) && run.runID !in byID && (reference.Some? ==> reference.value == run.dependencies)
  {
    if run.schemaVersion != RUN_SCHEMA || run.runID in byID {
      return false;
    }
    if ParseRunID(run.runID) != Some((run.condition, run.repetition)) {
      return false;
    }
    ok := ValidateDependencies(run.dependencies);
    if ok {
      ok := ValidateRealizedSplit(s, run.split);
    }
    if ok && reference.Some? {
      AgreeIsEqual(reference.value, run.dependencies);
      ok := DependenciesEqual(reference.value, run.dependencies);
    }
  }

  lemma {:induction false} OneMoreCompatible(runs: seq<RunSummary>, run: RunSummary, byID: map<string, RunSummary>)
    requires AllComparable(runs) && IndexesRuns(runs, byID)
    ensures AllComparable(runs + [run]) <==>
              run.runID !in byID && (runs != [] ==> runs[0].dependencies == run.dependencies)
    ensures run.runID !in byID ==> IndexesRuns(runs + [run], byID[run.runID := run])
  {
    var all := runs + [run];
    assert all[|runs|] == run;
    if AllComparable(all) {
      forall i | 0 <= i < |runs| ensures Comparable(runs[i], run) {
        assert Comparable(all[i], all[|runs|]);
      }
      assert runs != [] ==> Comparable(runs[0], run);
    }
    if run.runID !in byID && (runs != [] ==> runs[0].dependencies == run.dependencies) {
      forall i | 0 <= i < |runs| ensures Comparable(runs[i], run) {
        assert i > 0 ==> Comparable(runs[0], runs[i]);
      }
    }
  }

  lemma {:induction false} OneMoreAccepted(s: Scenario, runs: seq<RunSummary>, run: RunSummary)
    ensures AllAccepted(s, runs + [run]) <==> AllAccepted(s, runs) && RunAccepted(s, run)
  {
    var all := runs + [run];
    assert all[|runs|] == run && forall i :: 0 <= i < |runs| ==> all[i] == runs[i];
  }

  lemma {:induction false} PrefixChecked(s: Scenario, runs: seq<RunSummary>, n: nat)
    requires n <= |runs| && Checked(s, runs)
    ensures Checked(s, runs[..n])
  {
    var some := runs[..n];
    assert forall i :: 0 <= i < n ==> some[i] == runs[i];
    forall i | 0 <= i < n ensures RunAccepted(s, some[i]) {
      assert RunAccepted(s, runs[i]);
    }
  }

  ghost predicate Checked(s: Scenario, runs: seq<RunSummary>) {
    AllAccepted(s, runs) && AllComparable(runs)
  }

  method CheckRuns(s: Scenario, runs: seq<RunSummary>) returns (r: Result<map<string, RunSummary>>)
    requires Valid(s)
    ensures r.Ok? <==> Checked(s, runs)
    ensures r.Ok? ==> IndexesRuns(runs, r.value)
  {
    var byID: map<string, RunSummary> := map[];
    var reference: Option<DependencyMetadata> := None;
    for n := 0 to |runs|
      invariant Checked(s, runs[..n]) && IndexesRuns(runs[..n], byID)
      invariant reference == if n == 0 then None else Some(runs[0].dependencies)
    {
      var ok := CheckNext(s, runs[..n], runs[n], byID, reference);
      PrefixStep(runs, n);
      if !ok {
        if Checked(s, runs) {
          PrefixChecked(s, runs, n + 1);
        }
        return Err;
      }
      if reference.None? {
        reference := Some(runs[n].dependencies);
      }
      byID := byID[runs[n].runID := runs[n]];
    }
    assert runs[..|runs|] == runs;
    r := Ok(byID);
  }

  method CheckNext(s: Scenario, ghost done: seq<RunSummary>, run: RunSummary, byID: map<string, RunSummary>,
                   reference: Option<DependencyMetadata>)
    returns (ok: bool)
    requires Checked(s, done) && IndexesRuns(done, byID)
    requires reference == if done == [] then None else Some(done[0].dependencies)
    ensures ok <==> Checked(s, done + [run])
    ensures ok ==> IndexesRuns(done + [run], byID[run.runID := run])
  {
    OneMoreAccepted(s, done, run);
    OneMoreCompatible(done, run, byID);
    ok := CheckRun(s, run, byID, reference);
  }

  // ---------- No required run can be missing ----------

  function IdsOfRuns(runs: seq<RunSummary>): (ids: seq<string>)
    ensures |ids| == |runs| && forall i :: 0 <= i < |runs| ==> ids[i] == runs[i].runID
  {
    seq(|runs|, i requires 0 <= i < |runs| => runs[i].runID)
  }

  lemma {:induction false} IdIsCommitted(s: Scenario, run: RunSummary)
    requires RunAccepted(s, run)
    ensures run.runID in Elements(RUN_IDS)
  {
    IdentityIsId(s, run);
    RunIdsNamed(run.condition, run.repetition);
    assert RUN_IDS[Position(run.condition, run.repetition)] in RUN_IDS;
  }

  lemma {:induction false} CommittedSize(m: Methodology)
    requires ValidMethodology(m)
    ensures |Elements(m.runOrder)| == 6 && Elements(m.runOrder) == Elements(RUN_IDS)
  {
    DistinctSize(m.runOrder);
  }

  /** The ids of the accepted runs are exactly the committed ones, so the "required run is missing" error
      cannot occur. */
  lemma {:induction false} NoRunMissing(s: Scenario, runs: seq<RunSummary>)
    requires Valid(s) && RunsAccepted(s, runs)
    ensures Elements(IdsOfRuns(runs)) == Elements(s.methodology.runOrder)
  {
    var ids := IdsOfRuns(runs);
    CommittedSize(s.methodology);
    forall i, j | 0 <= i < j < |ids| ensures ids[i] != ids[j] {
      assert Comparable(runs[i], runs[j]);
    }
    DistinctSize(ids);
    forall id | id in ids ensures id in Elements(RUN_IDS) {
      var i :| 0 <= i < |ids| && ids[i] == id;
      IdIsCommitted(s, runs[i]);
    }
    SameSizeSubset(Elements(ids), Elements(s.methodology.runOrder));
  }

  // ---------- The trial ----------

  /** The runs in the committed order, and by condition and repetition. */
  datatype Trial = Trial(ordered: seq<RunSummary>, controls: map<U64, RunSummary>, faults: map<U64, RunSummary>)

  ghost predicate ByRepetition(runs: seq<RunSummary>, condition: Condition, m: map<U64, RunSummary>) {
    forall k :: k in m ==> m[k] in runs && Is(m[k], condition, k)
  }

  ghost predicate InOrder(order: seq<string>, runs: seq<RunSummary>, ordered: seq<RunSummary>) {
    |ordered| == |order| && forall i :: 0 <= i < |order| ==> ordered[i] in runs && ordered[i].runID == order[i]
  }

  /** The committed order, and all six runs under their repetitions. */
  ghost predicate IsTrial(s: Scenario, runs: seq<RunSummary>, t: Trial) {
    && InOrder(s.methodology.runOrder, runs, t.ordered)
    && ThreeRuns(t.controls) && ByRepetition(runs, ControlRun, t.controls)
    && ThreeRuns(t.faults) && ByRepetition(runs, FaultRun, t.faults)
  }

  ghost predicate Filed(ordered: seq<RunSummary>, controls: map<U64, RunSummary>, faults: map<U64, RunSummary>) {
    && ByRepetition(ordered, ControlRun, controls) && ByRepetition(ordered, FaultRun, faults)
    && forall i :: 0 <= i < |ordered| ==>
         ordered[i].repetition in if ordered[i].condition.ControlRun? then controls else faults
  }

  lemma {:induction false} FileOne(ordered: seq<RunSummary>, controls: map<U64, RunSummary>,
                                   faults: map<U64, RunSummary>, run: RunSummary)
    requires Filed(ordered, controls, faults)
    ensures run.condition.ControlRun? ==> Filed(ordered + [run], controls[run.repetition := run], faults)
    ensures run.condition.FaultRun? ==> Filed(ordered + [run], controls, faults[run.repetition := run])
  {
  }

  method OrderRuns(order: seq<string>, byID: map<string, RunSummary>) returns (t: Option<Trial>)
    ensures t.Some? <==> forall i :: 0 <= i < |order| ==> order[i] in byID
    ensures t.Some? ==>
              |t.value.ordered| == |order| && forall i :: 0 <= i < |order| ==> t.value.ordered[i] == byID[order[i]]
    ensures t.Some? ==> Filed(t.value.ordered, t.value.controls, t.value.faults)
  {
    var ordered: seq<RunSummary> := [];
    var controls: map<U64, RunSummary> := map[];
    var faults: map<U64, RunSummary> := map[];
    for n := 0 to |order|
      invariant |ordered| == n && forall i :: 0 <= i < n ==> order[i] in byID && ordered[i] == byID[order[i]]
      invariant Filed(ordered, controls, faults)
    {
      if order[n] !in byID {
        return None;
      }
      var run := byID[order[n]];
      FileOne(ordered, controls, faults, run);
      ordered := ordered + [run];
      if run.condition == ControlRun {
        controls := controls[run.repetition := run];
      } else {
        faults := faults[run.repetition := run];
      }
    }
    t := Some(Trial(ordered, controls, faults));
  }

  method ValidateRuns(s: Scenario, runs: seq<RunSummary>) returns (r: Result<Trial>)
    requires Valid(s)
    ensures r.Ok? <==> RunsAccepted(s, runs)
    ensures r.Ok? ==> IsTrial(s, runs, r.value) && multiset(r.value.ordered) == multiset(runs)
  {
    if |runs| != |s.methodology.runOrder| {
      return Err;
    }
    var byID := CheckRuns(s, runs);
    if byID.Err? {
      return Err;
    }
    AllPresent(s, runs, byID.value);
    var t := OrderRuns(s.methodology.runOrder, byID.value);
    if t.Some? {
      FiledInOrder(s.methodology.runOrder, runs, byID.value, t.value.ordered);
      FiledIsTrial(s, runs, t.value);
      TrialIsPermutation(s, runs, t.value);
    }
    r := if t.Some? then Ok(t.value) else Err;
  }

  lemma {:induction false} AllPresent(s: Scenario, runs: seq<RunSummary>, byID: map<string, RunSummary>)
    requires Valid(s) && RunsAccepted(s, runs) && IndexesRuns(runs, byID)
    ensures forall i :: 0 <= i < |s.methodology.runOrder| ==> s.methodology.runOrder[i] in byID
  {
    NoRunMissing(s, runs);
    var order, ids := s.methodology.runOrder, IdsOfRuns(runs);
    forall i | 0 <= i < |order| ensures order[i] in byID {
      assert order[i] in Elements(ids);
      var k :| 0 <= k < |ids| && ids[k] == order[i];
    }
  }

  lemma {:induction false} FiledIsTrial(s: Scenario, runs: seq<RunSummary>, t: Trial)
    requires ValidMethodology(s.methodology) && AllAccepted(s, runs)
    requires InOrder(s.methodology.runOrder, runs, t.ordered) && Filed(t.ordered, t.controls, t.faults)
    ensures IsTrial(s, runs, t)
  {
    Repetitions(s, runs, t, ControlRun, t.controls);
    Repetitions(s, runs, t, FaultRun, t.faults);
  }

  lemma {:induction false} FiledInOrder(order: seq<string>, runs: seq<RunSummary>, byID: map<string, RunSummary>,
                                        ordered: seq<RunSummary>)
    requires IndexesRuns(runs, byID) && |ordered| == |order|
    requires forall i :: 0 <= i < |ordered| ==> order[i] in byID && ordered[i] == byID[order[i]]
    ensures InOrder(order, runs, ordered)
  {
  }

  lemma {:induction false} Repetitions(s: Scenario, runs: seq<RunSummary>, t: Trial, condition: Condition,
                                       m: map<U64, RunSummary>)
    requires ValidMethodology(s.methodology) && AllAccepted(s, runs)
    requires InOrder(s.methodology.runOrder, runs, t.ordered) && Filed(t.ordered, t.controls, t.faults)
    requires m == if condition.ControlRun? then t.controls else t.faults
    ensures ThreeRuns(m) && ByRepetition(runs, condition, m)
  {
    forall k: U64 ensures k in m <==> 1 <= k <= 3 {
      RepetitionFiled(s, runs, t, condition, m, k);
    }
    OneToThree(m);
    FiledByRepetition(s.methodology.runOrder, runs, t.ordered, condition, m);
  }

  lemma {:induction false} OneToThree(m: map<U64, RunSummary>)
    requires forall k: U64 :: k in m <==> 1 <= k <= 3
    ensures ThreeRuns(m)
  {
  }

  lemma {:induction false} FiledByRepetition(order: seq<string>, runs: seq<RunSummary>, ordered: seq<RunSummary>,
                                             condition: Condition, m: map<U64, RunSummary>)
    requires InOrder(order, runs, ordered) && ByRepetition(ordered, condition, m)
    ensures ByRepetition(runs, condition, m)
  {
  }

  lemma {:induction false} RepetitionFiled(s: Scenario, runs: seq<RunSummary>, t: Trial, condition: Condition,
                                           m: map<U64, RunSummary>, k: U64)
    requires ValidMethodology(s.methodology) && AllAccepted(s, runs)
    requires InOrder(s.methodology.runOrder, runs, t.ordered) && Filed(t.ordered, t.controls, t.faults)
    requires m == if condition.ControlRun? then t.controls else t.faults
    ensures k in m <==> 1 <= k <= 3
  {
    var order := s.methodology.runOrder;
    if k in m {
      var n :| 0 <= n < |t.ordered| && t.ordered[n] == m[k];
      var i :| 0 <= i < |runs| && runs[i] == t.ordered[n];
      IdentityIsId(s, runs[i]);
    }
    if 1 <= k <= 3 {
      var id := RunIDOf(condition, k);
      RunIdsNamed(condition, k);
      assert RUN_IDS[Position(condition, k)] in RUN_IDS;
      var n := SameElements(RUN_IDS, order, id);
      var i :| 0 <= i < |runs| && runs[i] == t.ordered[n];
      RunIDRoundTrip(id, condition, k);
      assert Is(t.ordered[n], condition, k);
    }
  }

  /** Every run's id is the one of its condition and repetition. */
  ghost predicate AllNamed(runs: seq<RunSummary>) {
    forall i :: 0 <= i < |runs| ==>
      1 <= runs[i].repetition <= 3 && runs[i].runID == RunIDOf(runs[i].condition, runs[i].repetition)
  }

  lemma {:induction false} AcceptedAreNamed(s: Scenario, runs: seq<RunSummary>)
    requires AllAccepted(s, runs)
    ensures AllNamed(runs)
  {
    forall i | 0 <= i < |runs|
      ensures 1 <= runs[i].repetition <= 3 && runs[i].runID == RunIDOf(runs[i].condition, runs[i].repetition)
    {
      IdentityIsId(s, runs[i]);
    }
  }

  lemma {:induction false} IdsApart(runs: seq<RunSummary>, i: nat, j: nat)
    requires AllComparable(runs) && i < |runs| && j < |runs|
    ensures runs[i].runID == runs[j].runID ==> i == j
  {
    if i < j {
      assert Comparable(runs[i], runs[j]);
    } else if j < i {
      assert Comparable(runs[j], runs[i]);
    }
  }

  lemma {:induction false} SameRepetitions(runs: seq<RunSummary>, condition: Condition, m: map<U64, RunSummary>,
                                           m': map<U64, RunSummary>)
    requires AllNamed(runs) && AllComparable(runs) && ThreeRuns(m) && ThreeRuns(m')
    requires ByRepetition(runs, condition, m) && ByRepetition(runs, condition, m')
    ensures m == m'
  {
    forall k | k in m ensures m[k] == m'[k] {
      var i :| 0 <= i < |runs| && runs[i] == m[k];
      var j :| 0 <= j < |runs| && runs[j] == m'[k];
      IdsApart(runs, i, j);
    }
  }

  /** The accepted runs determine the trial. */
  lemma {:induction false} TrialUnique(s: Scenario, runs: seq<RunSummary>, t: Trial, t': Trial)
    requires RunsAccepted(s, runs) && IsTrial(s, runs, t) && IsTrial(s, runs, t')
    ensures t == t'
  {
    AcceptedAreNamed(s, runs);
    SameRepetitions(runs, ControlRun, t.controls, t'.controls);
    SameRepetitions(runs, FaultRun, t.faults, t'.faults);
    SameOrder(s.methodology.runOrder, runs, t.ordered, t'.ordered);
  }

  lemma {:induction false} SameOrder(order: seq<string>, runs: seq<RunSummary>, a: seq<RunSummary>, b: seq<RunSummary>)
    requires AllComparable(runs) && InOrder(order, runs, a) && InOrder(order, runs, b)
    ensures a == b
  {
  }

  lemma {:induction false} OrderedOnce(order: seq<string>, runs: seq<RunSummary>, ordered: seq<RunSummary>)
    requires Distinct(order) && InOrder(order, runs, ordered)
    ensures Distinct(ordered)
  {
    forall i, j | 0 <= i < j < |ordered| ensures ordered[i] != ordered[j] {
      assert order[i] != order[j];
    }
  }

  lemma {:induction false} ListedOnce(runs: seq<RunSummary>)
    requires AllComparable(runs)
    ensures Distinct(runs)
  {
  }

  /** The trial holds every accepted run once, and nothing else. */
  lemma {:induction false} TrialIsPermutation(s: Scenario, runs: seq<RunSummary>, t: Trial)
    requires ValidMethodology(s.methodology) && |runs| == |s.methodology.runOrder| && AllComparable(runs)
    requires InOrder(s.methodology.runOrder, runs, t.ordered)
    ensures multiset(t.ordered) == multiset(runs)
  {
    OrderedOnce(s.methodology.runOrder, runs, t.ordered);
    ListedOnce(runs);
    DistinctSize(t.ordered);
    DistinctSize(runs);
    assert Elements(t.ordered) <= Elements(runs);
    SameSizeSubset(Elements(t.ordered), Elements(runs));
    DistinctPermutation(t.ordered, runs);
  }
}
