/** The measures the gates are decided by, and Gate C. */
module Gates {
  import opened Common
  import opened Scenario
  import opened Results

  // ---------- Progress ----------

  function LeastProgress(ts: seq<TargetResult>): (m: U64)
    requires ts != []
  {
    var last := ts[|ts| - 1];
    if |ts| == 1 then last.progress else
    var before := LeastProgress(ts[..|ts| - 1]);
    if last.progress < before then last.progress else before
  }

  function GreatestProgress(ts: seq<TargetResult>): (m: U64)
  {
    if ts == [] then 0 else
    var last := ts[|ts| - 1];
    var before := GreatestProgress(ts[..|ts| - 1]);
    if last.progress > before then last.progress else before
  }

  lemma {:induction false} LeastIsLeast(ts: seq<TargetResult>) returns (k: nat)
    requires ts != []
    ensures forall i :: 0 <= i < |ts| ==> LeastProgress(ts) <= ts[i].progress
    ensures k < |ts| && ts[k].progress == LeastProgress(ts)
  {
    k := |ts| - 1;
    if |ts| > 1 {
      var before := LeastIsLeast(ts[..|ts| - 1]);
      if ts[k].progress != LeastProgress(ts) {
        k := before;
      }
    }
  }

  lemma {:induction false} GreatestIsGreatest(ts: seq<TargetResult>) returns (k: nat)
    requires ts != []
    ensures forall i :: 0 <= i < |ts| ==> ts[i].progress <= GreatestProgress(ts)
    ensures k < |ts| && ts[k].progress == GreatestProgress(ts)
  {
    k := |ts| - 1;
    if |ts| > 1 {
      var before := GreatestIsGreatest(ts[..|ts| - 1]);
      if ts[k].progress != GreatestProgress(ts) {
        k := before;
      }
    } else {
      assert ts[..0] == [];
    }
  }

  method MaximumProgress(ts: seq<TargetResult>) returns (maximum: U64)
    ensures maximum == GreatestProgress(ts)
  {
    maximum := 0;
    for n := 0 to |ts|
      invariant maximum == GreatestProgress(ts[..n])
    {
      assert ts[..n + 1][..n] == ts[..n];
      if ts[n].progress > maximum {
        maximum := ts[n].progress;
      }
    }
    assert ts[..|ts|] == ts;
  }

  method MinimumProgress(ts: seq<TargetResult>) returns (minimum: U64)
    requires ts != []
    ensures minimum == LeastProgress(ts)
  {
    minimum := ts[0].progress;
    assert ts[..1] == [ts[0]];
    for n := 1 to |ts|
      invariant minimum == LeastProgress(ts[..n])
    {
      assert ts[..n + 1][..n] == ts[..n];
      if ts[n].progress < minimum {
        minimum := ts[n].progress;
      }
    }
    assert ts[..|ts|] == ts;
  }

  ghost predicate AllBelow(faults: seq<TargetResult>, controls: seq<TargetResult>) {
    forall i, j :: 0 <= i < |faults| && 0 <= j < |controls| ==> faults[i].progress < controls[j].progress
  }

  /** The two extremes are apart exactly when every fault target made less progress than every control target. */
  lemma {:induction false} ExtremesApart(faults: seq<TargetResult>, controls: seq<TargetResult>)
    requires faults != [] && controls != []
    ensures GreatestProgress(faults) < LeastProgress(controls) <==> AllBelow(faults, controls)
  {
    var i := GreatestIsGreatest(faults);
    var j := LeastIsLeast(controls);
  }

  ghost predicate Uniform(ts: seq<TargetResult>) {
    ts != [] && forall i, j :: 0 <= i < |ts| && 0 <= j < |ts| ==> ts[i].progress == ts[j].progress
  }

  method UniformProgress(ts: seq<TargetResult>) returns (uniform: bool)
    ensures uniform <==> Uniform(ts)
  {
    if |ts| == 0 {
      return false;
    }
    var reference := ts[0].progress;
    for n := 1 to |ts|
      invariant forall i :: 0 <= i < n ==> ts[i].progress == reference
    {
      if ts[n].progress != reference {
        return false;
      }
    }
    uniform := true;
  }

  // ---------- The primary window ----------

  method PrimaryWindowValid(run: RunSummary, byTarget: map<Name, Participant>, groupOf: map<Name, Name>)
    returns (ok: bool)
    ensures ok <==> WindowValid(run, byTarget, groupOf)
  {
    if !run.primaryComplete || |run.targets| != 4 || !run.split.withinTolerance {
      return false;
    }
    if !run.confounders.resourcesEqual || !run.confounders.nodePlacementControlled
       || !run.confounders.dependencyClosurePinned {
      return false;
    }
    ok := TargetsValid(run.targets, byTarget, groupOf);
  }

  method TargetsValid(ts: seq<TargetResult>, byTarget: map<Name, Participant>, groupOf: map<Name, Name>)
    returns (ok: bool)
    ensures ok <==> (forall i :: 0 <= i < |ts| ==> TargetValid(ts[i], byTarget, groupOf)) && DistinctTargets(ts)
  {
    var seen: set<Name> := {};
    for n := 0 to |ts|
      invariant forall i :: 0 <= i < n ==> TargetValid(ts[i], byTarget, groupOf)
      invariant forall i, j :: 0 <= i < j < n ==> ts[i].target != ts[j].target
      invariant forall name :: name in seen <==> exists i :: 0 <= i < n && ts[i].target == name
    {
      var t := ts[n];
      if t.target !in byTarget || t.clClient != byTarget[t.target].clClient
         || t.group != Lookup(groupOf, byTarget[t.target].id) {
        return false;
      }
      if t.target in seen {
        return false;
      }
      seen := seen + {t.target};
      if t.endEpoch < t.startEpoch || t.progress != t.endEpoch - t.startEpoch {
        return false;
      }
    }
    ok := true;
  }

  // ---------- Statistics ----------

  /** The median of an even number of values is half of their uint64 sum; rounding to a float is not modelled. */
  datatype Statistic = Statistic(values: seq<nat>, median: real, min: nat, max: nat)

  function SortValues(values: seq<nat>): (r: seq<nat>)
    ensures Sorted(NatLe, r) && multiset(r) == multiset(values)
  {
    Sort(NatLe, values)
  }

  function Median(sorted: seq<nat>): real
    requires sorted != []
  {
    var middle := |sorted| / 2;
    if |sorted| % 2 == 0 then ((sorted[middle - 1] + sorted[middle]) % (MAX_UINT64 + 1)) as real / 2.0
    else sorted[middle] as real
  }

  function Summarize(values: seq<nat>): Statistic {
    if values == [] then Statistic([], 0.0, 0, 0) else
    var sorted := SortValues(values);
    assert |multiset(sorted)| == |sorted| && |multiset(values)| == |values|;
    Statistic(sorted, Median(sorted), sorted[0], sorted[|sorted| - 1])
  }

  /** A statistic does not depend on the order of its values. */
  lemma {:induction false} SummarizePermutation(a: seq<nat>, b: seq<nat>)
    requires multiset(a) == multiset(b)
    ensures Summarize(a) == Summarize(b)
  {
    assert |multiset(a)| == |a| && |multiset(b)| == |b|;
    SortedUnique(NatLe, SortValues(a), SortValues(b));
  }

  /** The extremes of a statistic are the extremes of its values. */
  lemma {:induction false} SummarizeExtremes(values: seq<nat>)
    requires values != []
    ensures Summarize(values).min in values && Summarize(values).max in values
    ensures forall v :: v in values ==> Summarize(values).min <= v <= Summarize(values).max
  {
    var sorted := SortValues(values);
    PermutationElements(sorted, values);
    assert sorted[0] in sorted && sorted[|sorted| - 1] in sorted;
    forall v | v in values ensures sorted[0] <= v <= sorted[|sorted| - 1] {
      var i :| 0 <= i < |sorted| && sorted[i] == v;
      assert i > 0 ==> NatLe(sorted[0], sorted[i]);
      assert i < |sorted| - 1 ==> NatLe(sorted[i], sorted[|sorted| - 1]);
    }
  }

  // ---------- Recovery by side and client ----------

  predicate OnSide(t: TargetResult, group: Name, client: Name) {
    t.group == group && t.clClient == client
  }

  /** The recovery recorded for a side and a client, in the order of the targets. */
  function RecoveryAt(ts: seq<TargetResult>, group: Name, client: Name): Option<U64> {
    if ts == [] then None else
    var last := ts[|ts| - 1];
    if OnSide(last, group, client) && last.recovery.Some? then last.recovery
    else RecoveryAt(ts[..|ts| - 1], group, client)
  }

  /** Every target recovered, and no two share a side and a client. */
  predicate Attributable(ts: seq<TargetResult>) {
    ts == [] ||
    var init, last := ts[..|ts| - 1], ts[|ts| - 1];
    Attributable(init) && last.recovery.Some? && RecoveryAt(init, last.group, last.clClient).None?
  }

  function Find(m: map<Name, map<Name, U64>>, group: Name, client: Name): Option<U64> {
    if group in m && client in m[group] then Some(m[group][client]) else None
  }

  /** A missing entry of Go's two-level map reads as zero. */
  function OrZero(value: Option<U64>): U64 {
    if value.Some? then value.value else 0
  }

  ghost predicate Holds(m: map<Name, map<Name, U64>>, ts: seq<TargetResult>) {
    forall g, c :: Find(m, g, c) == RecoveryAt(ts, g, c)
  }

  method RecoveryByGroupAndClient(ts: seq<TargetResult>) returns (r: Option<map<Name, map<Name, U64>>>)
    ensures r.Some? <==> Attributable(ts)
    ensures r.Some? ==> Holds(r.value, ts)
  {
    var m: map<Name, map<Name, U64>> := map[];
    for n := 0 to |ts|
      invariant Attributable(ts[..n]) && Holds(m, ts[..n])
    {
      var t := ts[n];
      assert ts[..n + 1][..n] == ts[..n];
      if t.recovery.None? || (t.group in m && t.clClient in m[t.group]) {
        assert Find(m, t.group, t.clClient) == RecoveryAt(ts[..n], t.group, t.clClient);
        AttributablePrefix(ts, n + 1);
        return None;
      }
      RecoveryAdded(m, ts[..n], t, ts[..n + 1]);
      m := AddRecovery(m, t.group, t.clClient, t.recovery.value);
    }
    assert ts[..|ts|] == ts;
    r := Some(m);
  }

  function AddRecovery(m: map<Name, map<Name, U64>>, group: Name, client: Name, value: U64): map<Name, map<Name, U64>> {
    m[group := (if group in m then m[group] else map[])[client := value]]
  }

  lemma {:induction false} RecoveryAdded(m: map<Name, map<Name, U64>>, done: seq<TargetResult>, t: TargetResult,
                                         all: seq<TargetResult>)
    requires Holds(m, done) && t.recovery.Some? && all == done + [t] && Find(m, t.group, t.clClient).None?
    ensures Holds(AddRecovery(m, t.group, t.clClient, t.recovery.value), all)
    ensures RecoveryAt(done, t.group, t.clClient).None?
  {
  }

  lemma {:induction false} AttributablePrefix(ts: seq<TargetResult>, n: nat)
    requires n <= |ts|
    ensures Attributable(ts) ==> Attributable(ts[..n])
  {
    if n < |ts| {
      AttributablePrefix(ts[..|ts| - 1], n);
      assert ts[..|ts| - 1][..n] == ts[..n];
    } else {
      assert ts[..n] == ts;
    }
  }

  lemma {:induction false} RecoveryAtNone(ts: seq<TargetResult>, group: Name, client: Name)
    ensures RecoveryAt(ts, group, client).None? <==>
              forall i :: 0 <= i < |ts| ==> !(OnSide(ts[i], group, client) && ts[i].recovery.Some?)
  {
    if ts != [] {
      RecoveryAtNone(ts[..|ts| - 1], group, client);
    }
  }

  /** The targets can be attributed exactly when all recovered and no two share both side and client; each
      is then found under its own side and client. */
  lemma {:induction false} AttributableMeans(ts: seq<TargetResult>)
    ensures Attributable(ts) <==>
              && (forall i :: 0 <= i < |ts| ==> ts[i].recovery.Some?)
              && (forall i, j :: 0 <= i < j < |ts| ==> !OnSide(ts[j], ts[i].group, ts[i].clClient))
    ensures Attributable(ts) ==>
              forall i :: 0 <= i < |ts| ==> RecoveryAt(ts, ts[i].group, ts[i].clClient) == ts[i].recovery
  {
    if ts != [] {
      var init, last := ts[..|ts| - 1], ts[|ts| - 1];
      AttributableMeans(init);
      RecoveryAtNone(init, last.group, last.clClient);
      assert forall i :: 0 <= i < |init| ==> ts[i] == init[i];
      assert forall i :: 0 <= i < |init| && ts[i].recovery.Some? ==>
               (OnSide(last, ts[i].group, ts[i].clClient) <==> OnSide(init[i], last.group, last.clClient));
    }
  }

  // ---------- Gate C ----------

  /** The sign says which side is larger; equal values count as the left one. */
  function DifferenceDirection(left: U64, right: U64, threshold: U64): (int, bool) {
    if left >= right then (1, left - right >= threshold) else (-1, right - left >= threshold)
  }

  /** The client families in order of first appearance. */
  function ClientList(ps: seq<Participant>): seq<Name> {
    if ps == [] then [] else
    var before := ClientList(ps[..|ps| - 1]);
    var client := ps[|ps| - 1].clClient;
    if client in before then before else before + [client]
  }

  lemma {:induction false} ClientListLists(ps: seq<Participant>)
    ensures Distinct(ClientList(ps))
    ensures forall c :: c in ClientList(ps) <==> exists i :: 0 <= i < |ps| && ps[i].clClient == c
  {
    if ps != [] {
      var init, p := ps[..|ps| - 1], ps[|ps| - 1];
      ClientListLists(init);
      assert ps == init + [p];
      assert ps[|ps| - 1].clClient in ClientList(ps);
    }
  }

  method ListClients(ps: seq<Participant>) returns (clients: seq<Name>)
    ensures clients == ClientList(ps)
  {
    clients := [];
    var seen: set<Name> := {};
    for n := 0 to |ps|
      invariant clients == ClientList(ps[..n]) && seen == Elements(clients)
    {
      assert ps[..n + 1][..n] == ps[..n];
      if ps[n].clClient !in seen {
        seen := seen + {ps[n].clClient};
        clients := clients + [ps[n].clClient];
      }
    }
    assert ps[..|ps|] == ps;
  }

  /** On the given side the recoveries of the two clients differ by the threshold, in the given direction. */
  predicate Differs(ts: seq<TargetResult>, group: Name, clients: (Name, Name), threshold: U64, direction: int) {
    DifferenceDirection(OrZero(RecoveryAt(ts, group, clients.0)), OrZero(RecoveryAt(ts, group, clients.1)), threshold)
    == (direction, true)
  }

  ghost predicate SidesDiffer(ts: seq<TargetResult>, groups: seq<FaultGroup>, clients: (Name, Name), threshold: U64,
                              direction: int)
  {
    forall i :: 0 <= i < |groups| ==> Differs(ts, groups[i].name, clients, threshold, direction)
  }

  /** The groups of one repetition; the direction is 0 until the first group fixes it. */
  method ScanGroups(ghost ts: seq<TargetResult>, m: map<Name, map<Name, U64>>, groups: seq<FaultGroup>,
                    clients: (Name, Name), threshold: U64, direction: int)
    returns (next: Option<int>)
    requires Holds(m, ts) && groups != []
    ensures next.Some? ==> next.value in {-1, 1} && (direction == 0 || next.value == direction)
    ensures next.Some? ==> SidesDiffer(ts, groups, clients, threshold, next.value)
    ensures next.None? && direction != 0 ==> !SidesDiffer(ts, groups, clients, threshold, direction)
    ensures next.None? && direction == 0 ==>
              !SidesDiffer(ts, groups, clients, threshold, 1) && !SidesDiffer(ts, groups, clients, threshold, -1)
  {
    var current := direction;
    for n := 0 to |groups|
      invariant (direction != 0 ==> current == direction) && (n > 0 ==> current in {-1, 1})
      invariant (n == 0 ==> current == direction)
      invariant forall i :: 0 <= i < n ==> Differs(ts, groups[i].name, clients, threshold, current)
    {
      var left := OrZero(Find(m, groups[n].name, clients.0));
      var right := OrZero(Find(m, groups[n].name, clients.1));
      var (found, meets) := DifferenceDirection(left, right, threshold);
      if !meets {
        return None;
      }
      if current == 0 {
        current := found;
      } else if current != found {
        assert n > 0 ==> Differs(ts, groups[0].name, clients, threshold, current);
        return None;
      }
    }
    next := Some(current);
  }

  /** The measurements of the three repetitions, keyed by repetition. */
  ghost predicate ThreeRuns(m: map<U64, RunSummary>) {
    m.Keys == {1, 2, 3}
  }

  /** A repetition's control has uniform progress, and its fault differs in the direction on both sides. */
  ghost predicate RepetitionDiffers(control: seq<TargetResult>, fault: seq<TargetResult>, groups: seq<FaultGroup>,
                                    clients: (Name, Name), threshold: U64, direction: int)
  {
    Uniform(control) && Attributable(fault) && SidesDiffer(fault, groups, clients, threshold, direction)
  }

  ghost predicate AllDiffer(controls: map<U64, RunSummary>, faults: map<U64, RunSummary>, groups: seq<FaultGroup>,
                            clients: (Name, Name), threshold: U64, direction: int)
    requires ThreeRuns(controls) && ThreeRuns(faults)
  {
    && RepetitionDiffers(controls[1].targets, faults[1].targets, groups, clients, threshold, direction)
    && RepetitionDiffers(controls[2].targets, faults[2].targets, groups, clients, threshold, direction)
    && RepetitionDiffers(controls[3].targets, faults[3].targets, groups, clients, threshold, direction)
  }

  /** What the scan of the three repetitions decides. */
  ghost predicate Differentiated(s: Scenario, controls: map<U64, RunSummary>, faults: map<U64, RunSummary>,
                                 direction: int)
    requires ThreeRuns(controls) && ThreeRuns(faults)
  {
    var clients := SortNames(ClientList(s.participants));
    |clients| == 2 &&
    AllDiffer(controls, faults, s.fault.groups, (clients[0], clients[1]), s.thresholds.clientRecoveryDifferenceSlots,
              direction)
  }

  method EvaluateGateC(s: Scenario, controls: map<U64, RunSummary>, faults: map<U64, RunSummary>)
    returns (differentiated: bool)
    requires ThreeRuns(controls) && ThreeRuns(faults) && s.fault.groups != []
    ensures differentiated <==> Differentiated(s, controls, faults, 1) || Differentiated(s, controls, faults, -1)
  {
    var list := ListClients(s.participants);
    var clients := SortNames(list);
    if |clients| != 2 {
      return false;
    }
    differentiated := ScanRepetitions(controls, faults, s.fault.groups, (clients[0], clients[1]),
                                      s.thresholds.clientRecoveryDifferenceSlots);
  }

  method ScanRepetitions(controls: map<U64, RunSummary>, faults: map<U64, RunSummary>, groups: seq<FaultGroup>,
                         clients: (Name, Name), threshold: U64)
    returns (differentiated: bool)
    requires ThreeRuns(controls) && ThreeRuns(faults) && groups != []
    ensures differentiated <==>
              || AllDiffer(controls, faults, groups, clients, threshold, 1)
              || AllDiffer(controls, faults, groups, clients, threshold, -1)
  {
    var direction := 0;
    for k := 1 to 4
      invariant k == 1 ==> direction == 0
      invariant k > 1 ==> direction in {-1, 1}
      invariant k > 1 ==>
                  RepetitionDiffers(controls[1].targets, faults[1].targets, groups, clients, threshold, direction)
      invariant k > 2 ==>
                  RepetitionDiffers(controls[2].targets, faults[2].targets, groups, clients, threshold, direction)
      invariant k > 3 ==>
                  RepetitionDiffers(controls[3].targets, faults[3].targets, groups, clients, threshold, direction)
    {
      OneDirection(faults[1].targets, groups, clients, threshold);
      var next := ScanRepetition(controls[k].targets, faults[k].targets, groups, clients, threshold, direction);
      if next.None? {
        return false;
      }
      direction := next.value;
    }
    differentiated := true;
  }

  /** A side differs in one direction only. */
  lemma {:induction false} OneDirection(ts: seq<TargetResult>, groups: seq<FaultGroup>, clients: (Name, Name),
                                        threshold: U64)
    requires groups != []
    ensures !(SidesDiffer(ts, groups, clients, threshold, 1) && SidesDiffer(ts, groups, clients, threshold, -1))
  {
    assert !(Differs(ts, groups[0].name, clients, threshold, 1) && Differs(ts, groups[0].name, clients, threshold, -1));
  }

  method ScanRepetition(control: seq<TargetResult>, fault: seq<TargetResult>, groups: seq<FaultGroup>,
                        clients: (Name, Name), threshold: U64, direction: int)
    returns (next: Option<int>)
    requires groups != []
    ensures next.Some? ==> next.value in {-1, 1} && (direction == 0 || next.value == direction)
    ensures next.Some? ==> RepetitionDiffers(control, fault, groups, clients, threshold, next.value)
    ensures next.None? && direction != 0 ==> !RepetitionDiffers(control, fault, groups, clients, threshold, direction)
    ensures next.None? && direction == 0 ==>
              && !RepetitionDiffers(control, fault, groups, clients, threshold, 1)
              && !RepetitionDiffers(control, fault, groups, clients, threshold, -1)
  {
    var uniform := UniformProgress(control);
    if !uniform {
      return None;
    }
    var byGroupAndClient := RecoveryByGroupAndClient(fault);
    if byGroupAndClient.None? {
      return None;
    }
    next := ScanGroups(fault, byGroupAndClient.value, groups, clients, threshold, direction);
  }
}
