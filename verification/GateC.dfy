/** Gate C after Gates A and B: the scan with its default lookups means what the methodology asks. */
module GateC {
  import opened Common
  import opened Scenario
  import opened Results
  import opened Gates

  // ---------- What a valid scenario says about sides and families ----------

  /** Two groups that split the participants, with one participant of each of two families in either. */
  ghost predicate Balanced(groups: seq<FaultGroup>, m: map<Name, Participant>) {
    && |groups| == 2 && groups[0].name != groups[1].name
    && Distinct(Members(groups)) && Elements(Members(groups)) == m.Keys
    && OneOfEach(groups[0].participants, m) && OneOfEach(groups[1].participants, m)
  }

  lemma {:induction false} ValidIsBalanced(s: Scenario)
    requires Valid(s)
    ensures Balanced(s.fault.groups, ById(s.participants))
  {
    OneOfEachFamily(s);
  }

  lemma {:induction false} GroupOfParticipant(groups: seq<FaultGroup>, m: map<Name, Participant>, id: Name)
    returns (k: nat)
    requires Balanced(groups, m) && id in m
    ensures k < 2 && id in groups[k].participants && Lookup(GroupOf(groups), id) == groups[k].name
  {
    TwoGroups(groups, m);
    GroupOfMembers(groups);
    assert id in Elements(Members(groups));
    k := if id in groups[0].participants then 0 else 1;
    assert groups[k] in groups;
  }

  lemma {:induction false} MemberOfGroup(groups: seq<FaultGroup>, m: map<Name, Participant>, k: nat, id: Name)
    requires Balanced(groups, m) && k < 2 && id in groups[k].participants
    ensures id in m && Lookup(GroupOf(groups), id) == groups[k].name
  {
    TwoGroups(groups, m);
    GroupOfMembers(groups);
    assert groups[k] in groups && id in Elements(Members(groups));
  }

  /** Two participants of one group and one family are the same. */
  lemma {:induction false} SameSideSameParticipant(groups: seq<FaultGroup>, m: map<Name, Participant>, p: Name, q: Name)
    requires Balanced(groups, m) && p in m && q in m && m[p].clClient == m[q].clClient
    requires Lookup(GroupOf(groups), p) == Lookup(GroupOf(groups), q)
    ensures p == q
  {
    var g := GroupOfParticipant(groups, m, p);
    var h := GroupOfParticipant(groups, m, q);
    assert g == h;
  }

  /** Either family has a participant in either group. */
  lemma {:induction false} FamilyOnSide(groups: seq<FaultGroup>, m: map<Name, Participant>, k: nat, a: Name, b: Name,
                                        c: Name)
    returns (id: Name)
    requires Balanced(groups, m) && k < 2 && Families(m.Keys, m) == {a, b} && c in {a, b}
    ensures id in m && m[id].clClient == c && Lookup(GroupOf(groups), id) == groups[k].name
  {
    var ids := groups[k].participants;
    assert OneOfEach(ids, m);
    assert m[ids[0]].clClient in Families(m.Keys, m) && m[ids[1]].clClient in Families(m.Keys, m);
    id := if m[ids[0]].clClient == c then ids[0] else ids[1];
    MemberOfGroup(groups, m, k, id);
  }

  // ---------- What a valid window says about the reported targets ----------

  function NamesOfTargets(ts: seq<TargetResult>): (names: seq<Name>)
    ensures |names| == |ts| && forall i :: 0 <= i < |ts| ==> names[i] == ts[i].target
  {
    seq(|ts|, i requires 0 <= i < |ts| => ts[i].target)
  }

  /** As many different known targets as there are are all the targets there are. */
  lemma {:induction false} EveryTargetReported(ts: seq<TargetResult>, byTarget: map<Name, Participant>, t: Name)
    requires DistinctTargets(ts) && |ts| == |byTarget| && t in byTarget
    requires forall i :: 0 <= i < |ts| ==> ts[i].target in byTarget
    ensures exists i :: 0 <= i < |ts| && ts[i].target == t
  {
    var names := NamesOfTargets(ts);
    DistinctSize(names);
    assert Elements(names) <= byTarget.Keys && |byTarget.Keys| == |byTarget|;
    SameSizeSubset(Elements(names), byTarget.Keys);
    assert t in Elements(names);
  }

  /** The targets and the participants of a window, one to one. */
  ghost predicate Reported(ts: seq<TargetResult>, groups: seq<FaultGroup>, m: map<Name, Participant>,
                           byTarget: map<Name, Participant>)
  {
    && (forall i :: 0 <= i < |ts| ==> TargetValid(ts[i], byTarget, GroupOf(groups)))
    && DistinctTargets(ts) && |ts| == |byTarget|
    && (forall t :: t in byTarget ==>
          byTarget[t].id in m && m[byTarget[t].id] == byTarget[t] && byTarget[t].beaconTarget == t)
    && (forall id :: id in m ==>
          m[id].beaconTarget in byTarget && byTarget[m[id].beaconTarget] == m[id] && m[id].id == id)
  }

  lemma {:induction false} MapsOneToOne(ps: seq<Participant>)
    requires ValidParticipants(ps)
    ensures var m, byTarget := ById(ps), ByTarget(ps);
            && (forall t :: t in byTarget ==>
                  byTarget[t].id in m && m[byTarget[t].id] == byTarget[t] && byTarget[t].beaconTarget == t)
            && (forall id :: id in m ==>
                  m[id].beaconTarget in byTarget && byTarget[m[id].beaconTarget] == m[id] && m[id].id == id)
  {
    ByIdIndexes(ps);
    ByTargetIndexes(ps);
  }

  lemma {:induction false} WindowIsReported(s: Scenario, run: RunSummary)
    requires Valid(s) && WindowValid(run, ByTarget(s.participants), GroupOf(s.fault.groups))
    ensures Reported(run.targets, s.fault.groups, ById(s.participants), ByTarget(s.participants))
  {
    ByTargetIndexes(s.participants);
    MapsOneToOne(s.participants);
  }

  /** One target of each of two families on each side, and nothing else. */
  ghost predicate OneEach(ts: seq<TargetResult>, groups: seq<FaultGroup>, a: Name, b: Name) {
    && (forall k :: 0 <= k < |groups| ==> Occupied(ts, groups[k].name, a) && Occupied(ts, groups[k].name, b))
    && (forall i, j :: 0 <= i < j < |ts| ==> !OnSide(ts[j], ts[i].group, ts[i].clClient))
    && (forall i :: 0 <= i < |ts| ==> IsGroupName(groups, ts[i].group))
  }

  ghost predicate Occupied(ts: seq<TargetResult>, group: Name, client: Name) {
    exists i :: 0 <= i < |ts| && OnSide(ts[i], group, client)
  }

  ghost predicate IsGroupName(groups: seq<FaultGroup>, name: Name) {
    exists k :: 0 <= k < |groups| && groups[k].name == name
  }

  lemma {:induction false} SidesDistinct(ts: seq<TargetResult>, groups: seq<FaultGroup>, m: map<Name, Participant>,
                                         byTarget: map<Name, Participant>, i: nat, j: nat)
    requires Balanced(groups, m) && Reported(ts, groups, m, byTarget) && i < j < |ts|
    ensures !OnSide(ts[j], ts[i].group, ts[i].clClient)
  {
    var p, q := byTarget[ts[i].target], byTarget[ts[j].target];
    assert TargetValid(ts[i], byTarget, GroupOf(groups)) && TargetValid(ts[j], byTarget, GroupOf(groups));
    assert p.id != q.id;
    if OnSide(ts[j], ts[i].group, ts[i].clClient) {
      SameSideSameParticipant(groups, m, p.id, q.id);
    }
  }

  lemma {:induction false} SideOccupied(ts: seq<TargetResult>, groups: seq<FaultGroup>, m: map<Name, Participant>,
                                        byTarget: map<Name, Participant>, k: nat, a: Name, b: Name, c: Name)
    requires Balanced(groups, m) && Reported(ts, groups, m, byTarget)
    requires k < 2 && Families(m.Keys, m) == {a, b} && c in {a, b}
    ensures Occupied(ts, groups[k].name, c)
  {
    var id := FamilyOnSide(groups, m, k, a, b, c);
    forall i | 0 <= i < |ts| ensures ts[i].target in byTarget {
      assert TargetValid(ts[i], byTarget, GroupOf(groups));
    }
    EveryTargetReported(ts, byTarget, m[id].beaconTarget);
    var i :| 0 <= i < |ts| && ts[i].target == m[id].beaconTarget;
    assert TargetValid(ts[i], byTarget, GroupOf(groups));
    assert OnSide(ts[i], groups[k].name, c);
  }

  lemma {:induction false} WindowHasOneEach(ts: seq<TargetResult>, groups: seq<FaultGroup>, m: map<Name, Participant>,
                                            byTarget: map<Name, Participant>, a: Name, b: Name)
    requires Balanced(groups, m) && Reported(ts, groups, m, byTarget) && Families(m.Keys, m) == {a, b}
    ensures OneEach(ts, groups, a, b)
  {
    forall k | 0 <= k < |groups| ensures Occupied(ts, groups[k].name, a) && Occupied(ts, groups[k].name, b) {
      SideOccupied(ts, groups, m, byTarget, k, a, b, a);
      SideOccupied(ts, groups, m, byTarget, k, a, b, b);
    }
    forall i, j | 0 <= i < j < |ts| ensures !OnSide(ts[j], ts[i].group, ts[i].clClient) {
      SidesDistinct(ts, groups, m, byTarget, i, j);
    }
    forall i | 0 <= i < |ts| ensures IsGroupName(groups, ts[i].group) {
      assert TargetValid(ts[i], byTarget, GroupOf(groups));
      var k := GroupOfParticipant(groups, m, byTarget[ts[i].target].id);
    }
  }

  // ---------- What Gate C decides ----------

  /** On every side, the slow family's recovery is later than the fast one's by the threshold. */
  ghost predicate SlowerBy(ts: seq<TargetResult>, slow: Name, fast: Name, threshold: U64) {
    forall i, j :: 0 <= i < |ts| && 0 <= j < |ts| && ts[i].clClient == slow && OnSide(ts[j], ts[i].group, fast) ==>
      ts[i].recovery.Some? && ts[j].recovery.Some? && ts[i].recovery.value >= ts[j].recovery.value + threshold
  }

  ghost predicate AllRecovered(ts: seq<TargetResult>) {
    forall i :: 0 <= i < |ts| ==> ts[i].recovery.Some?
  }

  /** The value found for an occupied side is that of the one target there. */
  lemma {:induction false} FoundOnSide(ts: seq<TargetResult>, groups: seq<FaultGroup>, a: Name, b: Name, i: nat)
    requires OneEach(ts, groups, a, b) && AllRecovered(ts) && i < |ts|
    ensures Attributable(ts) && RecoveryAt(ts, ts[i].group, ts[i].clClient) == ts[i].recovery
  {
    AttributableMeans(ts);
  }

  lemma {:induction false} SideMeaning(ts: seq<TargetResult>, groups: seq<FaultGroup>, a: Name, b: Name, threshold: U64,
                                       k: nat)
    returns (i: nat, j: nat)
    requires OneEach(ts, groups, a, b) && AllRecovered(ts) && threshold > 0 && k < |groups|
    ensures i < |ts| && j < |ts| && OnSide(ts[i], groups[k].name, a) && OnSide(ts[j], groups[k].name, b)
    ensures Differs(ts, groups[k].name, (a, b), threshold, 1) <==>
              ts[i].recovery.value >= ts[j].recovery.value + threshold
    ensures Differs(ts, groups[k].name, (a, b), threshold, -1) <==>
              ts[j].recovery.value >= ts[i].recovery.value + threshold
  {
    assert Occupied(ts, groups[k].name, a) && Occupied(ts, groups[k].name, b);
    i :| i < |ts| && OnSide(ts[i], groups[k].name, a);
    j :| j < |ts| && OnSide(ts[j], groups[k].name, b);
    FoundOnSide(ts, groups, a, b, i);
    FoundOnSide(ts, groups, a, b, j);
  }

  lemma {:induction false} OnlyOnSide(ts: seq<TargetResult>, groups: seq<FaultGroup>, a: Name, b: Name, i: nat, j: nat)
    requires OneEach(ts, groups, a, b) && i < |ts| && j < |ts| && OnSide(ts[j], ts[i].group, ts[i].clClient)
    ensures i == j
  {
  }

  lemma {:induction false} SlowerDiffers(ts: seq<TargetResult>, groups: seq<FaultGroup>, a: Name, b: Name,
                                         threshold: U64)
    requires OneEach(ts, groups, a, b) && AllRecovered(ts) && threshold > 0
    ensures SlowerBy(ts, a, b, threshold) ==> SidesDiffer(ts, groups, (a, b), threshold, 1)
    ensures SlowerBy(ts, b, a, threshold) ==> SidesDiffer(ts, groups, (a, b), threshold, -1)
  {
    forall k | 0 <= k < |groups|
      ensures SlowerBy(ts, a, b, threshold) ==> Differs(ts, groups[k].name, (a, b), threshold, 1)
      ensures SlowerBy(ts, b, a, threshold) ==> Differs(ts, groups[k].name, (a, b), threshold, -1)
    {
      var i, j := SideMeaning(ts, groups, a, b, threshold, k);
    }
  }

  lemma {:induction false} DiffersMeansSlower(ts: seq<TargetResult>, groups: seq<FaultGroup>, a: Name, b: Name,
                                              threshold: U64, i: nat, j: nat)
    requires OneEach(ts, groups, a, b) && AllRecovered(ts) && threshold > 0
    requires i < |ts| && j < |ts| && ts[i].clClient == a && OnSide(ts[j], ts[i].group, b)
    ensures SidesDiffer(ts, groups, (a, b), threshold, 1) ==> ts[i].recovery.value >= ts[j].recovery.value + threshold
    ensures SidesDiffer(ts, groups, (a, b), threshold, -1) ==>
              ts[j].recovery.value >= ts[i].recovery.value + threshold
  {
    var k :| 0 <= k < |groups| && groups[k].name == ts[i].group;
    var i', j' := SideMeaning(ts, groups, a, b, threshold, k);
    OnlyOnSide(ts, groups, a, b, i, i');
    OnlyOnSide(ts, groups, a, b, j, j');
  }

  /** Both sides differ in a direction exactly when one family is slower on both. */
  lemma {:induction false} SidesDifferMeans(ts: seq<TargetResult>, groups: seq<FaultGroup>, a: Name, b: Name,
                                            threshold: U64)
    requires OneEach(ts, groups, a, b) && AllRecovered(ts) && threshold > 0
    ensures SidesDiffer(ts, groups, (a, b), threshold, 1) <==> SlowerBy(ts, a, b, threshold)
    ensures SidesDiffer(ts, groups, (a, b), threshold, -1) <==> SlowerBy(ts, b, a, threshold)
  {
    SlowerDiffers(ts, groups, a, b, threshold);
    forall i, j | 0 <= i < |ts| && 0 <= j < |ts| && ts[i].clClient == a && OnSide(ts[j], ts[i].group, b)
      ensures SidesDiffer(ts, groups, (a, b), threshold, 1) ==> ts[i].recovery.value >= ts[j].recovery.value + threshold
      ensures SidesDiffer(ts, groups, (a, b), threshold, -1) ==>
                ts[j].recovery.value >= ts[i].recovery.value + threshold
    {
      DiffersMeansSlower(ts, groups, a, b, threshold, i, j);
    }
  }

  /** The sorted client list names the two families. */
  lemma {:induction false} ClientsAreFamilies(ps: seq<Participant>, m: map<Name, Participant>)
    requires IndexedBy(ps, m) && |Families(m.Keys, m)| == 2
    ensures var clients := SortNames(ClientList(ps));
            |clients| == 2 && clients[0] != clients[1] && Families(m.Keys, m) == {clients[0], clients[1]}
  {
    var list, clients := ClientList(ps), SortNames(ClientList(ps));
    ListIsDistinct(ps);
    PermutationElements(clients, list);
    DistinctSize(clients);
    ListedFamilies(ps, m);
    assert Elements(clients) == Elements(list);
    assert Elements(clients) == {clients[0], clients[1]};
  }

  lemma {:induction false} ListedFamilies(ps: seq<Participant>, m: map<Name, Participant>)
    requires IndexedBy(ps, m)
    ensures Elements(ClientList(ps)) == Families(m.Keys, m)
  {
    forall c ensures c in Elements(ClientList(ps)) <==> c in Families(m.Keys, m) {
      ListedFamily(ps, m, c);
    }
  }

  lemma {:induction false} ListIsDistinct(ps: seq<Participant>)
    ensures Distinct(ClientList(ps))
  {
    ClientListLists(ps);
  }

  lemma {:induction false} ListedFamily(ps: seq<Participant>, m: map<Name, Participant>, c: Name)
    requires IndexedBy(ps, m)
    ensures c in ClientList(ps) <==> c in Families(m.Keys, m)
  {
    ClientListLists(ps);
    if c in ClientList(ps) {
      var i :| 0 <= i < |ps| && ps[i].clClient == c;
      assert ps[i].id in m.Keys;
    }
    if c in Families(m.Keys, m) {
      var id :| id in m.Keys && m[id].clClient == c;
      assert m[id] in ps;
    }
  }

  ghost predicate Slowest(s: Scenario, faults: map<U64, RunSummary>, slow: Name, fast: Name)
    requires ThreeRuns(faults)
  {
    var threshold := s.thresholds.clientRecoveryDifferenceSlots;
    && SlowerBy(faults[1].targets, slow, fast, threshold)
    && SlowerBy(faults[2].targets, slow, fast, threshold)
    && SlowerBy(faults[3].targets, slow, fast, threshold)
  }

  /** One of the two families is slower than the other. */
  ghost predicate OneSlower(s: Scenario, faults: map<U64, RunSummary>, families: set<Name>)
    requires ThreeRuns(faults)
  {
    exists slow, fast :: slow != fast && families == {slow, fast} && Slowest(s, faults, slow, fast)
  }

  ghost predicate UniformControls(controls: map<U64, RunSummary>)
    requires ThreeRuns(controls)
  {
    Uniform(controls[1].targets) && Uniform(controls[2].targets) && Uniform(controls[3].targets)
  }

  /** No control run has skewed progress, and one family is slower by the threshold on both sides in all
      three repetitions. */
  ghost predicate GateCHolds(s: Scenario, controls: map<U64, RunSummary>, faults: map<U64, RunSummary>)
    requires ThreeRuns(controls) && ThreeRuns(faults)
  {
    UniformControls(controls) && OneSlower(s, faults, Families(ById(s.participants).Keys, ById(s.participants)))
  }

  /** What the two directions of one repetition mean. */
  ghost predicate Understood(ts: seq<TargetResult>, groups: seq<FaultGroup>, a: Name, b: Name, threshold: U64) {
    && Attributable(ts)
    && (SidesDiffer(ts, groups, (a, b), threshold, 1) <==> SlowerBy(ts, a, b, threshold))
    && (SidesDiffer(ts, groups, (a, b), threshold, -1) <==> SlowerBy(ts, b, a, threshold))
  }

  lemma {:induction false} OneRepetition(s: Scenario, run: RunSummary, a: Name, b: Name)
    requires Valid(s) && WindowValid(run, ByTarget(s.participants), GroupOf(s.fault.groups))
    requires AllRecovered(run.targets)
    requires Families(ById(s.participants).Keys, ById(s.participants)) == {a, b}
    ensures Understood(run.targets, s.fault.groups, a, b, s.thresholds.clientRecoveryDifferenceSlots)
  {
    var groups, m := s.fault.groups, ById(s.participants);
    ValidIsBalanced(s);
    WindowIsReported(s, run);
    WindowHasOneEach(run.targets, groups, m, ByTarget(s.participants), a, b);
    SidesDifferMeans(run.targets, groups, a, b, s.thresholds.clientRecoveryDifferenceSlots);
    AttributableMeans(run.targets);
  }

  /** After Gates A and B the scan for Gate C, whose lookups default to zero, finds a difference exactly when
      one family is slower. */
  lemma {:induction false} GateCExact(s: Scenario, controls: map<U64, RunSummary>, faults: map<U64, RunSummary>)
    requires Valid(s) && ThreeRuns(controls) && ThreeRuns(faults)
    requires forall k :: k in faults ==>
               WindowValid(faults[k], ByTarget(s.participants), GroupOf(s.fault.groups))
               && AllRecovered(faults[k].targets)
    ensures Differentiated(s, controls, faults, 1) || Differentiated(s, controls, faults, -1) <==>
              GateCHolds(s, controls, faults)
  {
    var m, clients := ById(s.participants), SortNames(ClientList(s.participants));
    OneOfEachFamily(s);
    ByIdIndexes(s.participants);
    ClientsAreFamilies(s.participants, m);
    OneRepetition(s, faults[1], clients[0], clients[1]);
    OneRepetition(s, faults[2], clients[0], clients[1]);
    OneRepetition(s, faults[3], clients[0], clients[1]);
    Directions(s, controls, faults, clients[0], clients[1]);
    EitherSlower(s, faults, Families(m.Keys, m), clients[0], clients[1]);
  }

  lemma {:induction false} Directions(s: Scenario, controls: map<U64, RunSummary>, faults: map<U64, RunSummary>,
                                      a: Name, b: Name)
    requires ThreeRuns(controls) && ThreeRuns(faults)
    requires Understood(faults[1].targets, s.fault.groups, a, b, s.thresholds.clientRecoveryDifferenceSlots)
    requires Understood(faults[2].targets, s.fault.groups, a, b, s.thresholds.clientRecoveryDifferenceSlots)
    requires Understood(faults[3].targets, s.fault.groups, a, b, s.thresholds.clientRecoveryDifferenceSlots)
    ensures var threshold := s.thresholds.clientRecoveryDifferenceSlots;
            && (AllDiffer(controls, faults, s.fault.groups, (a, b), threshold, 1) <==>
                  UniformControls(controls) && Slowest(s, faults, a, b))
            && (AllDiffer(controls, faults, s.fault.groups, (a, b), threshold, -1) <==>
                  UniformControls(controls) && Slowest(s, faults, b, a))
  {
  }

  lemma {:induction false} EitherSlower(s: Scenario, faults: map<U64, RunSummary>, families: set<Name>, a: Name,
                                        b: Name)
    requires ThreeRuns(faults) && families == {a, b} && a != b
    ensures OneSlower(s, faults, families) <==> Slowest(s, faults, a, b) || Slowest(s, faults, b, a)
  {
  }
}
