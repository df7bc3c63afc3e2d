/** What an accepted scenario looks like: two pairs of participants with the same two clients. */
module Acceptance {
  import opened Common
  import opened Scenario

  // ---------- Names ----------

  /** At most 63 lower-case letters, digits and hyphens, of which the first is a letter, or a digit if allowed. */
  ghost predicate NameText(text: string, digitFirst: bool) {
    && 1 <= |text| <= 63 && ('a' <= text[0] <= 'z' || (digitFirst && '0' <= text[0] <= '9'))
    && forall c :: c in text ==> 'a' <= c <= 'z' || '0' <= c <= '9' || c == '-'
  }

  lemma {:induction false} NameMeaning(n: Name)
    ensures ValidName(n) <==> NameText(n.text, false)
    ensures ValidArtifactName(n) <==> NameText(n.text, true)
  {
    forall c | c in n.text && NameTail(n.text) ensures c == n.text[0] || Letter(c) || Digit(c) || c == '-' {
      var i :| 0 <= i < |n.text| && n.text[i] == c;
    }
    assert forall i :: 0 <= i < |n.text| ==> n.text[i] in n.text;
  }

  // ---------- Topology ----------

  ghost predicate ServicesOf(p: Participant, id: Name) {
    id == p.services.beacon || id == p.services.execution || id == p.services.validator
  }

  lemma {:induction false} ServiceAt(ps: seq<Participant>, i: nat, k: nat)
    requires i < |ps| && k < 3
    ensures |AllServices(ps)| == 3 * |ps| && AllServices(ps)[3 * i + k] == ServiceList(ps[i])[k]
  {
    var init := ps[..|ps| - 1];
    if i < |init| {
      ServiceAt(init, i, k);
    } else if |init| > 0 {
      ServiceAt(init, 0, 0);
    }
  }

  /** A participant's three services are different, and named. */
  ghost predicate ServicesFit(p: Participant) {
    && (forall id :: ServicesOf(p, id) ==> NameText(id.text, false))
    && p.services.beacon != p.services.execution && p.services.beacon != p.services.validator
    && p.services.execution != p.services.validator
  }

  ghost predicate ServicesApart(p: Participant, q: Participant) {
    forall id :: ServicesOf(p, id) ==> !ServicesOf(q, id)
  }

  lemma {:induction false} ServicesDistinct(ps: seq<Participant>)
    requires ValidServices(AllServices(ps))
    ensures forall p :: p in ps ==> ServicesFit(p)
    ensures forall i, j :: 0 <= i < j < |ps| ==> ServicesApart(ps[i], ps[j])
  {
    forall p | p in ps ensures ServicesFit(p) {
      var i :| 0 <= i < |ps| && ps[i] == p;
      OwnServices(ps, i);
    }
    forall i, j | 0 <= i < j < |ps| ensures ServicesApart(ps[i], ps[j]) {
      forall k, l | 0 <= k < 3 && 0 <= l < 3 ensures ServiceList(ps[i])[k] != ServiceList(ps[j])[l] {
        ServiceAt(ps, i, k);
        ServiceAt(ps, j, l);
      }
      ApartByIndex(ps[i], ps[j]);
    }
  }

  lemma {:induction false} OwnServices(ps: seq<Participant>, i: nat)
    requires ValidServices(AllServices(ps)) && i < |ps|
    ensures ServicesFit(ps[i])
  {
    ServiceAt(ps, i, 0);
    ServiceAt(ps, i, 1);
    ServiceAt(ps, i, 2);
    ServicesNamed(ps[i]);
  }

  lemma {:induction false} ServicesNamed(p: Participant)
    ensures (forall id :: id in ServiceList(p) ==> ValidName(id)) <==>
              forall id :: ServicesOf(p, id) ==> NameText(id.text, false)
  {
    forall id ensures ServicesOf(p, id) <==> id in ServiceList(p) {
      assert ServicesOf(p, ServiceList(p)[0]) && ServicesOf(p, ServiceList(p)[1]) && ServicesOf(p, ServiceList(p)[2]);
      assert ServiceList(p)[0] == p.services.beacon && ServiceList(p)[1] == p.services.execution
             && ServiceList(p)[2] == p.services.validator;
    }
    forall id ensures ValidName(id) <==> NameText(id.text, false) {
      NameMeaning(id);
    }
  }

  lemma {:induction false} ApartByIndex(p: Participant, q: Participant)
    requires forall k, l :: 0 <= k < 3 && 0 <= l < 3 ==> ServiceList(p)[k] != ServiceList(q)[l]
    ensures ServicesApart(p, q)
  {
    forall id | ServicesOf(p, id) ensures !ServicesOf(q, id) {
      var k := if id == p.services.beacon then 0 else if id == p.services.execution then 1 else 2;
      assert ServiceList(p)[k] == id;
      assert ServiceList(q)[0] != id && ServiceList(q)[1] != id && ServiceList(q)[2] != id;
    }
  }

  lemma {:induction false} DistinctServices(ps: seq<Participant>)
    requires forall p :: p in ps ==> ServicesFit(p)
    requires forall i, j :: 0 <= i < j < |ps| ==> ServicesApart(ps[i], ps[j])
    ensures ValidServices(AllServices(ps))
  {
    if ps != [] {
      var init, p := ps[..|ps| - 1], ps[|ps| - 1];
      DistinctServices(init);
      ServicesNamed(p);
      assert p in ps;
      forall id | id in ServiceList(p) ensures id !in AllServices(init) && ValidName(id) {
        assert ServicesOf(p, id);
        SomeOwner(init, id);
      }
      var before, list := AllServices(init), ServiceList(p);
      assert list[0] != list[1] && list[0] != list[2] && list[1] != list[2];
      assert forall k :: 0 <= k < |list| ==> list[k] in list;
      assert forall k :: 0 <= k < |before| ==> before[k] in before;
    }
  }

  lemma {:induction false} SomeOwner(ps: seq<Participant>, id: Name)
    ensures id in AllServices(ps) ==> exists i :: 0 <= i < |ps| && ServicesOf(ps[i], id)
  {
    if ps != [] {
      SomeOwner(ps[..|ps| - 1], id);
      if id in ServiceList(ps[|ps| - 1]) {
        assert ServicesOf(ps[|ps| - 1], id);
      }
    }
  }

  ghost predicate ParticipantNamed(p: Participant) {
    && NameText(p.id.text, false) && NameText(p.elClient.text, false) && NameText(p.clClient.text, false)
    && NameText(p.beaconTarget.text, false) && NameText(p.validatorRangeName.text, true)
  }

  /** Four participants, with names that follow their patterns, some validators each, and nothing in common. */
  ghost predicate TopologyFits(ps: seq<Participant>) {
    && |ps| == 4 && (forall p :: p in ps ==> ParticipantNamed(p) && p.validatorCount > 0 && ServicesFit(p))
    && forall i, j :: 0 <= i < j < |ps| ==>
         && ps[i].id != ps[j].id && ps[i].beaconTarget != ps[j].beaconTarget
         && ps[i].validatorRangeName != ps[j].validatorRangeName && ServicesApart(ps[i], ps[j])
  }

  lemma {:induction false} NamedMeaning(p: Participant)
    ensures WellNamed(p) <==> ParticipantNamed(p)
    ensures ParticipantNamed(p) ==> (ValidParticipant(p) <==> p.validatorCount > 0)
  {
    NameMeaning(p.id);
    NameMeaning(p.elClient);
    NameMeaning(p.clClient);
    NameMeaning(p.beaconTarget);
    NameMeaning(p.validatorRangeName);
  }

  lemma {:induction false} TopologyMeaning(ps: seq<Participant>)
    ensures |ps| == 4 && ValidParticipants(ps) && NamesFit(ps) <==> TopologyFits(ps)
  {
    forall p | p in ps
      ensures WellNamed(p) <==> ParticipantNamed(p)
      ensures ParticipantNamed(p) ==> (ValidParticipant(p) <==> p.validatorCount > 0)
    {
      NamedMeaning(p);
    }
    if NamesFit(ps) {
      ServicesDistinct(ps);
    }
    if TopologyFits(ps) {
      DistinctServices(ps);
    }
  }

  // ---------- The two groups ----------

  /** The group lists these two participants. */
  ghost predicate GroupOfTwo(g: FaultGroup, p: Participant, q: Participant) {
    && NameText(g.name.text, false) && -0.000000000001 <= g.share - 0.5 <= 0.000000000001
    && g.participants == [p.id, q.id]
  }

  /** Two participants with different clients. */
  ghost predicate IsPair(p: Participant, q: Participant) {
    p.clClient != q.clClient
  }

  ghost predicate SameClients(p: Participant, q: Participant, r: Participant, s: Participant) {
    (p.clClient == r.clClient && q.clClient == s.clClient) || (p.clClient == s.clClient && q.clClient == r.clClient)
  }

  ghost predicate FourDifferent(a: Participant, b: Participant, c: Participant, d: Participant) {
    a.id != b.id && a.id != c.id && a.id != d.id && b.id != c.id && b.id != d.id && c.id != d.id
  }

  /** The groups are two pairs of different participants, with as many validators. */
  ghost predicate TwoPairs(f: Fault, a: Participant, b: Participant, c: Participant, d: Participant)
    requires |f.groups| == 2
  {
    && GroupOfTwo(f.groups[0], a, b) && GroupOfTwo(f.groups[1], c, d) && f.groups[0].name != f.groups[1].name
    && -0.000000000001 <= f.groups[0].share + f.groups[1].share - 1.0 <= 0.000000000001
    && FourDifferent(a, b, c, d)
    && (a.validatorCount + b.validatorCount) % 0x1_0000_0000_0000_0000 ==
         (c.validatorCount + d.validatorCount) % 0x1_0000_0000_0000_0000
  }

  /** The four participants stand in two groups of two, with the same two clients and as many validators. */
  ghost predicate TwoMixedPairs(f: Fault, a: Participant, b: Participant, c: Participant, d: Participant)
    requires |f.groups| == 2
  {
    TwoPairs(f, a, b, c, d) && IsPair(a, b) && SameClients(a, b, c, d)
  }

  ghost predicate FaultFits(f: Fault, ps: seq<Participant>) {
    && f.faultType == "network_partition" && f.splitBy == "validator_weight" && f.layers == ["cl_p2p"]
    && f.durationEpochs == 3 && |f.groups| == 2
    && exists a, b, c, d ::
         a in ps && b in ps && c in ps && d in ps && TwoMixedPairs(f, a, b, c, d)
  }

  ghost predicate FaultAccepted(f: Fault, m: map<Name, Participant>) {
    ValidFault(f, m) && GroupNamesFit(f.groups) && Mixed(f.groups, m)
  }

  lemma {:induction false} WeightOfTwo(a: Participant, b: Participant, m: map<Name, Participant>)
    requires a.id in m && m[a.id] == a && b.id in m && m[b.id] == b
    ensures ConfiguredWeight([a.id, b.id], m) == (a.validatorCount + b.validatorCount) % (MAX_UINT64 + 1)
  {
    assert [a.id, b.id][..1] == [a.id] && [a.id][..0] == [];
    assert ConfiguredWeight([a.id], m) == (0 + a.validatorCount) % (MAX_UINT64 + 1) == a.validatorCount;
  }

  lemma {:induction false} SharesOfTwo(groups: seq<FaultGroup>)
    requires |groups| == 2
    ensures SumShares(groups) == groups[0].share + groups[1].share
  {
    assert groups[..1][..0] == [] && groups[..2] == groups;
    assert SumShares(groups[..1]) == 0.0 + groups[0].share;
  }

  /** The groups list these four participants, two each. */
  ghost predicate Lists(groups: seq<FaultGroup>, m: map<Name, Participant>, a: Participant, b: Participant,
                        c: Participant, d: Participant) {
    && |groups| == 2 && groups[0].participants == [a.id, b.id] && groups[1].participants == [c.id, d.id]
    && a.id in m && b.id in m && c.id in m && d.id in m
    && m[a.id] == a && m[b.id] == b && m[c.id] == c && m[d.id] == d
  }

  lemma {:induction false} ListedFour(f: Fault, m: map<Name, Participant>)
    returns (a: Participant, b: Participant, c: Participant, d: Participant)
    requires |m| == 4 && FaultAccepted(f, m) && forall id :: id in m ==> m[id].id == id
    ensures Lists(f.groups, m, a, b, c, d) && IsPair(a, b)
  {
    GroupSizes(f, m);
    var g, h := f.groups[0].participants, f.groups[1].participants;
    assert f.groups[0] in f.groups && f.groups[1] in f.groups;
    MixedIsOneEach(f, m);
    a, b, c, d := m[g[0]], m[g[1]], m[h[0]], m[h[1]];
  }

  lemma {:induction false} MixedIsOneEach(f: Fault, m: map<Name, Participant>)
    requires |m| == 4 && FaultAccepted(f, m)
    ensures OneOfEach(f.groups[0].participants, m) && OneOfEach(f.groups[1].participants, m)
  {
    GroupSizes(f, m);
    TwoFamilies(f.groups, m);
  }

  lemma {:induction false} DistinctIsDifferent(groups: seq<FaultGroup>, m: map<Name, Participant>, a: Participant,
                                               b: Participant, c: Participant, d: Participant)
    requires Lists(groups, m, a, b, c, d)
    ensures Distinct(Members(groups)) <==> FourDifferent(a, b, c, d)
  {
    TwoGroups(groups, m);
    assert Members(groups) == [a.id, b.id, c.id, d.id];
    FourNames(Members(groups), a.id, b.id, c.id, d.id);
  }

  lemma {:induction false} AllCovered(groups: seq<FaultGroup>, m: map<Name, Participant>, a: Participant,
                                      b: Participant, c: Participant, d: Participant)
    requires |m| == 4 && Lists(groups, m, a, b, c, d) && FourDifferent(a, b, c, d)
    ensures Elements(Members(groups)) == m.Keys == {a.id, b.id, c.id, d.id}
  {
    TwoGroups(groups, m);
    assert Members(groups) == [a.id, b.id, c.id, d.id];
    FourNames(Members(groups), a.id, b.id, c.id, d.id);
    SameSizeSubset(Elements(Members(groups)), m.Keys);
  }

  lemma {:induction false} FourNames(ids: seq<Name>, a: Name, b: Name, c: Name, d: Name)
    requires ids == [a, b, c, d]
    ensures Elements(ids) == {a, b, c, d}
    ensures Distinct(ids) <==> a != b && a != c && a != d && b != c && b != d && c != d
    ensures Distinct(ids) ==> |Elements(ids)| == 4
  {
    assert ids[0] == a && ids[1] == b && ids[2] == c && ids[3] == d;
    DistinctSize(ids);
  }

  lemma {:induction false} GroupsMeaning(groups: seq<FaultGroup>, m: map<Name, Participant>, a: Participant,
                                         b: Participant, c: Participant, d: Participant)
    requires |m| == 4 && Lists(groups, m, a, b, c, d)
    ensures ValidGroups(groups, m) && GroupNamesFit(groups) <==>
              && GroupOfTwo(groups[0], a, b) && GroupOfTwo(groups[1], c, d) && groups[0].name != groups[1].name
              && FourDifferent(a, b, c, d)
  {
    NameMeaning(groups[0].name);
    NameMeaning(groups[1].name);
    DistinctIsDifferent(groups, m, a, b, c, d);
    assert groups == [groups[0], groups[1]];
    OneGroupMeaning(groups[0], m, a, b);
    OneGroupMeaning(groups[1], m, c, d);
  }

  lemma {:induction false} OneGroupMeaning(g: FaultGroup, m: map<Name, Participant>, a: Participant, b: Participant)
    requires g.participants == [a.id, b.id] && a.id in m && b.id in m
    ensures ValidGroup(g, m) && ValidName(g.name) <==> GroupOfTwo(g, a, b)
  {
    NameMeaning(g.name);
  }

  lemma {:induction false} MixedMeaning(groups: seq<FaultGroup>, m: map<Name, Participant>, a: Participant,
                                        b: Participant, c: Participant, d: Participant)
    requires |m| == 4 && Lists(groups, m, a, b, c, d) && FourDifferent(a, b, c, d) && IsPair(a, b)
    ensures forall g :: g in groups ==> Elements(g.participants) <= m.Keys
    ensures Mixed(groups, m) <==> SameClients(a, b, c, d)
  {
    AllCovered(groups, m, a, b, c, d);
    ClientsOfTwo(groups[0].participants, m, a, b);
    ClientsOfTwo(groups[1].participants, m, c, d);
    ClientsOfFour(m, a, b, c, d);
    AtLeastTwo({a.clClient, b.clClient}, Families(m.Keys, m));
    CoveredByBoth(a.clClient, b.clClient, c.clClient, d.clClient);
    MixedOfTwo(groups, m, Families(m.Keys, m));
  }

  lemma {:induction false} MixedOfTwo(groups: seq<FaultGroup>, m: map<Name, Participant>, families: set<Name>)
    requires |groups| == 2 && families == Families(m.Keys, m) && |families| >= 2
    requires Elements(groups[0].participants) <= m.Keys && Elements(groups[1].participants) <= m.Keys
    ensures forall g :: g in groups ==> Elements(g.participants) <= m.Keys
    ensures Mixed(groups, m) <==>
              && families <= Families(Elements(groups[0].participants), m)
              && families <= Families(Elements(groups[1].participants), m)
  {
    assert groups[0] in groups && groups[1] in groups;
    assert forall g :: g in groups ==> g == groups[0] || g == groups[1];
  }

  lemma {:induction false} ClientsOfFour(m: map<Name, Participant>, a: Participant, b: Participant, c: Participant,
                                         d: Participant)
    requires m.Keys == {a.id, b.id, c.id, d.id} && m[a.id] == a && m[b.id] == b && m[c.id] == c && m[d.id] == d
    ensures Families(m.Keys, m) == {a.clClient, b.clClient, c.clClient, d.clClient}
  {
  }

  /** Two pairs have all four names between them each exactly when they are the same pair. */
  lemma {:induction false} CoveredByBoth(a: Name, b: Name, c: Name, d: Name)
    requires a != b
    ensures {a, b, c, d} <= {a, b} && {a, b, c, d} <= {c, d} <==> (a == c && b == d) || (a == d && b == c)
  {
    assert {a, b, c, d} <= {c, d} <==> a in {c, d} && b in {c, d};
    assert {a, b, c, d} <= {a, b} <==> c in {a, b} && d in {a, b};
  }

  lemma {:induction false} AtLeastTwo<T>(small: set<T>, large: set<T>)
    requires small <= large && |small| == 2
    ensures |large| >= 2
  {
    assert large == small + (large - small);
  }

  lemma {:induction false} ClientsOfTwo(ids: seq<Name>, m: map<Name, Participant>, p: Participant, q: Participant)
    requires ids == [p.id, q.id] && p.id in m && q.id in m && m[p.id] == p && m[q.id] == q
    ensures Elements(ids) == {p.id, q.id} <= m.Keys && Families(Elements(ids), m) == {p.clClient, q.clClient}
  {
    assert ids[0] == p.id && ids[1] == q.id;
  }

  lemma {:induction false} SumsMeaning(groups: seq<FaultGroup>, m: map<Name, Participant>, a: Participant,
                                       b: Participant, c: Participant, d: Participant)
    requires Lists(groups, m, a, b, c, d)
    ensures Abs(SumShares(groups) - 1.0) <= SHARE_TOLERANCE <==>
              -0.000000000001 <= groups[0].share + groups[1].share - 1.0 <= 0.000000000001
    ensures ConfiguredWeight(groups[0].participants, m) == ConfiguredWeight(groups[1].participants, m) <==>
              (a.validatorCount + b.validatorCount) % 0x1_0000_0000_0000_0000 ==
                (c.validatorCount + d.validatorCount) % 0x1_0000_0000_0000_0000
  {
    SharesOfTwo(groups);
    WeightOfTwo(a, b, m);
    WeightOfTwo(c, d, m);
  }

  lemma {:induction false} PairsValid(f: Fault, m: map<Name, Participant>, a: Participant, b: Participant,
                                      c: Participant, d: Participant)
    requires |m| == 4 && Lists(f.groups, m, a, b, c, d)
    requires f.faultType == "network_partition" && f.splitBy == "validator_weight" && f.layers == ["cl_p2p"]
    requires f.durationEpochs == 3
    ensures ValidFault(f, m) && GroupNamesFit(f.groups) <==> TwoPairs(f, a, b, c, d)
  {
    GroupsMeaning(f.groups, m, a, b, c, d);
    SumsMeaning(f.groups, m, a, b, c, d);
    if FourDifferent(a, b, c, d) {
      AllCovered(f.groups, m, a, b, c, d);
    }
  }

  /** For groups that list four participants in pairs the checks say just that the pairs fit. */
  lemma {:induction false} PairsAccepted(f: Fault, m: map<Name, Participant>, a: Participant, b: Participant,
                                         c: Participant, d: Participant)
    requires |m| == 4 && Lists(f.groups, m, a, b, c, d)
    requires f.faultType == "network_partition" && f.splitBy == "validator_weight" && f.layers == ["cl_p2p"]
    requires f.durationEpochs == 3 && IsPair(a, b)
    ensures FaultAccepted(f, m) <==> TwoMixedPairs(f, a, b, c, d)
  {
    PairsValid(f, m, a, b, c, d);
    if TwoPairs(f, a, b, c, d) {
      MixedMeaning(f.groups, m, a, b, c, d);
    }
  }

  /** A fault is accepted exactly when its groups are two such pairs. */
  lemma {:induction false} FaultMeaning(f: Fault, ps: seq<Participant>)
    requires |ps| == 4 && forall i, j :: 0 <= i < j < |ps| ==> ps[i].id != ps[j].id
    ensures FaultAccepted(f, ById(ps)) <==> FaultFits(f, ps)
  {
    var m := ById(ps);
    ByIdIndexes(ps);
    if FaultAccepted(f, m) {
      var a, b, c, d := ListedFour(f, m);
      PairsAccepted(f, m, a, b, c, d);
    }
    if FaultFits(f, ps) {
      var a, b, c, d :| a in ps && b in ps && c in ps && d in ps && TwoMixedPairs(f, a, b, c, d);
      assert Lists(f.groups, m, a, b, c, d);
      PairsAccepted(f, m, a, b, c, d);
    }
  }

  // ---------- The whole scenario ----------

  ghost predicate HasText(text: string) {
    exists c :: c in text && !IsSpace(c)
  }

  ghost predicate MethodFits(m: Methodology) {
    && m.controlRepetitions == 3 && m.faultRepetitions == 3 && m.pairing == "by_repetition" && HasText(m.orderSeed)
    && m.postFaultObservationEpochs == 4
    && m.runOrder == RunOrderOf(m.digests, ["control-1", "control-2", "control-3", "fault-1", "fault-2", "fault-3"])
  }

  ghost predicate HeaderSays(s: Scenario) {
    && s.apiVersion == "ethquake.dev/v1alpha1" && s.kind == "Scenario" && NameText(s.name.text, false)
    && s.target.chainID == 3151908 && s.target.namespacePrefix == "kt-ethquake-phase3-"
    && s.prediction.primaryMetric == "finalized_epoch_progress"
    && s.prediction.gateARule == "max_fault_target_strictly_less_than_min_paired_control_target_all_repetitions"
    && s.prediction.gateBRule == "zero_fault_progress_and_recovery_all_repetitions"
    && HasText(s.prediction.explanation) && HasText(s.doesNotProve)
  }

  ghost predicate ScenarioFits(s: Scenario) {
    && HeaderSays(s) && TopologyFits(s.participants) && FaultFits(s.fault, s.participants)
    && s.thresholds == Thresholds(1, 0.0, 1) && MethodFits(s.methodology)
  }

  lemma {:induction false} MethodMeaning(m: Methodology)
    ensures ValidMethodology(m) && OrderFits(m) <==> MethodFits(m)
  {
    RunIdsDistinct();
    DerivedIsPermutation(m.digests, RUN_IDS);
  }

  /** The accepted scenarios are exactly those of this shape. */
  lemma {:induction false} AcceptedMeaning(s: Scenario)
    ensures Accepted(s) <==> ScenarioFits(s)
  {
    NameMeaning(s.name);
    TopologyMeaning(s.participants);
    MethodMeaning(s.methodology);
    if TopologyFits(s.participants) {
      FaultMeaning(s.fault, s.participants);
    }
    assert ValidHeader(s) <==> HeaderSays(s);
    assert ValidThresholds(s.thresholds) <==> s.thresholds == Thresholds(1, 0.0, 1);
  }

}
