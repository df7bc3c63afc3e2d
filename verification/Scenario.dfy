/** The committed scenario, and the counting facts its validation establishes. */
module Scenario {
  import opened Common

  datatype Target = Target(chainID: U64, namespacePrefix: string)

  /** The services of a participant's beacon node, execution node and validator. */
  datatype Services = Services(beacon: Name, execution: Name, validator: Name)

  datatype Participant = Participant(
    id: Name, elClient: Name, clClient: Name, beaconTarget: Name, services: Services, validatorRangeName: Name,
    validatorCount: U64)

  datatype FaultGroup = FaultGroup(name: Name, share: real, participants: seq<Name>)

  datatype Fault = Fault(
    faultType: string, splitBy: string, layers: seq<string>, durationEpochs: U64, groups: seq<FaultGroup>)

  datatype Thresholds = Thresholds(
    headDivergenceToleranceSlots: U64, realizedSplitTolerance: real, clientRecoveryDifferenceSlots: U64)

  /** `digests` holds the SHA-256 value, as a number, of the order seed with each run id. */
  datatype Methodology = Methodology(
    controlRepetitions: U64, faultRepetitions: U64, pairing: string, orderSeed: string, digests: map<string, nat>,
    runOrder: seq<string>, postFaultObservationEpochs: U64)

  datatype Prediction = Prediction(primaryMetric: string, gateARule: string, gateBRule: string, explanation: string)

  datatype Scenario = Scenario(
    apiVersion: string, kind: string, name: Name, target: Target, participants: seq<Participant>, fault: Fault,
    thresholds: Thresholds, methodology: Methodology, prediction: Prediction, doesNotProve: string)

  // ---------- Names and texts ----------

  predicate Letter(c: char) { 'a' <= c <= 'z' }

  predicate Digit(c: char) { '0' <= c <= '9' }

  predicate NameTail(text: string) {
    |text| <= 63 && forall i :: 1 <= i < |text| ==> Letter(text[i]) || Digit(text[i]) || text[i] == '-'
  }

  /** The pattern `^[a-z][a-z0-9-]{0,62}$`. */
  predicate ValidName(n: Name) {
    n.text != "" && Letter(n.text[0]) && NameTail(n.text)
  }

  /** The pattern `^[a-z0-9][a-z0-9-]{0,62}$`. */
  predicate ValidArtifactName(n: Name) {
    n.text != "" && (Letter(n.text[0]) || Digit(n.text[0])) && NameTail(n.text)
  }

  /** Unicode white space. */
  predicate IsSpace(c: char) {
    || c == ' ' || '\t' <= c <= '\r' || c == '\U{0085}' || c == '\U{00a0}' || c == '\U{1680}'
    || '\U{2000}' <= c <= '\U{200a}' || c == '\U{2028}' || c == '\U{2029}' || c == '\U{202f}' || c == '\U{205f}'
    || c == '\U{3000}'
  }

  /** Nothing is left after trimming. */
  predicate Blank(text: string) {
    forall c :: c in text ==> IsSpace(c)
  }

  // ---------- Topology ----------

  predicate ValidParticipant(p: Participant) {
    p.id != NO_NAME && p.clClient != NO_NAME && p.beaconTarget != NO_NAME && p.validatorRangeName != NO_NAME
    && p.validatorCount > 0
  }

  /** Two participants share no identity. */
  predicate Unrelated(p: Participant, q: Participant) {
    p.id != q.id && p.beaconTarget != q.beaconTarget && p.validatorRangeName != q.validatorRangeName
  }

  function ServiceList(p: Participant): seq<Name> {
    [p.services.beacon, p.services.execution, p.services.validator]
  }

  function AllServices(ps: seq<Participant>): seq<Name> {
    if ps == [] then [] else AllServices(ps[..|ps| - 1]) + ServiceList(ps[|ps| - 1])
  }

  /** No two services have the same id, whether of one participant or of two. */
  ghost predicate ValidServices(ids: seq<Name>) {
    Distinct(ids) && forall id :: id in ids ==> ValidName(id)
  }

  predicate WellNamed(p: Participant) {
    && ValidName(p.id) && ValidName(p.elClient) && ValidName(p.clClient) && ValidName(p.beaconTarget)
    && ValidArtifactName(p.validatorRangeName)
  }

  /** All names follow their patterns. */
  ghost predicate NamesFit(ps: seq<Participant>) {
    (forall p :: p in ps ==> WellNamed(p)) && ValidServices(AllServices(ps))
  }

  ghost predicate ValidParticipants(ps: seq<Participant>) {
    && (forall i :: 0 <= i < |ps| ==> ValidParticipant(ps[i]))
    && (forall i, j :: 0 <= i < j < |ps| ==> Unrelated(ps[i], ps[j]))
  }

  /** The participants by id; a later entry replaces an earlier one. */
  function ById(ps: seq<Participant>): map<Name, Participant> {
    if ps == [] then map[] else ById(ps[..|ps| - 1])[ps[|ps| - 1].id := ps[|ps| - 1]]
  }

  ghost predicate IndexedBy(ps: seq<Participant>, m: map<Name, Participant>) {
    && (forall i :: 0 <= i < |ps| ==> ps[i].id in m && m[ps[i].id] == ps[i])
    && (forall id :: id in m ==> m[id] in ps && m[id].id == id)
  }

  lemma {:induction false} ByIdIndexes(ps: seq<Participant>)
    requires forall i, j :: 0 <= i < j < |ps| ==> ps[i].id != ps[j].id
    ensures IndexedBy(ps, ById(ps)) && |ById(ps)| == |ps|
  {
    if ps != [] {
      var init, p := ps[..|ps| - 1], ps[|ps| - 1];
      assert ps == init + [p];
      ByIdIndexes(init);
      assert p.id !in ById(init);
    }
  }

  method ValidateTopology(ps: seq<Participant>) returns (r: Result<map<Name, Participant>>)
    ensures r.Ok? <==> |ps| == 4 && ValidParticipants(ps) && NamesFit(ps)
    ensures r.Ok? ==> r.value == ById(ps) && IndexedBy(ps, r.value) && |r.value| == 4
  {
    if |ps| != 4 {
      return Err;
    }
    r := ScanParticipants(ps);
    if r.Ok? {
      ByIdIndexes(ps);
    }
  }

  /** What the loop has gathered from the participants `done`. */
  ghost predicate ParticipantsGathered(done: seq<Participant>, participants: map<Name, Participant>, targets: set<Name>,
                           ranges: set<Name>, services: set<Name>)
  {
    && ValidParticipants(done) && NamesFit(done) && participants == ById(done)
    && Seen(done, participants.Keys, targets, ranges) && services == Elements(AllServices(done))
  }

  /** The loop over the participants. */
  method ScanParticipants(ps: seq<Participant>) returns (r: Result<map<Name, Participant>>)
    ensures r.Ok? <==> ValidParticipants(ps) && NamesFit(ps)
    ensures r.Ok? ==> r.value == ById(ps)
  {
    var participants: map<Name, Participant> := map[];
    var beaconTargets: set<Name> := {};
    var serviceIDs: set<Name> := {};
    var rangeNames: set<Name> := {};
    for n := 0 to |ps|
      invariant ParticipantsGathered(ps[..n], participants, beaconTargets, rangeNames, serviceIDs)
    {
      var p := ps[n];
      var ok, grown := CheckParticipant(ps[..n], p, participants, beaconTargets, rangeNames, serviceIDs);
      PrefixStep(ps, n);
      if !ok {
        PrefixParticipants(ps, n + 1);
        return Err;
      }
      participants := participants[p.id := p];
      beaconTargets, serviceIDs := beaconTargets + {p.beaconTarget}, grown;
      rangeNames := rangeNames + {p.validatorRangeName};
    }
    assert ps[..|ps|] == ps;
    return Ok(participants);
  }

  lemma {:induction false} OneMoreById(ps: seq<Participant>, p: Participant)
    ensures ById(ps + [p]) == ById(ps)[p.id := p]
    ensures ById(ps + [p]).Keys == ById(ps).Keys + {p.id}
  {
  }

  lemma {:induction false} PrefixParticipants(ps: seq<Participant>, n: nat)
    requires n <= |ps|
    ensures ValidParticipants(ps) ==> ValidParticipants(ps[..n])
    ensures NamesFit(ps) ==> NamesFit(ps[..n])
  {
    PrefixServices(ps, n);
  }

  lemma {:induction false} PrefixServices(ps: seq<Participant>, n: nat)
    requires n <= |ps|
    ensures ValidServices(AllServices(ps)) ==> ValidServices(AllServices(ps[..n]))
    decreases |ps|
  {
    if n < |ps| {
      var init := ps[..|ps| - 1];
      assert init[..n] == ps[..n];
      if ValidServices(AllServices(ps)) {
        DistinctPrefix(AllServices(init), ServiceList(ps[|ps| - 1]));
      }
      PrefixServices(init, n);
    } else {
      assert ps[..n] == ps;
    }
  }

  /** The checks of one participant against those before it. */
  method CheckParticipant(ghost before: seq<Participant>, p: Participant, participants: map<Name, Participant>,
                          targets: set<Name>, ranges: set<Name>, services: set<Name>)
    returns (ok: bool, grown: set<Name>)
    requires ParticipantsGathered(before, participants, targets, ranges, services)
    ensures ok <==> ValidParticipants(before + [p]) && NamesFit(before + [p])
    ensures ok ==> ParticipantsGathered(before + [p], participants[p.id := p], targets + {p.beaconTarget},
                            ranges + {p.validatorRangeName}, grown)
  {
    NewcomerUnrelated(before, p, participants.Keys, targets, ranges);
    OneMoreServices(before, p);
    OneMoreById(before, p);
    ok, grown := CheckServices(AllServices(before), ServiceList(p), services);
    ok := ok && WellNamed(p) && p.validatorCount > 0 && p.id !in participants && p.beaconTarget !in targets
          && p.validatorRangeName !in ranges;
  }

  /** The loop over a participant's services. */
  method CheckServices(ghost before: seq<Name>, list: seq<Name>, services: set<Name>)
    returns (ok: bool, grown: set<Name>)
    requires services == Elements(before) && ValidServices(before)
    ensures ok <==> ValidServices(before + list)
    ensures ok ==> grown == Elements(before + list)
  {
    grown := services;
    for n := 0 to |list|
      invariant ValidServices(before + list[..n]) && grown == Elements(before + list[..n])
    {
      assert before + list[..n + 1] == before + list[..n] + [list[n]];
      if !ValidName(list[n]) || list[n] in grown {
        RepeatedMember(before, list, n);
        assert list[n] in before + list;
        return false, grown;
      }
      grown := grown + {list[n]};
    }
    assert list[..|list|] == list;
    ok := true;
  }

  /** What the three sets hold after the participants `ps`. */
  ghost predicate Seen(ps: seq<Participant>, ids: set<Name>, targets: set<Name>, ranges: set<Name>) {
    && ids == (set p | p in ps :: p.id)
    && targets == (set p | p in ps :: p.beaconTarget)
    && ranges == (set p | p in ps :: p.validatorRangeName)
  }

  lemma {:induction false} OneMoreServices(ps: seq<Participant>, p: Participant)
    ensures AllServices(ps + [p]) == AllServices(ps) + ServiceList(p)
  {
    assert (ps + [p])[..|ps|] == ps;
  }

  lemma {:induction false} NewcomerUnrelated(ps: seq<Participant>, p: Participant, ids: set<Name>, targets: set<Name>,
                                             ranges: set<Name>)
    requires Seen(ps, ids, targets, ranges) && ValidParticipants(ps)
    ensures ValidParticipants(ps + [p]) <==>
              ValidParticipant(p) && p.id !in ids && p.beaconTarget !in targets && p.validatorRangeName !in ranges
    ensures Seen(ps + [p], ids + {p.id}, targets + {p.beaconTarget}, ranges + {p.validatorRangeName})
  {
    var all := ps + [p];
    if ValidParticipants(all) {
      assert all[|ps|] == p;
      forall q | q in ps ensures Unrelated(q, p) {
        var i :| 0 <= i < |ps| && ps[i] == q;
        assert Unrelated(all[i], all[|ps|]);
      }
    }
  }

  // ---------- Fault groups ----------

  function Members(groups: seq<FaultGroup>): seq<Name> {
    if groups == [] then [] else Members(groups[..|groups| - 1]) + groups[|groups| - 1].participants
  }

  function CountOf(id: Name, participants: map<Name, Participant>): U64 {
    if id in participants then participants[id].validatorCount else 0
  }

  /** The sum of the configured validator counts as the loop computes it, modulo 2^64. */
  function ConfiguredWeight(ids: seq<Name>, participants: map<Name, Participant>): U64 {
    if ids == [] then 0
    else (ConfiguredWeight(ids[..|ids| - 1], participants) + CountOf(ids[|ids| - 1], participants)) % (MAX_UINT64 + 1)
  }

  function Weights(groups: seq<FaultGroup>, participants: map<Name, Participant>): seq<U64> {
    if groups == [] then []
    else
      Weights(groups[..|groups| - 1], participants)
      + [ConfiguredWeight(groups[|groups| - 1].participants, participants)]
  }

  function Abs(x: real): real { if x < 0.0 then -x else x }

  const SHARE_TOLERANCE: real := 0.000000000001

  predicate ValidGroup(g: FaultGroup, participants: map<Name, Participant>) {
    && g.name != NO_NAME && Abs(g.share - 0.5) <= SHARE_TOLERANCE && g.participants != []
    && forall id :: id in g.participants ==> id in participants
  }

  ghost predicate GroupNamesFit(groups: seq<FaultGroup>) {
    forall g :: g in groups ==> ValidName(g.name)
  }

  function SumShares(groups: seq<FaultGroup>): real {
    if groups == [] then 0.0 else SumShares(groups[..|groups| - 1]) + groups[|groups| - 1].share
  }

  /** The groups are well formed, differently named, and share no member. */
  ghost predicate ValidGroups(groups: seq<FaultGroup>, participants: map<Name, Participant>) {
    && (forall g :: g in groups ==> ValidGroup(g, participants))
    && (forall i, j :: 0 <= i < j < |groups| ==> groups[i].name != groups[j].name)
    && Distinct(Members(groups))
  }

  ghost predicate ValidFault(f: Fault, participants: map<Name, Participant>) {
    && f.faultType == "network_partition" && f.splitBy == "validator_weight" && f.layers == ["cl_p2p"]
    && f.durationEpochs == 3 && |f.groups| == 2 && ValidGroups(f.groups, participants)
    && Elements(Members(f.groups)) == participants.Keys
    && Abs(SumShares(f.groups) - 1.0) <= SHARE_TOLERANCE
    && ConfiguredWeight(f.groups[0].participants, participants) ==
       ConfiguredWeight(f.groups[1].participants, participants)
  }

  lemma {:induction false} MembersKnown(groups: seq<FaultGroup>, participants: map<Name, Participant>)
    requires forall g :: g in groups ==> ValidGroup(g, participants)
    ensures Elements(Members(groups)) <= participants.Keys
  {
    if groups != [] {
      var init, last := groups[..|groups| - 1], groups[|groups| - 1];
      MembersKnown(init, participants);
      forall id | id in Members(groups) ensures id in participants {
        assert last in groups && (id in Members(init) || id in last.participants);
        assert id in Members(init) ==> id in Elements(Members(init));
      }
    }
  }

  method ValidateFault(f: Fault, participants: map<Name, Participant>) returns (ok: bool)
    ensures ok <==> ValidFault(f, participants) && GroupNamesFit(f.groups)
  {
    if f.faultType != "network_partition" || f.splitBy != "validator_weight" {
      return false;
    }
    if |f.layers| != 1 || f.layers[0] != "cl_p2p" {
      return false;
    }
    if f.durationEpochs != 3 || |f.groups| != 2 {
      return false;
    }
    var seenParticipants, totalShare, requestedWeight;
    ok, seenParticipants, totalShare, requestedWeight := CheckGroups(f.groups, participants);
    if !ok || Abs(totalShare - 1.0) > SHARE_TOLERANCE {
      return false;
    }
    if |seenParticipants| != |participants| {
      return false;
    }
    GroupsTogether(f.groups, participants);
    ok := requestedWeight[0] == requestedWeight[1];
  }

  lemma {:induction false} GroupsTogether(groups: seq<FaultGroup>, participants: map<Name, Participant>)
    requires |groups| == 2 && ValidGroups(groups, participants)
    ensures |Elements(Members(groups))| == |participants| <==> Elements(Members(groups)) == participants.Keys
    ensures Weights(groups, participants) ==
              [ConfiguredWeight(groups[0].participants, participants),
               ConfiguredWeight(groups[1].participants, participants)]
  {
    MembersKnown(groups, participants);
    TwoGroups(groups, participants);
    if |Elements(Members(groups))| == |participants| {
      SameSizeSubset(Elements(Members(groups)), participants.Keys);
    }
  }

  /** What the loop has gathered from the groups `done`. */
  ghost predicate GroupsGathered(done: seq<FaultGroup>, participants: map<Name, Participant>, names: set<Name>,
                          seen: set<Name>, totalShare: real, weights: seq<U64>)
  {
    && ValidGroups(done, participants) && GroupNamesFit(done)
    && names == NamesOf(done) && seen == Elements(Members(done))
    && totalShare == SumShares(done) && weights == Weights(done, participants)
  }

  /** The loop over the groups. */
  method CheckGroups(groups: seq<FaultGroup>, participants: map<Name, Participant>)
    returns (ok: bool, seen: set<Name>, totalShare: real, requestedWeight: seq<U64>)
    ensures ok <==> ValidGroups(groups, participants) && GroupNamesFit(groups)
    ensures ok ==> seen == Elements(Members(groups)) && totalShare == SumShares(groups)
    ensures ok ==> requestedWeight == Weights(groups, participants)
  {
    seen, totalShare, requestedWeight := {}, 0.0, [];
    var seenGroups: set<Name> := {};
    for n := 0 to |groups|
      invariant GroupsGathered(groups[..n], participants, seenGroups, seen, totalShare, requestedWeight)
    {
      var g := groups[n];
      var valid, weight, grown :=
        CheckGroup(groups[..n], g, participants, seenGroups, seen, totalShare, requestedWeight);
      PrefixStep(groups, n);
      if !valid {
        PrefixGroups(groups, n + 1, participants);
        return false, seen, totalShare, requestedWeight;
      }
      seen, seenGroups := grown, seenGroups + {g.name};
      totalShare, requestedWeight := totalShare + g.share, requestedWeight + [weight];
    }
    assert groups[..|groups|] == groups;
    ok := true;
  }

  /** The checks of one group against those before it. */
  method CheckGroup(ghost before: seq<FaultGroup>, g: FaultGroup, participants: map<Name, Participant>,
                    seenGroups: set<Name>, seen: set<Name>, ghost totalShare: real, ghost weights: seq<U64>)
    returns (valid: bool, weight: U64, grown: set<Name>)
    requires GroupsGathered(before, participants, seenGroups, seen, totalShare, weights)
    ensures valid <==> ValidGroups(before + [g], participants) && GroupNamesFit(before + [g])
    ensures valid ==> GroupsGathered(before + [g], participants, seenGroups + {g.name}, grown, totalShare + g.share,
                              weights + [weight])
  {
    OneMoreGroup(before, g, participants);
    AddedUp(before, g, participants);
    if !ValidName(g.name) || g.name in seenGroups || Abs(g.share - 0.5) > SHARE_TOLERANCE || |g.participants| == 0 {
      return false, 0, seen;
    }
    var sum;
    sum, grown := CheckMembers(g.participants, participants, Members(before), seen);
    if sum.None? {
      return false, 0, seen;
    }
    return true, sum.value, grown;
  }

  function NamesOf(groups: seq<FaultGroup>): set<Name> {
    set g | g in groups :: g.name
  }

  lemma {:induction false} OneMoreGroup(groups: seq<FaultGroup>, g: FaultGroup, participants: map<Name, Participant>)
    requires ValidGroups(groups, participants)
    ensures Members(groups + [g]) == Members(groups) + g.participants
    ensures ValidGroups(groups + [g], participants) <==>
              && ValidGroup(g, participants) && (forall h :: h in groups ==> h.name != g.name)
              && Distinct(Members(groups) + g.participants)
  {
  }

  lemma {:induction false} AddedUp(groups: seq<FaultGroup>, g: FaultGroup, participants: map<Name, Participant>)
    ensures NamesOf(groups + [g]) == NamesOf(groups) + {g.name}
    ensures SumShares(groups + [g]) == SumShares(groups) + g.share
    ensures Weights(groups + [g], participants) ==
              Weights(groups, participants) + [ConfiguredWeight(g.participants, participants)]
  {
  }

  lemma {:induction false} PrefixGroups(groups: seq<FaultGroup>, n: nat, participants: map<Name, Participant>)
    requires n <= |groups|
    ensures ValidGroups(groups, participants) ==> ValidGroups(groups[..n], participants)
    decreases |groups| - n
  {
    if n < |groups| && ValidGroups(groups, participants) {
      PrefixGroups(groups, n + 1, participants);
      var init := groups[..n + 1][..n];
      assert groups[..n + 1] == init + [groups[n]] && init == groups[..n];
      assert Members(groups[..n + 1]) == Members(init) + groups[n].participants;
      DistinctPrefix(Members(init), groups[n].participants);
    } else {
      assert n == |groups| ==> groups[..n] == groups;
    }
  }

  lemma {:induction false} DistinctPrefix<T>(a: seq<T>, b: seq<T>)
    requires Distinct(a + b)
    ensures Distinct(a)
  {
    assert forall i :: 0 <= i < |a| ==> (a + b)[i] == a[i];
  }

  lemma {:induction false} TwoGroups(groups: seq<FaultGroup>, participants: map<Name, Participant>)
    requires |groups| == 2
    ensures Members(groups[..1]) == groups[0].participants
    ensures Members(groups) == groups[0].participants + groups[1].participants
    ensures Weights(groups, participants) ==
              [ConfiguredWeight(groups[0].participants, participants),
               ConfiguredWeight(groups[1].participants, participants)]
  {
    assert groups[..1][..0] == [] && groups[..2] == groups;
    assert Members(groups[..1]) == [] + groups[0].participants;
    assert Weights(groups[..1], participants) == [] + [ConfiguredWeight(groups[0].participants, participants)];
  }

  lemma {:induction false} SameSizeSubset<T>(a: set<T>, b: set<T>)
    requires a <= b && |b| <= |a|
    ensures a == b
  {
    assert b == a + (b - a);
  }

  /** The inner loop: no member is unknown or was seen before. */
  method CheckMembers(ids: seq<Name>, participants: map<Name, Participant>, ghost before: seq<Name>, seen: set<Name>)
    returns (weight: Option<U64>, grown: set<Name>)
    requires seen == Elements(before) && Distinct(before)
    ensures weight.Some? <==> (forall id :: id in ids ==> id in participants) && Distinct(before + ids)
    ensures weight.Some? ==> weight.value == ConfiguredWeight(ids, participants) && grown == Elements(before + ids)
  {
    grown := seen;
    var sum: U64 := 0;
    ghost var all := before;
    for n := 0 to |ids|
      invariant all == before + ids[..n] && Distinct(all) && grown == Elements(all)
      invariant forall id :: id in ids[..n] ==> id in participants
      invariant sum == ConfiguredWeight(ids[..n], participants)
    {
      var id := ids[n];
      assert ids[..n + 1] == ids[..n] + [id] && ids[..n + 1][..n] == ids[..n];
      if id !in participants || id in grown {
        RepeatedMember(before, ids, n);
        return None, grown;
      }
      all := all + [id];
      grown := grown + {id};
      sum := (sum + CountOf(id, participants)) % (MAX_UINT64 + 1);
    }
    assert ids[..|ids|] == ids;
    weight := Some(sum);
  }

  lemma {:induction false} RepeatedMember(before: seq<Name>, ids: seq<Name>, n: nat)
    requires n < |ids|
    ensures ids[n] in before + ids[..n] ==> !Distinct(before + ids)
  {
    var all := before + ids;
    assert all[|before| + n] == ids[n];
    assert forall i :: 0 <= i < |before| + n ==> all[i] == (before + ids[..n])[i];
  }

  // ---------- Mixed groups ----------

  ghost function Families(ids: set<Name>, participants: map<Name, Participant>): set<Name>
    requires ids <= participants.Keys
  {
    set id | id in ids :: participants[id].clClient
  }

  ghost predicate Mixed(groups: seq<FaultGroup>, participants: map<Name, Participant>)
    requires forall g :: g in groups ==> Elements(g.participants) <= participants.Keys
  {
    var families := Families(participants.Keys, participants);
    |families| >= 2 && forall g :: g in groups ==> families <= Families(Elements(g.participants), participants)
  }

  method ValidateMixedGroups(groups: seq<FaultGroup>, participants: map<Name, Participant>) returns (ok: bool)
    requires forall g :: g in groups ==> Elements(g.participants) <= participants.Keys
    ensures ok <==> Mixed(groups, participants)
  {
    var allClients: set<Name> := {};
    var rest := participants.Keys;
    while rest != {}
      invariant rest <= participants.Keys
      invariant allClients == Families(participants.Keys - rest, participants)
    {
      var id :| id in rest;
      rest := rest - {id};
      allClients := allClients + {participants[id].clClient};
    }
    assert participants.Keys - rest == participants.Keys;
    if |allClients| < 2 {
      return false;
    }
    for n := 0 to |groups|
      invariant forall i :: 0 <= i < n ==> allClients <= Families(Elements(groups[i].participants), participants)
    {
      var ids := groups[n].participants;
      assert groups[n] in groups;
      var clients: set<Name> := {};
      for k := 0 to |ids|
        invariant clients == Families(Elements(ids[..k]), participants)
      {
        assert ids[k] in Elements(ids) && Elements(ids[..k + 1]) == Elements(ids[..k]) + {ids[k]};
        clients := clients + {participants[ids[k]].clClient};
      }
      assert ids[..|ids|] == ids;
      if !(allClients <= clients) {
        return false;
      }
    }
    ok := true;
  }

  // ---------- The whole scenario ----------

  const RUN_IDS := ["control-1", "control-2", "control-3", "fault-1", "fault-2", "fault-3"]

  ghost predicate ValidThresholds(t: Thresholds) {
    t.headDivergenceToleranceSlots == 1 && t.realizedSplitTolerance == 0.0 && t.clientRecoveryDifferenceSlots == 1
  }

  datatype RankedRun = RankedRun(id: string, hash: nat)

  predicate RankedLe(a: RankedRun, b: RankedRun) {
    a.hash <= b.hash
  }

  /** A run with the digest of the seed and its id. */
  function RankRun(digests: map<string, nat>, id: string): RankedRun {
    RankedRun(id, if id in digests then digests[id] else 0)
  }

  function Ranked(digests: map<string, nat>, ids: seq<string>): (r: seq<RankedRun>)
    ensures |r| == |ids| && forall i :: 0 <= i < |ids| ==> r[i] == RankRun(digests, ids[i])
  {
    seq(|ids|, i requires 0 <= i < |ids| => RankRun(digests, ids[i]))
  }

  function RankedIds(runs: seq<RankedRun>): (ids: seq<string>)
    ensures |ids| == |runs| && forall i :: 0 <= i < |runs| ==> ids[i] == runs[i].id
  {
    seq(|runs|, i requires 0 <= i < |runs| => runs[i].id)
  }

  /** Both loops of the derivation, around the sort. */
  function RunOrderOf(digests: map<string, nat>, ids: seq<string>): seq<string> {
    RankedIds(Sort(RankedLe, Ranked(digests, ids)))
  }

  method DeriveRunOrder(digests: map<string, nat>, ids: seq<string>) returns (order: seq<string>)
    ensures order == RunOrderOf(digests, ids)
  {
    var ranked: seq<RankedRun> := [];
    for n := 0 to |ids|
      invariant |ranked| == n && forall i :: 0 <= i < n ==> ranked[i] == RankRun(digests, ids[i])
    {
      ranked := ranked + [RankRun(digests, ids[n])];
    }
    assert ranked == Ranked(digests, ids);
    var sorted := Sort(RankedLe, ranked);
    order := IdsInOrder(sorted);
  }

  method IdsInOrder(runs: seq<RankedRun>) returns (ids: seq<string>)
    ensures ids == RankedIds(runs)
  {
    ids := [];
    for n := 0 to |runs|
      invariant |ids| == n && forall i :: 0 <= i < n ==> ids[i] == runs[i].id
    {
      ids := ids + [runs[n].id];
    }
  }

  /** The order is the one derived from the seed. */
  predicate OrderFits(m: Methodology) {
    m.pairing == "by_repetition" && !Blank(m.orderSeed) && m.runOrder == RunOrderOf(m.digests, RUN_IDS)
  }

  ghost predicate ValidMethodology(m: Methodology) {
    && m.controlRepetitions == 3 && m.faultRepetitions == 3 && m.postFaultObservationEpochs == 4
    && |m.runOrder| == 6 && Distinct(m.runOrder) && Elements(m.runOrder) == Elements(RUN_IDS)
  }

  const NAMESPACE_PREFIX := "kt-ethquake-phase3-"
  const PRIMARY_METRIC := "finalized_epoch_progress"
  const GATE_A_RULE := "max_fault_target_strictly_less_than_min_paired_control_target_all_repetitions"
  const GATE_B_RULE := "zero_fault_progress_and_recovery_all_repetitions"

  predicate ValidTarget(t: Target) {
    t.chainID == 3151908 && t.namespacePrefix == NAMESPACE_PREFIX
  }

  predicate ValidPrediction(p: Prediction) {
    && p.primaryMetric == PRIMARY_METRIC
    && p.gateARule == GATE_A_RULE && p.gateBRule == GATE_B_RULE && !Blank(p.explanation)
  }

  /** The checks of single fields. */
  predicate ValidHeader(s: Scenario) {
    && s.apiVersion == "ethquake.dev/v1alpha1" && s.kind == "Scenario" && ValidName(s.name) && ValidTarget(s.target)
    && ValidPrediction(s.prediction) && !Blank(s.doesNotProve)
  }

  /** The parts that everything else relies on. */
  ghost predicate Valid(s: Scenario) {
    && |s.participants| == 4 && ValidParticipants(s.participants)
    && ValidFault(s.fault, ById(s.participants))
    && ValidThresholds(s.thresholds) && ValidMethodology(s.methodology)
    && Mixed(s.fault.groups, ById(s.participants))
  }

  /** The whole validation. */
  ghost predicate Accepted(s: Scenario) {
    && Valid(s) && NamesFit(s.participants) && GroupNamesFit(s.fault.groups) && OrderFits(s.methodology)
    && ValidHeader(s)
  }

  method ValidateThresholds(t: Thresholds) returns (ok: bool)
    ensures ok <==> ValidThresholds(t)
  {
    if t.headDivergenceToleranceSlots != 1 { return false; }
    if t.realizedSplitTolerance != 0.0 { return false; }
    if t.clientRecoveryDifferenceSlots != 1 { return false; }
    ok := true;
  }

  method ValidateMethodology(m: Methodology) returns (ok: bool)
    ensures ok <==> ValidMethodology(m) && OrderFits(m)
  {
    if m.controlRepetitions != 3 || m.faultRepetitions != 3 || m.pairing != "by_repetition" || Blank(m.orderSeed) {
      return false;
    }
    if m.postFaultObservationEpochs != 4 {
      return false;
    }
    if |m.runOrder| != |RUN_IDS| {
      return false;
    }
    RunIdsDistinct();
    ok := IsPermutation(m.runOrder, RUN_IDS);
    if !ok {
      return;
    }
    var derived := DeriveRunOrder(m.digests, RUN_IDS);
    DerivedIsPermutation(m.digests, RUN_IDS);
    ok := IsDerivedOrder(m.runOrder, derived);
  }

  method IsDerivedOrder(order: seq<string>, derived: seq<string>) returns (same: bool)
    requires |order| == |derived|
    ensures same <==> order == derived
  {
    for n := 0 to |derived|
      invariant forall i :: 0 <= i < n ==> order[i] == derived[i]
    {
      if order[n] != derived[n] {
        return false;
      }
    }
    same := true;
  }

  /** Every entry is crossed off a list of wanted entries. */
  method IsPermutation(order: seq<string>, expected: seq<string>) returns (ok: bool)
    requires Distinct(expected) && |order| == |expected|
    ensures ok <==> Distinct(order) && Elements(order) == Elements(expected)
  {
    var wanted := set id | id in expected;
    for n := 0 to |order|
      invariant Distinct(order[..n]) && Elements(order[..n]) <= Elements(expected)
      invariant wanted == Elements(expected) - Elements(order[..n])
    {
      assert order[..n + 1] == order[..n] + [order[n]] && order[n] in Elements(order);
      if order[n] !in wanted {
        assert Distinct(order) ==> order[n] !in order[..n];
        return false;
      }
      wanted := wanted - {order[n]};
    }
    assert order[..|order|] == order;
    DistinctSize(order);
    DistinctSize(expected);
    SameSizeSubset(Elements(order), Elements(expected));
    ok := true;
  }

  lemma {:induction false} RunIdsDistinct()
    ensures Distinct(RUN_IDS) && |Elements(RUN_IDS)| == 6
  {
    assert RUN_IDS[0][0] == 'c' && RUN_IDS[3][0] == 'f';
    assert RUN_IDS[0][8] == '1' && RUN_IDS[1][8] == '2' && RUN_IDS[2][8] == '3';
    assert RUN_IDS[1][0] == 'c' && RUN_IDS[2][0] == 'c' && RUN_IDS[4][0] == 'f' && RUN_IDS[5][0] == 'f';
    assert RUN_IDS[3][6] == '1' && RUN_IDS[4][6] == '2' && RUN_IDS[5][6] == '3';
    DistinctSize(RUN_IDS);
  }

  /** The seed's order is a permutation of the run ids; the check for one never refuses it. */
  lemma {:induction false} DerivedIsPermutation(digests: map<string, nat>, ids: seq<string>)
    requires Distinct(ids)
    ensures |RunOrderOf(digests, ids)| == |ids| && Distinct(RunOrderOf(digests, ids))
    ensures Elements(RunOrderOf(digests, ids)) == Elements(ids)
  {
    var ranked := Ranked(digests, ids);
    assert RankedIds(ranked) == ids;
    PermutedIds(Sort(RankedLe, ranked), ranked);
  }

  lemma {:induction false} PermutedIds(a: seq<RankedRun>, b: seq<RankedRun>)
    requires multiset(a) == multiset(b) && Distinct(RankedIds(b))
    ensures |a| == |b| && Distinct(RankedIds(a)) && Elements(RankedIds(a)) == Elements(RankedIds(b))
  {
    assert forall i, j :: 0 <= i < j < |b| ==> RankedIds(b)[i] != RankedIds(b)[j];
    PermutationElements(a, b);
    forall i, j | 0 <= i < j < |a| ensures RankedIds(a)[i] != RankedIds(a)[j] {
      assert a[i] in a && a[j] in a && a[i] != a[j];
      var k :| 0 <= k < |b| && b[k] == a[i];
      var l :| 0 <= l < |b| && b[l] == a[j];
      assert RankedIds(b)[k] != RankedIds(b)[l];
    }
    SameIds(a, b);
    SameIds(b, a);
  }

  lemma {:induction false} SameIds(a: seq<RankedRun>, b: seq<RankedRun>)
    requires forall r :: r in a ==> r in b
    ensures Elements(RankedIds(a)) <= Elements(RankedIds(b))
  {
    forall id | id in Elements(RankedIds(a)) ensures id in RankedIds(b) {
      var i :| 0 <= i < |a| && RankedIds(a)[i] == id;
      assert a[i] in a;
      var k :| 0 <= k < |b| && b[k] == a[i];
      assert RankedIds(b)[k] == id;
    }
  }

  /** The derived order ranks the run ids by their digests. */
  lemma {:induction false} DerivedAscends(digests: map<string, nat>, ids: seq<string>)
    requires forall id :: id in ids ==> id in digests
    ensures DigestsAscend(digests, RunOrderOf(digests, ids))
  {
    var ranked := Ranked(digests, ids);
    var sorted := Sort(RankedLe, ranked);
    PermutationElements(sorted, ranked);
    forall r | r in sorted ensures HasDigest(digests, r) {
      var k :| 0 <= k < |ranked| && ranked[k] == r;
      assert ids[k] in ids;
    }
    IdsAscend(digests, sorted);
  }

  predicate HasDigest(digests: map<string, nat>, r: RankedRun) {
    r.id in digests && digests[r.id] == r.hash
  }

  lemma {:induction false} IdsAscend(digests: map<string, nat>, runs: seq<RankedRun>)
    requires Sorted(RankedLe, runs) && forall r :: r in runs ==> HasDigest(digests, r)
    ensures DigestsAscend(digests, RankedIds(runs))
  {
    var order := RankedIds(runs);
    forall i, j | 0 <= i < j < |order|
      ensures order[i] in digests && order[j] in digests && digests[order[i]] <= digests[order[j]]
    {
      assert RankedLe(runs[i], runs[j]) && HasDigest(digests, runs[i]) && HasDigest(digests, runs[j]);
    }
  }

  /** When the digests differ, the derived order is the one permutation of the ids with ascending digests. */
  lemma {:induction false} OrderMeaning(digests: map<string, nat>, ids: seq<string>, order: seq<string>)
    requires Distinct(ids) && DigestsDiffer(digests, ids)
    ensures order == RunOrderOf(digests, ids) <==>
              multiset(order) == multiset(ids) && DigestsAscend(digests, order)
  {
    var derived := RunOrderOf(digests, ids);
    DerivedIsPermutation(digests, ids);
    DistinctPermutation(derived, ids);
    DerivedAscends(digests, ids);
    if multiset(order) == multiset(ids) && DigestsAscend(digests, order) {
      OnlyAscending(digests, ids, order, derived);
    }
  }

  /** Every id has a digest of its own. */
  ghost predicate DigestsDiffer(digests: map<string, nat>, ids: seq<string>) {
    && (forall id :: id in ids ==> id in digests)
    && forall a, b :: a in ids && b in ids && digests[a] == digests[b] ==> a == b
  }

  function DigestOf(digests: map<string, nat>, id: string): nat {
    if id in digests then digests[id] else 0
  }

  predicate DigestLe(digests: map<string, nat>, a: string, b: string) {
    DigestOf(digests, a) <= DigestOf(digests, b)
  }

  lemma {:induction false} OnlyAscending(digests: map<string, nat>, ids: seq<string>, a: seq<string>, b: seq<string>)
    requires DigestsDiffer(digests, ids) && multiset(a) == multiset(ids) == multiset(b)
    requires DigestsAscend(digests, a) && DigestsAscend(digests, b)
    ensures a == b
  {
    PermutationElements(a, ids);
    assert forall x, y :: x in a && y in a && DigestLe(digests, x, y) && DigestLe(digests, y, x) ==> x == y;
    SortedUnique((x, y) => DigestLe(digests, x, y), a, b);
  }

  ghost predicate DigestsAscend(digests: map<string, nat>, order: seq<string>) {
    forall i, j :: 0 <= i < j < |order| ==>
      order[i] in digests && order[j] in digests && digests[order[i]] <= digests[order[j]]
  }

  method Validate(s: Scenario) returns (ok: bool)
    ensures ok <==> Accepted(s)
  {
    if !ValidHeader(s) {
      return false;
    }
    var participants := ValidateTopology(s.participants);
    if participants.Err? {
      return false;
    }
    var faultOk := ValidateFault(s.fault, participants.value);
    if !faultOk {
      return false;
    }
    var thresholdsOk := ValidateThresholds(s.thresholds);
    if !thresholdsOk {
      return false;
    }
    var methodologyOk := ValidateMethodology(s.methodology);
    if !methodologyOk {
      return false;
    }
    ok := ValidateMixedGroups(s.fault.groups, participants.value);
  }

  // ---------- Counting facts ----------

  lemma {:induction false} FamiliesSize(ids: seq<Name>, participants: map<Name, Participant>)
    requires Elements(ids) <= participants.Keys
    ensures |Families(Elements(ids), participants)| <= |ids|
  {
    if ids == [] {
      assert Families(Elements(ids), participants) == {};
    } else {
      var init, last := ids[..|ids| - 1], ids[|ids| - 1];
      assert Elements(ids) == Elements(init) + {last};
      FamiliesSize(init, participants);
      assert Families(Elements(ids), participants) ==
               Families(Elements(init), participants) + {participants[last].clClient};
    }
  }

  /** One participant of each of two families. */
  ghost predicate OneOfEach(ids: seq<Name>, m: map<Name, Participant>) {
    |ids| == 2 && ids[0] in m && ids[1] in m && m[ids[0]].clClient != m[ids[1]].clClient
  }

  lemma {:induction false} GroupSizes(f: Fault, m: map<Name, Participant>)
    requires ValidFault(f, m) && |m| == 4
    ensures |f.groups[0].participants| + |f.groups[1].participants| == 4
    ensures Elements(f.groups[0].participants) <= m.Keys && Elements(f.groups[1].participants) <= m.Keys
  {
    TwoGroups(f.groups, m);
    DistinctSize(Members(f.groups));
    assert |m.Keys| == |m|;
  }

  /** A valid scenario has exactly two client families, and each group holds exactly one participant of each. */
  lemma {:induction false} OneOfEachFamily(s: Scenario)
    requires Valid(s)
    ensures |Families(ById(s.participants).Keys, ById(s.participants))| == 2
    ensures OneOfEach(s.fault.groups[0].participants, ById(s.participants))
    ensures OneOfEach(s.fault.groups[1].participants, ById(s.participants))
  {
    var m := ById(s.participants);
    ByIdIndexes(s.participants);
    GroupSizes(s.fault, m);
    TwoFamilies(s.fault.groups, m);
  }

  lemma {:induction false} TwoFamilies(groups: seq<FaultGroup>, m: map<Name, Participant>)
    requires |groups| == 2 && forall g :: g in groups ==> Elements(g.participants) <= m.Keys
    requires Mixed(groups, m) && |groups[0].participants| + |groups[1].participants| == 4
    ensures |Families(m.Keys, m)| == 2
    ensures OneOfEach(groups[0].participants, m) && OneOfEach(groups[1].participants, m)
  {
    assert groups[0] in groups && groups[1] in groups;
    FamilyCount(groups[0].participants, m, Families(m.Keys, m));
    FamilyCount(groups[1].participants, m, Families(m.Keys, m));
  }

  lemma {:induction false} FamilyCount(ids: seq<Name>, m: map<Name, Participant>, families: set<Name>)
    requires Elements(ids) <= m.Keys && families <= Families(Elements(ids), m) && |families| >= 2
    ensures |ids| >= |families|
    ensures |ids| == 2 ==> |families| == 2 && OneOfEach(ids, m)
  {
    FamiliesSize(ids, m);
    var all := Families(Elements(ids), m);
    assert all == families + (all - families);
    if |ids| == 2 {
      assert ids[0] in Elements(ids) && ids[1] in Elements(ids);
      assert all == {m[ids[0]].clClient, m[ids[1]].clClient};
    }
  }
}
