/** Inputs on which a promise fails that its exact condition excludes. */
module Examples {
  import opened Common
  import opened Scenario
  import opened Split
  import opened Results
  import R = Reorg
  import opened Summary

  // ---------- A collision the validation lets through ----------

  /** Participants `n[0]..n[3]`; the beacon target of the first is the id of the third. */
  function CollidingParticipants(n: seq<Name>): seq<Participant>
    requires |n| == 12
  {
    [Participant(n[0], n[11], n[4], n[2], Services(n[0], n[1], n[2]), n[0], 1),
     Participant(n[1], n[11], n[5], n[6], Services(n[3], n[4], n[5]), n[1], 1),
     Participant(n[2], n[11], n[4], n[7], Services(n[6], n[7], n[8]), n[2], 1),
     Participant(n[3], n[11], n[5], n[8], Services(n[9], n[10], n[11]), n[3], 1)]
  }

  function CollidingGroups(n: seq<Name>, a: real, b: real): seq<FaultGroup>
    requires |n| == 12
  {
    [FaultGroup(n[9], a, [n[0], n[1]]), FaultGroup(n[10], b, [n[2], n[3]])]
  }

  function CollidingFault(n: seq<Name>, a: real, b: real): Fault
    requires |n| == 12
  {
    Fault("network_partition", "validator_weight", ["cl_p2p"], 3, CollidingGroups(n, a, b))
  }

  function CollidingScenario(n: seq<Name>, digests: map<string, nat>, a: real, b: real): Scenario
    requires |n| == 12
  {
    Scenario("ethquake.dev/v1alpha1", "Scenario", n[0], Target(3151908, NAMESPACE_PREFIX),
             CollidingParticipants(n), CollidingFault(n, a, b), Thresholds(1, 0.0, 1),
             Methodology(3, 3, "by_repetition", "seed", digests, RunOrderOf(digests, RUN_IDS), 4),
             Prediction(PRIMARY_METRIC, GATE_A_RULE, GATE_B_RULE, "text"), "text")
  }

  ghost predicate TwelveNames(n: seq<Name>) {
    |n| == 12 && Distinct(n) && forall name :: name in n ==> ValidName(name)
  }

  /** The shares the scenario accepts. */
  predicate AcceptedShares(a: real, b: real) {
    && Abs(a - 0.5) <= SHARE_TOLERANCE && Abs(b - 0.5) <= SHARE_TOLERANCE && Abs(a + b - 1.0) <= SHARE_TOLERANCE
  }

  ghost predicate CollidingMap(n: seq<Name>, m: map<Name, Participant>) {
    && TwelveNames(n) && m.Keys == {n[0], n[1], n[2], n[3]}
    && (forall id :: id in m ==> m[id].validatorCount == 1)
    && m[n[0]].clClient == n[4] && m[n[1]].clClient == n[5] && m[n[2]].clClient == n[4] && m[n[3]].clClient == n[5]
  }

  lemma {:induction false} CollidingAreValid(n: seq<Name>)
    requires TwelveNames(n)
    ensures ValidParticipants(CollidingParticipants(n))
  {
    var ps := CollidingParticipants(n);
    assert forall k :: 0 <= k < 12 ==> n[k] in n;
    forall i, j | 0 <= i < j < 4 ensures Unrelated(ps[i], ps[j]) {
      assert n[i] != n[j];
    }
  }

  lemma {:induction false} CollidingServices(n: seq<Name>)
    requires |n| == 12
    ensures AllServices(CollidingParticipants(n)) == n
  {
    var ps := CollidingParticipants(n);
    assert ps[..3] == [ps[0], ps[1], ps[2]] && [ps[0], ps[1], ps[2]][..2] == [ps[0], ps[1]];
    assert [ps[0], ps[1]][..1] == [ps[0]] && [ps[0]][..0] == [];
    assert AllServices([ps[0]]) == n[..3];
    assert AllServices([ps[0], ps[1]]) == n[..6];
    assert AllServices([ps[0], ps[1], ps[2]]) == n[..9];
  }

  lemma {:induction false} CollidingById(n: seq<Name>)
    requires TwelveNames(n)
    ensures ValidParticipants(CollidingParticipants(n))
    ensures CollidingMap(n, ById(CollidingParticipants(n)))
  {
    var ps := CollidingParticipants(n);
    CollidingAreValid(n);
    ByIdIndexes(ps);
    var m := ById(ps);
    forall id | id in m ensures id in {n[0], n[1], n[2], n[3]} {
      assert m[id] in ps && m[id].id == id;
    }
    assert ps[0].id in m && ps[1].id in m && ps[2].id in m && ps[3].id in m;
  }

  lemma {:induction false} PairWeight(a: Name, b: Name, m: map<Name, Participant>)
    requires a in m && b in m && m[a].validatorCount == 1 && m[b].validatorCount == 1
    ensures ConfiguredWeight([a, b], m) == 2
  {
    assert [a, b][..1] == [a] && [a][..0] == [];
    assert ConfiguredWeight([a], m) == 1;
  }

  lemma {:induction false} CollidingGroupsValid(n: seq<Name>, a: real, b: real, m: map<Name, Participant>)
    requires CollidingMap(n, m) && AcceptedShares(a, b)
    ensures ValidGroups(CollidingGroups(n, a, b), m) && SumShares(CollidingGroups(n, a, b)) == a + b
    ensures Members(CollidingGroups(n, a, b)) == [n[0], n[1], n[2], n[3]]
  {
    var groups := CollidingGroups(n, a, b);
    TwoGroups(groups, m);
    assert Members(groups) == [n[0], n[1], n[2], n[3]] == n[..4];
    assert groups[..1] == [groups[0]] && groups[..1][..0] == [];
    assert SumShares([groups[0]]) == a;
    assert n[9] != n[10] && n[9] in n && n[10] in n;
  }

  lemma {:induction false} CollidingMixed(n: seq<Name>, a: real, b: real, m: map<Name, Participant>)
    requires CollidingMap(n, m)
    ensures forall g :: g in CollidingGroups(n, a, b) ==> Elements(g.participants) <= m.Keys
    ensures Mixed(CollidingGroups(n, a, b), m)
  {
    assert Elements([n[0], n[1]]) == {n[0], n[1]} && Elements([n[2], n[3]]) == {n[2], n[3]};
    assert Families({n[0], n[1]}, m) == {n[4], n[5]} == Families({n[2], n[3]}, m);
    assert Families(m.Keys, m) == {n[4], n[5]} && n[4] != n[5];
  }

  lemma {:induction false} CollidingFaultValid(n: seq<Name>, a: real, b: real, m: map<Name, Participant>)
    requires CollidingMap(n, m) && AcceptedShares(a, b)
    ensures ValidFault(CollidingFault(n, a, b), m)
  {
    CollidingGroupsValid(n, a, b, m);
    assert Elements([n[0], n[1], n[2], n[3]]) == {n[0], n[1], n[2], n[3]};
    PairWeight(n[0], n[1], m);
    PairWeight(n[2], n[3], m);
  }

  lemma {:induction false} HeaderFits(n: seq<Name>, digests: map<string, nat>, a: real, b: real)
    requires TwelveNames(n)
    ensures ValidHeader(CollidingScenario(n, digests, a, b)) && GroupNamesFit(CollidingGroups(n, a, b))
    ensures OrderFits(CollidingScenario(n, digests, a, b).methodology)
  {
    assert n[0] in n && n[9] in n && n[10] in n;
    NotBlank();
  }

  lemma {:induction false} NotBlank()
    ensures !Blank("seed") && !Blank("text")
  {
    assert 's' in "seed" && 't' in "text";
  }

  /** Scenario validation accepts a target named like a participant of the other group, and the summary then
      puts that participant's target into the wrong group. */
  lemma {:induction false} ValidationMissesCollision(n: seq<Name>, digests: map<string, nat>, a: real, b: real)
    requires TwelveNames(n) && AcceptedShares(a, b)
    ensures Accepted(CollidingScenario(n, digests, a, b))
    ensures !NoHarmfulCollision(CollidingParticipants(n), GroupOf(CollidingGroups(n, a, b)))
  {
    CollidingIsValid(n, digests, a, b);
    CollidingNamesFit(n);
    HeaderFits(n, digests, a, b);
    CollidingById(n);
    CollisionIsHarmful(n, a, b, ById(CollidingParticipants(n)));
  }

  lemma {:induction false} CollidingNamesFit(n: seq<Name>)
    requires TwelveNames(n)
    ensures NamesFit(CollidingParticipants(n))
  {
    assert forall k :: 0 <= k < 12 ==> n[k] in n;
    CollidingServices(n);
  }

  lemma {:induction false} CollidingIsValid(n: seq<Name>, digests: map<string, nat>, a: real, b: real)
    requires TwelveNames(n) && AcceptedShares(a, b)
    ensures Valid(CollidingScenario(n, digests, a, b))
  {
    CollidingById(n);
    var m := ById(CollidingParticipants(n));
    CollidingFaultValid(n, a, b, m);
    CollidingMixed(n, a, b, m);
    RunIdsDistinct();
    DerivedIsPermutation(digests, RUN_IDS);
  }

  lemma {:induction false} CollisionIsHarmful(n: seq<Name>, a: real, b: real, m: map<Name, Participant>)
    requires CollidingMap(n, m) && AcceptedShares(a, b)
    ensures !NoHarmfulCollision(CollidingParticipants(n), GroupOf(CollidingGroups(n, a, b)))
  {
    var ps, groups := CollidingParticipants(n), CollidingGroups(n, a, b);
    CollidingGroupsValid(n, a, b, m);
    GroupOfMembers(groups);
    assert groups[0] in groups && groups[1] in groups;
    assert n[0] in groups[0].participants && n[2] in groups[1].participants;
    assert ps[0].beaconTarget == ps[2].id && n[9] != n[10];
  }

  // ---------- Four validators, one for each participant ----------

  function SingletonRanges(n: seq<Name>): seq<ValidatorRange>
    requires |n| == 12
  {
    [ValidatorRange(0, 0, n[0]), ValidatorRange(1, 1, n[1]), ValidatorRange(2, 2, n[2]), ValidatorRange(3, 3, n[3])]
  }

  function FourValidators(w: seq<U64>): seq<Validator>
    requires |w| == 4
  {
    [Validator(0, w[0]), Validator(1, w[1]), Validator(2, w[2]), Validator(3, w[3])]
  }

  function OwnedOneEach(n: seq<Name>): seq<OwnedRange>
    requires |n| == 12
  {
    [OwnedRange(0, 0, n[0]), OwnedRange(1, 1, n[1]), OwnedRange(2, 2, n[2]), OwnedRange(3, 3, n[3])]
  }

  lemma {:induction false} OwnersOfRanges(n: seq<Name>)
    requires TwelveNames(n)
    ensures OwnersKnown(CollidingParticipants(n), SingletonRanges(n))
    ensures OwnedRanges(CollidingParticipants(n), SingletonRanges(n)) == OwnedOneEach(n)
  {
    var ps, m := CollidingParticipants(n), ByRange(CollidingParticipants(n));
    assert n[0] != n[1] && n[0] != n[2] && n[0] != n[3] && n[1] != n[2] && n[1] != n[3] && n[2] != n[3];
    assert ps[..3] == [ps[0], ps[1], ps[2]] && [ps[0], ps[1], ps[2]][..2] == [ps[0], ps[1]];
    assert [ps[0], ps[1]][..1] == [ps[0]] && [ps[0]][..0] == [];
    assert ByRange([ps[0]]) == map[n[0] := n[0]];
    assert ByRange([ps[0], ps[1]]) == map[n[0] := n[0]][n[1] := n[1]];
    assert m == ByRange([ps[0], ps[1], ps[2]])[n[3] := n[3]] ==
             map[n[0] := n[0]][n[1] := n[1]][n[2] := n[2]][n[3] := n[3]];
    var owned := OwnedRanges(ps, SingletonRanges(n));
    forall i | 0 <= i < 4 ensures owned[i] == OwnedOneEach(n)[i] {
      assert SingletonRanges(n)[i].owner == n[i] && m[n[i]] == n[i];
    }
  }

  lemma {:induction false} OwnerOfIndex(n: seq<Name>, i: nat)
    requires TwelveNames(n) && i < 4
    ensures Attributed(OwnedOneEach(n), i) == Some(n[i])
  {
    assert forall k :: 0 <= k < 4 ==> n[k] in n;
    OwnerIsUnique(OwnedOneEach(n), i);
    SearchFindsOwner(OwnedOneEach(n), i);
    assert Within(OwnedOneEach(n)[i], i);
  }

  /** Participant `i` holds validator `i` and nothing else. */
  lemma {:induction false} BalancesOneEach(n: seq<Name>, w: seq<U64>, i: nat)
    requires TwelveNames(n) && |w| == 4 && i < 4
    ensures Count(OwnedOneEach(n), FourValidators(w), n[i]) == 1
    ensures Balance(OwnedOneEach(n), FourValidators(w), n[i]) == w[i]
  {
    var owned, vs := OwnedOneEach(n), FourValidators(w);
    OwnerOfIndex(n, 0);
    OwnerOfIndex(n, 1);
    OwnerOfIndex(n, 2);
    OwnerOfIndex(n, 3);
    assert vs[..3] == [vs[0], vs[1], vs[2]] && [vs[0], vs[1], vs[2]][..2] == [vs[0], vs[1]];
    assert [vs[0], vs[1]][..1] == [vs[0]] && [vs[0]][..0] == [];
    assert Count(owned, [vs[0]], n[i]) == if i == 0 then 1 else 0;
    assert Count(owned, [vs[0], vs[1]], n[i]) == if i <= 1 then 1 else 0;
    assert Count(owned, [vs[0], vs[1], vs[2]], n[i]) == if i <= 2 then 1 else 0;
    assert Balance(owned, [vs[0]], n[i]) == if i == 0 then w[0] else 0;
    assert Balance(owned, [vs[0], vs[1]], n[i]) == if i <= 1 then w[i] else 0;
    assert Balance(owned, [vs[0], vs[1], vs[2]], n[i]) == if i <= 2 then w[i] else 0;
  }

  function Sum(a: nat, b: nat, c: nat, d: nat): nat { a + b + c + d }

  lemma {:induction false} TotalOfFour(w: seq<U64>)
    requires |w| == 4
    ensures Total(FourValidators(w)) == Sum(w[0], w[1], w[2], w[3])
  {
    var vs := FourValidators(w);
    assert vs[..3] == [vs[0], vs[1], vs[2]] && [vs[0], vs[1], vs[2]][..2] == [vs[0], vs[1]];
    assert [vs[0], vs[1]][..1] == [vs[0]] && [vs[0]][..0] == [];
    assert Total([vs[0]]) == w[0];
    assert Total([vs[0], vs[1]]) == Sum(w[0], w[1], 0, 0);
  }

  lemma {:induction false} EveryValidatorOwned(n: seq<Name>, w: seq<U64>)
    requires TwelveNames(n) && |w| == 4
    ensures AllOwned(OwnedOneEach(n), FourValidators(w), IdsOf(CollidingParticipants(n)))
  {
    forall v | v in FourValidators(w)
      ensures Attributed(OwnedOneEach(n), v.index).Some?
      ensures Attributed(OwnedOneEach(n), v.index).value in IdsOf(CollidingParticipants(n))
    {
      OwnerOfIndex(n, v.index);
      assert IdsOf(CollidingParticipants(n))[v.index] == n[v.index];
    }
  }

  /** A split of these validators can be calculated whenever their balances are a positive uint64 in all. */
  lemma {:induction false} FourCanBeCalculated(n: seq<Name>, digests: map<string, nat>, a: real, b: real,
                                               w: seq<U64>)
    requires TwelveNames(n) && |w| == 4 && 0 < Sum(w[0], w[1], w[2], w[3]) <= MAX_UINT64
    ensures Calculable(CollidingScenario(n, digests, a, b), SingletonRanges(n), FourValidators(w))
    ensures OwnedRanges(CollidingParticipants(n), SingletonRanges(n)) == OwnedOneEach(n)
  {
    var ps := CollidingParticipants(n);
    OwnersOfRanges(n);
    EveryValidatorOwned(n, w);
    TotalOfFour(w);
    forall i | 0 <= i < 4 ensures Count(OwnedOneEach(n), FourValidators(w), ps[i].id) == ps[i].validatorCount {
      BalancesOneEach(n, w, i);
    }
  }

  // ---------- A participant without balance ----------

  /** A split can be calculated in which one participant holds nothing, and the validator refuses it. */
  lemma {:induction false} ZeroBalanceIsRefused(n: seq<Name>, digests: map<string, nat>, split: RealizedSplit)
    requires TwelveNames(n)
    ensures var s, vs := CollidingScenario(n, digests, 0.5, 0.5), FourValidators([0, 2, 1, 1]);
            && Accepted(s) && Calculable(s, SingletonRanges(n), vs)
            && (IsRealizedSplit(s, SingletonRanges(n), vs, split) ==> !SplitAccepted(s, split))
  {
    var s, ps, w := CollidingScenario(n, digests, 0.5, 0.5), CollidingParticipants(n), [0, 2, 1, 1];
    FourCanBeCalculated(n, digests, 0.5, 0.5, w);
    BalancesOneEach(n, w, 0);
    ValidationMissesCollision(n, digests, 0.5, 0.5);
    assert ps[0] in ps;
    if IsRealizedSplit(s, SingletonRanges(n), FourValidators(w), split) {
      CalculatorAgreesWithValidator(s, SingletonRanges(n), FourValidators(w), split);
    }
  }

  // ---------- Uneven groups within the zero tolerance ----------

  /** The larger and the smaller share are off one half by less than 1e-12. */
  const LARGER: real := 0.5000000000001
  const SMALLER: real := 0.4999999999999

  const UNEVEN: seq<U64> := [2_500_000_000_001, 2_500_000_000_000, 2_500_000_000_000, 2_499_999_999_999]

  lemma {:induction false} PairBalance(owned: seq<OwnedRange>, vs: seq<Validator>, p: Name, q: Name)
    ensures BalanceSum(owned, vs, [p, q]) == Balance(owned, vs, p) + Balance(owned, vs, q)
  {
    assert [p, q][..1] == [p] && [p][..0] == [];
    assert BalanceSum(owned, vs, [p]) == Balance(owned, vs, p);
  }

  lemma {:induction false} UnevenShares(n: seq<Name>)
    requires TwelveNames(n)
    ensures var owned, vs := OwnedOneEach(n), FourValidators(UNEVEN);
            && BalanceSum(owned, vs, [n[0], n[1]]) == 5_000_000_000_001
            && BalanceSum(owned, vs, [n[2], n[3]]) == 4_999_999_999_999 && Total(vs) == 10_000_000_000_000
  {
    var owned, vs := OwnedOneEach(n), FourValidators(UNEVEN);
    TotalOfFour(UNEVEN);
    BalancesOneEach(n, UNEVEN, 0);
    BalancesOneEach(n, UNEVEN, 1);
    BalancesOneEach(n, UNEVEN, 2);
    BalancesOneEach(n, UNEVEN, 3);
    PairBalance(owned, vs, n[0], n[1]);
    PairBalance(owned, vs, n[2], n[3]);
  }

  lemma {:induction false} UnevenVerdict(owned: seq<OwnedRange>, vs: seq<Validator>, groups: seq<FaultGroup>,
                                         weights: seq<GroupWeight>, within: bool)
    requires |groups| == 2 && groups[0].share == LARGER && groups[1].share == SMALLER
    requires Total(vs) == 10_000_000_000_000 && BalanceSum(owned, vs, groups[0].participants) == 5_000_000_000_001
    requires BalanceSum(owned, vs, groups[1].participants) == 4_999_999_999_999
    requires GroupsMatch(owned, vs, 0.0, groups, weights, within)
    ensures within && weights[0].effectiveBalance == 5_000_000_000_001
  {
    assert GroupMatches(owned, vs, groups[0], weights[0]);
    assert GroupWithin(owned, vs, groups[0], 0.0) && GroupWithin(owned, vs, groups[1], 0.0);
  }

  /** In a valid scenario whose shares are not exactly one half, the calculated split is within the zero
      tolerance although its groups do not hold the same. */
  lemma {:induction false} UnevenWithinTolerance(n: seq<Name>, digests: map<string, nat>, split: RealizedSplit)
    requires TwelveNames(n)
    ensures var s, vs := CollidingScenario(n, digests, LARGER, SMALLER), FourValidators(UNEVEN);
            && Accepted(s) && Calculable(s, SingletonRanges(n), vs)
            && (IsRealizedSplit(s, SingletonRanges(n), vs, split) ==> split.withinTolerance && !EvenSplit(split))
  {
    var s, vs := CollidingScenario(n, digests, LARGER, SMALLER), FourValidators(UNEVEN);
    FourCanBeCalculated(n, digests, LARGER, SMALLER, UNEVEN);
    ValidationMissesCollision(n, digests, LARGER, SMALLER);
    UnevenShares(n);
    if IsRealizedSplit(s, SingletonRanges(n), vs, split) {
      UnevenVerdict(OwnedOneEach(n), vs, s.fault.groups, split.groups, split.withinTolerance);
      assert split.groups[0] in split.groups;
    }
  }

  // ---------- A head that is already listed ----------

  /** Going back to a listed block counts to its parent: from the third block back to the second the depth
      is two, although only one block was left. */
  lemma {:induction false} ListedHeadCountsToParent(target: string, z: R.Hash, p: R.Hash, q: R.Hash, r: R.Hash)
    requires z != p && p != q && q != r && z != q && z != r && p != r
    ensures var a, b, c := R.Head(1, p, z), R.Head(2, q, p), R.Head(3, r, q);
            && b in R.ChainAfter(R.Bounded(8), [a, b, c])
            && R.AnswerAfter(target, R.Bounded(8), [a, b, c], b).DepthKnown()
            && R.AnswerAfter(target, R.Bounded(8), [a, b, c], b).Depth() == 2
  {
    var a, b, c := R.Head(1, p, z), R.Head(2, q, p), R.Head(3, r, q);
    assert [a, b, c][..2] == [a, b] && [a, b][..1] == [a] && [a][..0] == [];
    assert R.ChainAfter(R.Bounded(8), [a]) == [a];
    assert R.ChainAfter(R.Bounded(8), [a, b]) == [a, b];
    assert R.ChainAfter(R.Bounded(8), [a, b, c]) == [a, b, c];
    assert R.LastIndex([a], p) == 0 && R.LastIndex([a, b], p) == 0;
  }
}
