/** What a calculated split says, in terms of the ranges that each participant owns by name. */
module Attribution {
  import opened Common
  import opened Text
  import opened Scenario
  import opened Split

  // ---------- The parsed ranges ----------

  /** The entry's text is two decimal numbers with a hyphen between them. */
  ghost predicate EntryIs(x: RawRange, start: U64, end: U64) {
    exists s, e :: x.text == s + "-" + e && ParseUint(s) == Some(start) && ParseUint(e) == Some(end)
  }

  ghost predicate EntryFits(x: RawRange) {
    x.owner.text != "" && exists start, end :: EntryIs(x, start, end) && start <= end
  }

  ghost predicate EntriesApart(x: RawRange, y: RawRange) {
    forall a: U64, b: U64, c: U64, d: U64 :: EntryIs(x, a, b) && EntryIs(y, c, d) ==> b < c || d < a
  }

  lemma {:induction false} EntryMeaning(x: RawRange, start: U64, end: U64)
    ensures EntryIs(x, start, end) <==> KeyOf(x.text) == Some((start, end))
  {
    KeyMeaning(x.text, start, end);
  }

  lemma {:induction false} EntryWellFormed(x: RawRange)
    ensures EntryFits(x) <==> KeyOf(x.text).Some? && WellFormed(RangeOf(x))
  {
    if KeyOf(x.text).Some? {
      EntryMeaning(x, RangeOf(x).start, RangeOf(x).end);
    }
    if EntryFits(x) {
      var start, end :| EntryIs(x, start, end) && start <= end;
      EntryMeaning(x, start, end);
    }
    assert x.owner == NO_NAME <==> x.owner.text == "";
  }

  lemma {:induction false} EntryKnown(x: RawRange)
    requires KeyOf(x.text).Some?
    ensures forall a: U64, b: U64 :: EntryIs(x, a, b) <==> a == RangeOf(x).start && b == RangeOf(x).end
  {
    forall a: U64, b: U64 ensures EntryIs(x, a, b) <==> a == RangeOf(x).start && b == RangeOf(x).end {
      EntryMeaning(x, a, b);
    }
  }

  lemma {:induction false} ApartEntries(x: RawRange, y: RawRange)
    requires KeyOf(x.text).Some? && KeyOf(y.text).Some?
    ensures EntriesApart(x, y) <==> Apart(RangeOf(x), RangeOf(y))
  {
    EntryKnown(x);
    EntryKnown(y);
    assert EntryIs(x, RangeOf(x).start, RangeOf(x).end) && EntryIs(y, RangeOf(y).start, RangeOf(y).end);
  }

  lemma {:induction false} ApartIsDistinct(ranges: seq<ValidatorRange>)
    requires forall r :: r in ranges ==> WellFormed(r)
    ensures Distinct(ranges) && (forall a, b :: a in ranges && b in ranges && a != b ==> Apart(a, b)) <==>
              forall i, j :: 0 <= i < j < |ranges| ==> Apart(ranges[i], ranges[j])
  {
    if forall i, j :: 0 <= i < j < |ranges| ==> Apart(ranges[i], ranges[j]) {
      forall i, j | 0 <= i < j < |ranges| ensures ranges[i] != ranges[j] {
        assert Apart(ranges[i], ranges[j]) && WellFormed(ranges[i]);
      }
      forall a, b | a in ranges && b in ranges && a != b ensures Apart(a, b) {
        var i :| 0 <= i < |ranges| && ranges[i] == a;
        var j :| 0 <= j < |ranges| && ranges[j] == b;
        assert if i < j then Apart(ranges[i], ranges[j]) else Apart(ranges[j], ranges[i]);
      }
    }
  }

  /** Entries are accepted exactly when there are some, each fits, and no two overlap. */
  lemma {:induction false} ParseMeaning(raw: seq<RawRange>)
    ensures AllKeys(raw) && Acceptable(Parsed(raw)) <==>
              && raw != [] && (forall i :: 0 <= i < |raw| ==> EntryFits(raw[i]))
              && forall i, j :: 0 <= i < j < |raw| ==> EntriesApart(raw[i], raw[j])
  {
    forall i | 0 <= i < |raw| ensures EntryFits(raw[i]) <==> KeyOf(raw[i].text).Some? && WellFormed(RangeOf(raw[i])) {
      EntryWellFormed(raw[i]);
    }
    if AllKeys(raw) {
      KeyedMeaning(raw);
    }
  }

  lemma {:induction false} KeyedMeaning(raw: seq<RawRange>)
    requires AllKeys(raw)
    ensures Acceptable(Parsed(raw)) <==>
              && raw != [] && (forall i :: 0 <= i < |raw| ==> WellFormed(RangeOf(raw[i])))
              && forall i, j :: 0 <= i < j < |raw| ==> EntriesApart(raw[i], raw[j])
  {
    var ranges := Parsed(raw);
    EntriesOfRanges(raw);
    assert (forall r :: r in ranges ==> WellFormed(r)) <==> forall i :: 0 <= i < |ranges| ==> WellFormed(ranges[i]);
    if forall r :: r in ranges ==> WellFormed(r) {
      ApartIsDistinct(ranges);
    }
  }

  lemma {:induction false} EntriesOfRanges(raw: seq<RawRange>)
    requires AllKeys(raw)
    ensures forall i :: 0 <= i < |raw| ==> Parsed(raw)[i] == RangeOf(raw[i])
    ensures (forall i, j :: 0 <= i < j < |raw| ==> EntriesApart(raw[i], raw[j])) <==>
              forall i, j :: 0 <= i < j < |raw| ==> Apart(Parsed(raw)[i], Parsed(raw)[j])
  {
    forall i, j | 0 <= i < j < |raw| ensures EntriesApart(raw[i], raw[j]) <==> Apart(Parsed(raw)[i], Parsed(raw)[j]) {
      ApartEntries(raw[i], raw[j]);
    }
  }

  /** The parsed list is that of the entries, in increasing order. */
  lemma {:induction false} ListMeaning(raw: seq<RawRange>, ranges: seq<ValidatorRange>)
    requires IsParse(raw, ranges)
    ensures |ranges| == |raw|
    ensures forall r :: r in ranges <==> Entered(raw, r)
    ensures forall i, j :: 0 <= i < j < |ranges| ==> ranges[i].end < ranges[j].start
  {
    PermutationElements(ranges, Parsed(raw));
    forall r ensures r in Parsed(raw) <==> Entered(raw, r) {
      ParsedMeaning(raw, r);
    }
  }

  ghost predicate Entered(raw: seq<RawRange>, r: ValidatorRange) {
    exists x :: x in raw && EntryIs(x, r.start, r.end) && r.owner == x.owner
  }

  lemma {:induction false} ParsedMeaning(raw: seq<RawRange>, r: ValidatorRange)
    requires AllKeys(raw)
    ensures r in Parsed(raw) <==> Entered(raw, r)
  {
    if r in Parsed(raw) {
      var i :| 0 <= i < |raw| && Parsed(raw)[i] == r;
      EntryMeaning(raw[i], r.start, r.end);
      assert raw[i] in raw;
    }
    if Entered(raw, r) {
      var x :| x in raw && EntryIs(x, r.start, r.end) && r.owner == x.owner;
      var i :| 0 <= i < |raw| && raw[i] == x;
      EntryMeaning(x, r.start, r.end);
      assert Parsed(raw)[i] == r;
    }
  }

  // ---------- Who owns what ----------

  /** Some range under this name holds the index. */
  ghost predicate OwnedUnder(ranges: seq<ValidatorRange>, name: Name, index: U64) {
    exists r :: r in ranges && r.owner == name && r.start <= index <= r.end
  }

  ghost predicate Covered(ranges: seq<ValidatorRange>, index: U64) {
    exists r :: r in ranges && r.start <= index <= r.end
  }

  ghost predicate IsRangeName(ps: seq<Participant>, name: Name) {
    exists p :: p in ps && p.validatorRangeName == name
  }

  ghost predicate RangeNamesDiffer(ps: seq<Participant>) {
    forall i, j :: 0 <= i < j < |ps| ==> ps[i].validatorRangeName != ps[j].validatorRangeName
  }

  lemma {:induction false} RangeNamesKnown(ps: seq<Participant>, name: Name)
    ensures name in ByRange(ps) <==> IsRangeName(ps, name)
  {
    if ps != [] {
      var init, p := ps[..|ps| - 1], ps[|ps| - 1];
      assert ps == init + [p] && p in ps;
      RangeNamesKnown(init, name);
    }
  }

  lemma {:induction false} RangeNameOwned(ps: seq<Participant>, i: nat)
    requires RangeNamesDiffer(ps) && i < |ps|
    ensures ps[i].validatorRangeName in ByRange(ps) && ByRange(ps)[ps[i].validatorRangeName] == ps[i].id
  {
    if i < |ps| - 1 {
      RangeNameOwned(ps[..|ps| - 1], i);
    }
  }

  /** Ranges are owned under the participants' range names, and under no other names. */
  lemma {:induction false} RangeNameMeaning(ps: seq<Participant>)
    requires ValidParticipants(ps)
    ensures forall p :: p in ps ==> p.validatorRangeName in ByRange(ps) && ByRange(ps)[p.validatorRangeName] == p.id
    ensures forall name :: name in ByRange(ps) <==> IsRangeName(ps, name)
  {
    forall name ensures name in ByRange(ps) <==> IsRangeName(ps, name) {
      RangeNamesKnown(ps, name);
    }
    forall p | p in ps ensures p.validatorRangeName in ByRange(ps) && ByRange(ps)[p.validatorRangeName] == p.id {
      var i :| 0 <= i < |ps| && ps[i] == p;
      RangeNameOwned(ps, i);
    }
  }

  lemma {:induction false} KnownMeaning(ps: seq<Participant>, ranges: seq<ValidatorRange>)
    requires ValidParticipants(ps)
    ensures OwnersKnown(ps, ranges) <==> forall r :: r in ranges ==> IsRangeName(ps, r.owner)
  {
    RangeNameMeaning(ps);
  }

  /** In parsed ranges a validator belongs to the participant under whose range name a range holds its index, and
      to none when no range holds it. */
  lemma {:induction false} AttributionMeaning(ps: seq<Participant>, ranges: seq<ValidatorRange>, index: U64)
    requires ValidParticipants(ps) && SortedDisjoint(ranges) && OwnersKnown(ps, ranges)
    ensures forall p :: p in ps ==>
              (Attributed(OwnedRanges(ps, ranges), index) == Some(p.id) <==>
                 OwnedUnder(ranges, p.validatorRangeName, index))
    ensures Attributed(OwnedRanges(ps, ranges), index).Some? <==> Covered(ranges, index)
  {
    var owned := OwnedRanges(ps, ranges);
    ParsedAttribution(ps, ranges, index);
    OwnedRangesDisjoint(ps, ranges);
    OwnerIsUnique(owned, index);
    RangeNameMeaning(ps);
    if Owner(owned, index).Some? {
      var k :| 0 <= k < |owned| && Within(owned[k], index);
      assert ranges[k] in ranges;
      OwnerAt(ps, ranges, index, k);
    }
    if r :| r in ranges && r.start <= index <= r.end {
      var k :| 0 <= k < |ranges| && ranges[k] == r;
      assert Within(owned[k], index);
    }
  }

  /** The owner of the range that holds the index. */
  lemma {:induction false} OwnerAt(ps: seq<Participant>, ranges: seq<ValidatorRange>, index: U64, k: nat)
    requires ValidParticipants(ps) && OwnersKnown(ps, ranges) && SortedDisjoint(ranges)
    requires k < |ranges| && ranges[k].start <= index <= ranges[k].end
    ensures forall p :: p in ps ==>
              (ByRange(ps)[ranges[k].owner] == p.id <==> OwnedUnder(ranges, p.validatorRangeName, index))
  {
    RangeNameMeaning(ps);
    assert ranges[k] in ranges;
    forall r | r in ranges && r.start <= index <= r.end ensures r == ranges[k] {
      var j :| 0 <= j < |ranges| && ranges[j] == r;
    }
    var q :| q in ps && q.validatorRangeName == ranges[k].owner;
    var i :| 0 <= i < |ps| && ps[i] == q;
    forall p | p in ps
      ensures ByRange(ps)[ranges[k].owner] == p.id <==> OwnedUnder(ranges, p.validatorRangeName, index)
    {
      var j :| 0 <= j < |ps| && ps[j] == p;
      assert i != j ==> q.id != p.id && q.validatorRangeName != p.validatorRangeName;
    }
  }

  // ---------- What each participant holds ----------

  ghost function HeldBalance(ranges: seq<ValidatorRange>, name: Name, vs: seq<Validator>): nat {
    if vs == [] then 0 else
    HeldBalance(ranges, name, vs[1..]) + if OwnedUnder(ranges, name, vs[0].index) then vs[0].effectiveBalance else 0
  }

  ghost function HeldCount(ranges: seq<ValidatorRange>, name: Name, vs: seq<Validator>): nat {
    if vs == [] then 0 else
    HeldCount(ranges, name, vs[1..]) + if OwnedUnder(ranges, name, vs[0].index) then 1 else 0
  }

  lemma {:induction false} HeldAppend(ranges: seq<ValidatorRange>, name: Name, vs: seq<Validator>, v: Validator)
    ensures HeldBalance(ranges, name, vs + [v]) ==
              HeldBalance(ranges, name, vs) + if OwnedUnder(ranges, name, v.index) then v.effectiveBalance else 0
    ensures HeldCount(ranges, name, vs + [v]) ==
              HeldCount(ranges, name, vs) + if OwnedUnder(ranges, name, v.index) then 1 else 0
  {
    if vs == [] {
      assert ([] + [v])[1..] == [];
    } else {
      assert (vs + [v])[1..] == vs[1..] + [v] && (vs + [v])[0] == vs[0];
      HeldAppend(ranges, name, vs[1..], v);
    }
  }

  /** A participant's balance and count are those of the validators in the ranges under its name. */
  lemma {:induction false} BalanceMeaning(ps: seq<Participant>, ranges: seq<ValidatorRange>, vs: seq<Validator>,
                                          p: Participant)
    requires ValidParticipants(ps) && SortedDisjoint(ranges) && OwnersKnown(ps, ranges) && p in ps
    ensures Balance(OwnedRanges(ps, ranges), vs, p.id) == HeldBalance(ranges, p.validatorRangeName, vs)
    ensures Count(OwnedRanges(ps, ranges), vs, p.id) == HeldCount(ranges, p.validatorRangeName, vs)
  {
    if vs != [] {
      var init, last := vs[..|vs| - 1], vs[|vs| - 1];
      BalanceMeaning(ps, ranges, init, p);
      AttributionMeaning(ps, ranges, last.index);
      HeldAppend(ranges, p.validatorRangeName, init, last);
      assert init + [last] == vs;
    }
  }

  // ---------- What a split says ----------

  ghost function HeldSum(ranges: seq<ValidatorRange>, ps: seq<Participant>, vs: seq<Validator>): nat {
    if ps == [] then 0 else
    HeldSum(ranges, ps[..|ps| - 1], vs) + HeldBalance(ranges, ps[|ps| - 1].validatorRangeName, vs)
  }

  lemma {:induction false} SumMeaning(all: seq<Participant>, ps: seq<Participant>, ranges: seq<ValidatorRange>,
                                      vs: seq<Validator>)
    requires ValidParticipants(all) && SortedDisjoint(ranges) && OwnersKnown(all, ranges)
    requires forall p :: p in ps ==> p in all
    ensures BalanceSum(OwnedRanges(all, ranges), vs, IdsOf(ps)) == HeldSum(ranges, ps, vs)
  {
    if ps != [] {
      var init, p := ps[..|ps| - 1], ps[|ps| - 1];
      SumMeaning(all, init, ranges, vs);
      BalanceMeaning(all, ranges, vs, p);
      assert IdsOf(ps)[..|ps| - 1] == IdsOf(init);
    }
  }

  /** Every range has a participant's name, every validator is in a range, the participants hold something that
      fits, and each has the validators that the scenario gives it. */
  ghost predicate AllAttributed(s: Scenario, ranges: seq<ValidatorRange>, vs: seq<Validator>) {
    && ranges != [] && vs != [] && (forall r :: r in ranges ==> IsRangeName(s.participants, r.owner))
    && (forall v :: v in vs ==> Covered(ranges, v.index))
    && 0 < HeldSum(ranges, s.participants, vs) <= MAX_UINT64
    && forall p :: p in s.participants ==> HeldCount(ranges, p.validatorRangeName, vs) == p.validatorCount
  }

  /** A split is calculated from parsed ranges exactly when all balances can be attributed. */
  lemma {:induction false} CalculableMeaning(s: Scenario, ranges: seq<ValidatorRange>, vs: seq<Validator>)
    requires ValidParticipants(s.participants) && SortedDisjoint(ranges)
    ensures Calculable(s, ranges, vs) <==> AllAttributed(s, ranges, vs)
  {
    KnownMeaning(s.participants, ranges);
    if OwnersKnown(s.participants, ranges) {
      TotalMeaning(s.participants, ranges, vs);
      forall p | p in s.participants
        ensures Count(OwnedRanges(s.participants, ranges), vs, p.id) == HeldCount(ranges, p.validatorRangeName, vs)
      {
        BalanceMeaning(s.participants, ranges, vs, p);
      }
    }
  }

  lemma {:induction false} TotalMeaning(ps: seq<Participant>, ranges: seq<ValidatorRange>, vs: seq<Validator>)
    requires ValidParticipants(ps) && SortedDisjoint(ranges) && OwnersKnown(ps, ranges)
    ensures AllOwned(OwnedRanges(ps, ranges), vs, IdsOf(ps)) <==> forall v :: v in vs ==> Covered(ranges, v.index)
    ensures AllOwned(OwnedRanges(ps, ranges), vs, IdsOf(ps)) ==> Total(vs) == HeldSum(ranges, ps, vs)
  {
    var owned := OwnedRanges(ps, ranges);
    forall v | v in vs
      ensures Attributed(owned, v.index).Some? <==> Covered(ranges, v.index)
      ensures Attributed(owned, v.index).Some? ==> Attributed(owned, v.index).value in IdsOf(ps)
    {
      AttributionMeaning(ps, ranges, v.index);
      OwnersAreParticipants(ps, ranges);
    }
    IdsDistinct(ps);
    Conservation(owned, vs, IdsOf(ps));
    SumMeaning(ps, ps, ranges, vs);
  }

  ghost predicate ParticipantFits(ranges: seq<ValidatorRange>, vs: seq<Validator>, p: Participant,
                                  w: ParticipantWeight) {
    && w.participantID == p.id && w.validatorCount == p.validatorCount
    && w.effectiveBalance == HeldBalance(ranges, p.validatorRangeName, vs)
  }

  /** The participants that the group lists, in its order. */
  ghost predicate AreMembers(s: Scenario, g: FaultGroup, members: seq<Participant>) {
    (forall p :: p in members ==> p in s.participants) && IdsOf(members) == g.participants
  }

  lemma {:induction false} MembersOf(s: Scenario, i: nat) returns (members: seq<Participant>)
    requires Valid(s) && i < 2
    ensures AreMembers(s, s.fault.groups[i], members) && Distinct(s.fault.groups[i].participants)
  {
    var ids, m := s.fault.groups[i].participants, ById(s.participants);
    MembersAreParticipants(s, i);
    ByIdIndexes(s.participants);
    IdsIndexed(s.participants, m, ids);
    members := seq(|ids|, k requires 0 <= k < |ids| => m[ids[k]]);
  }

  lemma {:induction false} IdsIndexed(ps: seq<Participant>, m: map<Name, Participant>, ids: seq<Name>)
    requires IndexedBy(ps, m) && Elements(ids) <= Elements(IdsOf(ps))
    ensures forall k :: 0 <= k < |ids| ==> ids[k] in m && m[ids[k]].id == ids[k] && m[ids[k]] in ps
  {
    forall k | 0 <= k < |ids| ensures ids[k] in m {
      assert ids[k] in Elements(ids);
      var j :| 0 <= j < |IdsOf(ps)| && IdsOf(ps)[j] == ids[k];
    }
  }

  ghost predicate IsShare(w: GroupWeight, total: nat) {
    w.realizedShare * total as real == w.effectiveBalance as real
  }

  /** The balance of the group's members, and their share of the total. */
  ghost predicate GroupFits(s: Scenario, ranges: seq<ValidatorRange>, vs: seq<Validator>, total: nat, g: FaultGroup,
                            w: GroupWeight) {
    && w.name == g.name && w.requestedShare == g.share
    && IsShare(w, total)
    && exists members :: AreMembers(s, g, members) && w.effectiveBalance == HeldSum(ranges, members, vs)
  }

  ghost predicate SplitFits(s: Scenario, ranges: seq<ValidatorRange>, vs: seq<Validator>, split: RealizedSplit) {
    && split.splitBy == s.fault.splitBy && split.toleranceFraction == s.thresholds.realizedSplitTolerance
    && split.totalActiveBalance == HeldSum(ranges, s.participants, vs)
    && |split.participants| == |s.participants| && |split.groups| == |s.fault.groups|
    && (forall i :: 0 <= i < |split.participants| ==>
          ParticipantFits(ranges, vs, s.participants[i], split.participants[i]))
    && (forall i :: 0 <= i < |split.groups| ==>
          GroupFits(s, ranges, vs, split.totalActiveBalance, s.fault.groups[i], split.groups[i]))
    && (split.withinTolerance <==>
          forall w :: w in split.groups ==> Abs(w.realizedShare - w.requestedShare) <= split.toleranceFraction)
  }

  /** Every figure of a calculated split is that of the validators in the ranges under the participants' names. */
  lemma {:induction false} SplitMeaning(s: Scenario, ranges: seq<ValidatorRange>, vs: seq<Validator>,
                                        split: RealizedSplit)
    requires Valid(s) && SortedDisjoint(ranges) && Calculable(s, ranges, vs) && IsRealizedSplit(s, ranges, vs, split)
    ensures SplitFits(s, ranges, vs, split)
  {
    TotalMeaning(s.participants, ranges, vs);
    forall i | 0 <= i < |split.participants|
      ensures ParticipantFits(ranges, vs, s.participants[i], split.participants[i])
    {
      BalanceMeaning(s.participants, ranges, vs, s.participants[i]);
    }
    forall i | 0 <= i < |split.groups|
      ensures GroupFits(s, ranges, vs, split.totalActiveBalance, s.fault.groups[i], split.groups[i])
    {
      GroupMeaning(s, ranges, vs, split, i);
    }
    WithinMeaning(OwnedRanges(s.participants, ranges), vs, s, split);
  }

  lemma {:induction false} GroupMeaning(s: Scenario, ranges: seq<ValidatorRange>, vs: seq<Validator>,
                                        split: RealizedSplit, i: nat)
    requires Valid(s) && SortedDisjoint(ranges) && Calculable(s, ranges, vs) && IsRealizedSplit(s, ranges, vs, split)
    requires i < |split.groups|
    ensures GroupFits(s, ranges, vs, split.totalActiveBalance, s.fault.groups[i], split.groups[i])
  {
    var members := MembersOf(s, i);
    var owned := OwnedRanges(s.participants, ranges);
    assert GroupMatches(owned, vs, s.fault.groups[i], split.groups[i]);
    OneGroup(s, ranges, vs, s.fault.groups[i], split.groups[i], members);
  }

  lemma {:induction false} OneGroup(s: Scenario, ranges: seq<ValidatorRange>, vs: seq<Validator>, g: FaultGroup,
                                    w: GroupWeight, members: seq<Participant>)
    requires ValidParticipants(s.participants) && SortedDisjoint(ranges) && OwnersKnown(s.participants, ranges)
    requires 0 < Total(vs) <= MAX_UINT64 && AreMembers(s, g, members) && Distinct(g.participants)
    requires GroupMatches(OwnedRanges(s.participants, ranges), vs, g, w)
    ensures GroupFits(s, ranges, vs, Total(vs), g, w)
  {
    MatchMeaning(OwnedRanges(s.participants, ranges), vs, g, w, Total(vs));
    MembersBalance(s, ranges, vs, g, members);
  }

  lemma {:induction false} MembersBalance(s: Scenario, ranges: seq<ValidatorRange>, vs: seq<Validator>, g: FaultGroup,
                                          members: seq<Participant>)
    requires ValidParticipants(s.participants) && SortedDisjoint(ranges) && OwnersKnown(s.participants, ranges)
    requires Total(vs) <= MAX_UINT64 && AreMembers(s, g, members) && Distinct(g.participants)
    ensures GroupBalance(OwnedRanges(s.participants, ranges), vs, g.participants) == HeldSum(ranges, members, vs)
  {
    GroupBalanceFits(OwnedRanges(s.participants, ranges), vs, g.participants);
    SumMeaning(s.participants, members, ranges, vs);
  }

  lemma {:induction false} MatchMeaning(owned: seq<OwnedRange>, vs: seq<Validator>, g: FaultGroup, w: GroupWeight,
                                        total: nat)
    requires 0 < total == Total(vs) && GroupMatches(owned, vs, g, w)
    ensures w.effectiveBalance == GroupBalance(owned, vs, g.participants)
    ensures IsShare(w, total)
  {
    assert w.realizedShare == w.effectiveBalance as real / total as real;
    ShareOfTotal(w.effectiveBalance, total, w.realizedShare);
  }

  lemma {:induction false} ShareOfTotal(balance: nat, total: nat, share: real)
    requires total > 0 && share == balance as real / total as real
    ensures share * total as real == balance as real
  {
  }

  lemma {:induction false} WithinMeaning(owned: seq<OwnedRange>, vs: seq<Validator>, s: Scenario, split: RealizedSplit)
    requires Total(vs) > 0 && split.toleranceFraction == s.thresholds.realizedSplitTolerance
    requires GroupsMatch(owned, vs, s.thresholds.realizedSplitTolerance, s.fault.groups, split.groups,
                         split.withinTolerance)
    ensures split.withinTolerance <==>
              forall w :: w in split.groups ==> Abs(w.realizedShare - w.requestedShare) <= split.toleranceFraction
  {
    forall i | 0 <= i < |split.groups|
      ensures GroupWithin(owned, vs, s.fault.groups[i], split.toleranceFraction) <==>
                Abs(split.groups[i].realizedShare - split.groups[i].requestedShare) <= split.toleranceFraction
    {
      assert GroupMatches(owned, vs, s.fault.groups[i], split.groups[i]);
    }
    assert forall i :: 0 <= i < |split.groups| ==> split.groups[i] in split.groups;
  }

  // ---------- What an accepted split says ----------

  /** The record is that of one participant, with its validator count and some balance. */
  ghost predicate WeightFits(s: Scenario, w: ParticipantWeight) {
    && w.effectiveBalance > 0
    && exists p :: p in s.participants && w.participantID == p.id && w.validatorCount == p.validatorCount
  }

  ghost function ShareOf(w: GroupWeight, split: RealizedSplit): real
    requires split.totalActiveBalance > 0
  {
    w.effectiveBalance as real / split.totalActiveBalance as real
  }

  /** The recorded share is that of the recorded balance, but for rounding. */
  ghost predicate ShareIsRight(w: GroupWeight, split: RealizedSplit)
    requires split.totalActiveBalance > 0
  {
    -0.000000000001 <= w.realizedShare - ShareOf(w, split) <= 0.000000000001
  }

  ghost predicate ShareIsWithin(w: GroupWeight, split: RealizedSplit)
    requires split.totalActiveBalance > 0
  {
    -split.toleranceFraction <= ShareOf(w, split) - w.requestedShare <= split.toleranceFraction
  }

  /** The group's two members have these records. */
  ghost predicate ArePair(split: RealizedSplit, g: FaultGroup, x: ParticipantWeight, y: ParticipantWeight) {
    x in split.participants && y in split.participants && g.participants == [x.participantID, y.participantID]
  }

  /** The record is that of a group of two, whose members' recorded balances it adds up. */
  ghost predicate GroupWeightFits(s: Scenario, split: RealizedSplit, w: GroupWeight)
    requires split.totalActiveBalance > 0
  {
    && ShareIsRight(w, split)
    && exists g, x, y ::
         && g in s.fault.groups && ArePair(split, g, x, y) && w.name == g.name && w.requestedShare == g.share
         && w.effectiveBalance == x.effectiveBalance + y.effectiveBalance
  }

  ghost predicate RecordsFit(s: Scenario, split: RealizedSplit) {
    && split.totalActiveBalance > 0 && split.splitBy == s.fault.splitBy
    && split.toleranceFraction == s.thresholds.realizedSplitTolerance
    && |split.participants| == 4 && (forall w :: w in split.participants ==> WeightFits(s, w))
    && (forall i, j :: 0 <= i < j < 4 ==> split.participants[i].participantID != split.participants[j].participantID)
    && split.totalActiveBalance ==
         split.participants[0].effectiveBalance + split.participants[1].effectiveBalance
         + split.participants[2].effectiveBalance + split.participants[3].effectiveBalance
    && |split.groups| == 2 && split.groups[0].name != split.groups[1].name
    && (forall w :: w in split.groups ==> GroupWeightFits(s, split, w))
    && (split.withinTolerance <==> forall w :: w in split.groups ==> ShareIsWithin(w, split))
  }

  lemma {:induction false} RecordedFound(weights: seq<ParticipantWeight>, w: ParticipantWeight)
    requires DistinctWeights(weights) && w in weights
    ensures RecordedBalance(weights, w.participantID) == w.effectiveBalance
  {
    var last := weights[|weights| - 1];
    if w != last {
      var i :| 0 <= i < |weights| - 1 && weights[i] == w;
      RecordedFound(weights[..|weights| - 1], w);
    }
  }

  lemma {:induction false} FourBalances(weights: seq<ParticipantWeight>)
    requires |weights| == 4
    ensures RecordedTotal(weights) ==
              weights[0].effectiveBalance + weights[1].effectiveBalance + weights[2].effectiveBalance
              + weights[3].effectiveBalance
  {
    assert weights[..3][..2] == weights[..2] && weights[..2][..1] == weights[..1] && weights[..1][..0] == [];
    assert RecordedTotal(weights[..1]) == 0 + weights[0].effectiveBalance;
    assert RecordedTotal(weights[..2]) == RecordedTotal(weights[..1]) + weights[1].effectiveBalance;
    assert RecordedTotal(weights[..3]) == RecordedTotal(weights[..2]) + weights[2].effectiveBalance;
  }

  lemma {:induction false} SumOfTwo(weights: seq<ParticipantWeight>, a: Name, b: Name)
    ensures RecordedSum(weights, [a, b]) == RecordedBalance(weights, a) + RecordedBalance(weights, b)
  {
    assert [a, b][..1] == [a] && [a][..0] == [];
    assert RecordedSum(weights, [a]) == 0 + RecordedBalance(weights, a);
  }

  lemma {:induction false} WeightMeaning(s: Scenario, w: ParticipantWeight)
    requires ValidParticipants(s.participants)
    ensures KnownWeight(ById(s.participants), w) <==> WeightFits(s, w)
  {
    ByIdIndexes(s.participants);
    var m := ById(s.participants);
    if KnownWeight(m, w) {
      assert m[w.participantID] in s.participants;
    }
  }

  lemma {:induction false} WeightsMeaning(s: Scenario, weights: seq<ParticipantWeight>)
    requires ValidParticipants(s.participants)
    ensures (forall w :: w in weights ==> KnownWeight(ById(s.participants), w)) <==>
              forall w :: w in weights ==> WeightFits(s, w)
  {
    forall w | w in weights ensures KnownWeight(ById(s.participants), w) <==> WeightFits(s, w) {
      WeightMeaning(s, w);
    }
  }

  /** The recorded sum of a group of two. */
  lemma {:induction false} RecordedPair(split: RealizedSplit, g: FaultGroup)
    returns (x: ParticipantWeight, y: ParticipantWeight)
    requires DistinctWeights(split.participants) && |g.participants| == 2
    requires Elements(g.participants) <= Elements(RecordedIds(split.participants))
    ensures ArePair(split, g, x, y)
    ensures RecordedSum(split.participants, g.participants) == x.effectiveBalance + y.effectiveBalance
  {
    var a, b := g.participants[0], g.participants[1];
    assert a in Elements(g.participants) && b in Elements(g.participants);
    var ids := RecordedIds(split.participants);
    var i :| 0 <= i < |ids| && ids[i] == a;
    var j :| 0 <= j < |ids| && ids[j] == b;
    x, y := split.participants[i], split.participants[j];
    assert g.participants == [a, b];
    RecordedFound(split.participants, x);
    RecordedFound(split.participants, y);
    SumOfTwo(split.participants, a, b);
  }

  lemma {:induction false} PairRecorded(split: RealizedSplit, g: FaultGroup, x: ParticipantWeight,
                                        y: ParticipantWeight)
    requires DistinctWeights(split.participants) && ArePair(split, g, x, y)
    ensures Elements(g.participants) <= Elements(RecordedIds(split.participants))
    ensures RecordedSum(split.participants, g.participants) == x.effectiveBalance + y.effectiveBalance
  {
    RecordedFound(split.participants, x);
    RecordedFound(split.participants, y);
    SumOfTwo(split.participants, x.participantID, y.participantID);
    var i :| 0 <= i < |split.participants| && split.participants[i] == x;
    var j :| 0 <= j < |split.participants| && split.participants[j] == y;
    var ids := RecordedIds(split.participants);
    assert ids[i] == x.participantID && ids[j] == y.participantID;
  }

  /** The groups list two members each. */
  ghost predicate GroupsOfTwo(groups: seq<FaultGroup>) {
    && |groups| == 2 && groups[0].name != groups[1].name
    && forall g :: g in groups ==> |g.participants| == 2
  }

  lemma {:induction false} ShareMeaning(split: RealizedSplit, g: FaultGroup, w: GroupWeight)
    requires split.totalActiveBalance > 0
    ensures RecordedShare(split, g, w) <==>
              && Elements(g.participants) <= Elements(RecordedIds(split.participants))
              && w.requestedShare == g.share
              && w.effectiveBalance == RecordedSum(split.participants, g.participants) && ShareIsRight(w, split)
  {
  }

  lemma {:induction false} GroupWeightMeaning(s: Scenario, split: RealizedSplit, w: GroupWeight)
    requires split.totalActiveBalance > 0 && DistinctWeights(split.participants) && GroupsOfTwo(s.fault.groups)
    ensures GroupAccepted(s.fault.groups, split, w) <==> GroupWeightFits(s, split, w)
  {
    if GroupAccepted(s.fault.groups, split, w) {
      var g :| g in s.fault.groups && g.name == w.name && RecordedShare(split, g, w);
      ShareMeaning(split, g, w);
      var x, y := RecordedPair(split, g);
    }
    if GroupWeightFits(s, split, w) {
      var g, x, y :|
        && g in s.fault.groups && ArePair(split, g, x, y) && w.name == g.name && w.requestedShare == g.share
        && w.effectiveBalance == x.effectiveBalance + y.effectiveBalance;
      PairRecorded(split, g, x, y);
      ShareMeaning(split, g, w);
    }
  }

  lemma {:induction false} TwoNames(groups: seq<FaultGroup>, split: RealizedSplit)
    requires split.totalActiveBalance > 0 && GroupsOfTwo(groups) && GroupsAccepted(groups, split)
    ensures (forall g :: g in groups ==> RecordedWithin(split, g)) <==>
              forall w :: w in split.groups ==> ShareIsWithin(w, split)
  {
    assert GroupAccepted(groups, split, split.groups[0]) && GroupAccepted(groups, split, split.groups[1]);
    var g :| g in groups && g.name == split.groups[0].name && RecordedShare(split, g, split.groups[0]);
    var h :| h in groups && h.name == split.groups[1].name && RecordedShare(split, h, split.groups[1]);
    WithinOfRecord(split, g, split.groups[0]);
    WithinOfRecord(split, h, split.groups[1]);
    assert forall k :: k in groups ==> k == g || k == h;
    assert forall w :: w in split.groups <==> w == split.groups[0] || w == split.groups[1];
  }

  lemma {:induction false} WithinOfRecord(split: RealizedSplit, g: FaultGroup, w: GroupWeight)
    requires split.totalActiveBalance > 0 && RecordedShare(split, g, w)
    ensures RecordedWithin(split, g) <==> ShareIsWithin(w, split)
  {
  }

  lemma {:induction false} ScenarioGroups(s: Scenario)
    requires Valid(s)
    ensures GroupsOfTwo(s.fault.groups)
  {
    OneOfEachFamily(s);
    assert forall g :: g in s.fault.groups ==> g == s.fault.groups[0] || g == s.fault.groups[1];
  }

  /** A recorded split is accepted exactly when all its figures fit together and fit the scenario. */
  lemma {:induction false} SplitAcceptedMeaning(s: Scenario, split: RealizedSplit)
    requires Valid(s)
    ensures SplitAccepted(s, split) <==> RecordsFit(s, split)
  {
    ScenarioGroups(s);
    WeightsMeaning(s, split.participants);
    AcceptedRecords(s, split);
  }

  lemma {:induction false} AcceptedRecords(s: Scenario, split: RealizedSplit)
    requires |s.participants| == 4 && GroupsOfTwo(s.fault.groups)
    requires (forall w :: w in split.participants ==> KnownWeight(ById(s.participants), w)) <==>
               forall w :: w in split.participants ==> WeightFits(s, w)
    ensures SplitAccepted(s, split) <==> RecordsFit(s, split)
  {
    if split.totalActiveBalance > 0 && |split.participants| == 4 && DistinctWeights(split.participants) {
      RecordsMeaning(s, split);
    }
  }

  lemma {:induction false} RecordsMeaning(s: Scenario, split: RealizedSplit)
    requires GroupsOfTwo(s.fault.groups) && split.totalActiveBalance > 0
    requires |split.participants| == 4 && DistinctWeights(split.participants)
    ensures RecordedTotal(split.participants) ==
              split.participants[0].effectiveBalance + split.participants[1].effectiveBalance
              + split.participants[2].effectiveBalance + split.participants[3].effectiveBalance
    ensures GroupsAccepted(s.fault.groups, split) <==>
              && |split.groups| == 2 && split.groups[0].name != split.groups[1].name
              && forall w :: w in split.groups ==> GroupWeightFits(s, split, w)
    ensures GroupsAccepted(s.fault.groups, split) ==>
              ((forall g :: g in s.fault.groups ==> RecordedWithin(split, g)) <==>
                 forall w :: w in split.groups ==> ShareIsWithin(w, split))
  {
    FourBalances(split.participants);
    GroupsRecorded(s, split);
    if GroupsAccepted(s.fault.groups, split) {
      TwoNames(s.fault.groups, split);
    }
  }

  lemma {:induction false} GroupsRecorded(s: Scenario, split: RealizedSplit)
    requires GroupsOfTwo(s.fault.groups) && split.totalActiveBalance > 0 && DistinctWeights(split.participants)
    ensures GroupsAccepted(s.fault.groups, split) <==>
              && |split.groups| == 2 && split.groups[0].name != split.groups[1].name
              && forall w :: w in split.groups ==> GroupWeightFits(s, split, w)
  {
    if |split.groups| == 2 {
      GroupWeightMeaning(s, split, split.groups[0]);
      GroupWeightMeaning(s, split, split.groups[1]);
      assert split.groups == [split.groups[0], split.groups[1]];
    }
  }
}
