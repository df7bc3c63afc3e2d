/** The realized validator split: its calculator, its independent validator, and their agreement. */
module Split {
  import opened Common
  import opened Text
  import opened Scenario

  datatype ValidatorRange = ValidatorRange(start: U64, end: U64, owner: Name)

  datatype Validator = Validator(index: U64, effectiveBalance: U64)

  datatype ParticipantWeight = ParticipantWeight(participantID: Name, validatorCount: U64, effectiveBalance: U64)

  datatype GroupWeight = GroupWeight(name: Name, requestedShare: real, realizedShare: real, effectiveBalance: U64)

  datatype RealizedSplit = RealizedSplit(
    splitBy: string, totalActiveBalance: U64,
    participants: seq<ParticipantWeight>, groups: seq<GroupWeight>,
    withinTolerance: bool, toleranceFraction: real)

  // ---------- Ranges ----------

  predicate RangeLe(a: ValidatorRange, b: ValidatorRange) {
    a.start < b.start || (a.start == b.start && a.end <= b.end)
  }

  predicate WellFormed(r: ValidatorRange) {
    r.start <= r.end && r.owner != NO_NAME
  }

  predicate Apart(a: ValidatorRange, b: ValidatorRange) {
    a.end < b.start || b.end < a.start
  }

  /** Nonempty, well formed, and pairwise disjoint, in whatever order. */
  ghost predicate Acceptable(raw: seq<ValidatorRange>) {
    && raw != [] && (forall r :: r in raw ==> WellFormed(r))
    && Distinct(raw) && (forall a, b :: a in raw && b in raw && a != b ==> Apart(a, b))
  }

  ghost predicate SortedDisjoint(ranges: seq<ValidatorRange>) {
    && (forall r :: r in ranges ==> WellFormed(r))
    && (forall i, j :: 0 <= i < j < |ranges| ==> ranges[i].end < ranges[j].start)
  }

  ghost predicate NeighboursApart(ranges: seq<ValidatorRange>) {
    forall i, j :: 0 <= i < j < |ranges| && j == i + 1 ==> ranges[j].start > ranges[i].end
  }

  lemma {:induction false} NeighboursSuffice(ranges: seq<ValidatorRange>, i: nat, j: nat)
    requires NeighboursApart(ranges) && i < j < |ranges| && forall r :: r in ranges ==> WellFormed(r)
    ensures ranges[i].end < ranges[j].start
  {
    assert ranges[j - 1].end < ranges[j].start;
    if i < j - 1 {
      NeighboursSuffice(ranges, i, j - 1);
      assert ranges[j - 1] in ranges;
    }
  }

  lemma {:induction false} AcceptableIsPermutable(a: seq<ValidatorRange>, b: seq<ValidatorRange>)
    requires multiset(a) == multiset(b)
    ensures Acceptable(a) <==> Acceptable(b)
  {
    PermutationElements(a, b);
  }

  /** The neighbour check on the sorted list decides whether the ranges are acceptable. */
  lemma {:induction false} SortedCheck(s: seq<ValidatorRange>)
    requires Sorted(RangeLe, s) && s != [] && forall r :: r in s ==> WellFormed(r)
    ensures Acceptable(s) <==> NeighboursApart(s)
    ensures Acceptable(s) ==> SortedDisjoint(s)
  {
    if NeighboursApart(s) {
      forall i, j | 0 <= i < j < |s| ensures s[i].end < s[j].start {
        NeighboursSuffice(s, i, j);
      }
      assert forall i :: 0 <= i < |s| ==> WellFormed(s[i]);
    }
    if Acceptable(s) {
      forall i, j | 0 <= i < j < |s| && j == i + 1 ensures s[j].start > s[i].end {
        assert s[i] in s && s[j] in s && s[i] != s[j] && Apart(s[i], s[j]) && RangeLe(s[i], s[j]);
      }
    }
  }

  /** One entry of the decoded map. */
  datatype RawRange = RawRange(text: string, owner: Name)

  /** The two ends of a text START-END. */
  function KeyOf(text: string): Option<(U64, U64)> {
    var parts := Cut(text);
    if parts.None? || parts.value.0 == "" || parts.value.1 == "" || '-' in parts.value.1 then None else
    var start, end := ParseUint(parts.value.0), ParseUint(parts.value.1);
    if start.None? || end.None? then None else Some((start.value, end.value))
  }

  /** A text has ends exactly when it is two decimal uint64 texts with a hyphen between them. */
  lemma {:induction false} KeyMeaning(text: string, start: U64, end: U64)
    ensures KeyOf(text) == Some((start, end)) <==>
              exists s, e :: text == s + "-" + e && ParseUint(s) == Some(start) && ParseUint(e) == Some(end)
  {
    if s, e :| text == s + "-" + e && ParseUint(s) == Some(start) && ParseUint(e) == Some(end) {
      assert forall c :: c in s || c in e ==> '0' <= c <= '9';
      CutFirst(s, e);
    } else if KeyOf(text) == Some((start, end)) {
      var parts := Cut(text).value;
      assert text == parts.0 + "-" + parts.1;
    }
  }

  predicate AllKeys(raw: seq<RawRange>) {
    forall i :: 0 <= i < |raw| ==> KeyOf(raw[i].text).Some?
  }

  function RangeOf(raw: RawRange): ValidatorRange
    requires KeyOf(raw.text).Some?
  {
    ValidatorRange(KeyOf(raw.text).value.0, KeyOf(raw.text).value.1, raw.owner)
  }

  function Parsed(raw: seq<RawRange>): (ranges: seq<ValidatorRange>)
    requires AllKeys(raw)
  {
    seq(|raw|, i requires 0 <= i < |raw| => RangeOf(raw[i]))
  }

  /** The list belongs to the entries: their ranges in increasing order. */
  ghost predicate IsParse(raw: seq<RawRange>, ranges: seq<ValidatorRange>) {
    AllKeys(raw) && multiset(ranges) == multiset(Parsed(raw)) && SortedDisjoint(ranges)
  }

  /** The entries of the map are given in the order in which it is ranged over. */
  method ParseValidatorRanges(raw: seq<RawRange>) returns (r: Result<seq<ValidatorRange>>)
    ensures r.Ok? <==> AllKeys(raw) && Acceptable(Parsed(raw))
    ensures r.Ok? ==> IsParse(raw, r.value)
  {
    if |raw| == 0 {
      return Err;
    }
    var ranges: seq<ValidatorRange> := [];
    for n := 0 to |raw|
      invariant AllKeys(raw[..n]) && ranges == Parsed(raw[..n])
      invariant forall i :: 0 <= i < n ==> WellFormed(ranges[i])
    {
      if KeyOf(raw[n].text).None? {
        return Err;
      }
      var parsed := RangeOf(raw[n]);
      if parsed.end < parsed.start || parsed.owner == NO_NAME {
        assert AllKeys(raw) ==> Parsed(raw)[n] == parsed && parsed in Parsed(raw);
        return Err;
      }
      ranges := ranges + [parsed];
    }
    assert raw[..|raw|] == raw;
    r := SortAndCheck(ranges);
  }

  method SortAndCheck(parsed: seq<ValidatorRange>) returns (r: Result<seq<ValidatorRange>>)
    requires parsed != [] && forall i :: 0 <= i < |parsed| ==> WellFormed(parsed[i])
    ensures r.Ok? <==> Acceptable(parsed)
    ensures r.Ok? ==> multiset(r.value) == multiset(parsed) && SortedDisjoint(r.value)
  {
    var ranges := Sort(RangeLe, parsed);
    AcceptableIsPermutable(parsed, ranges);
    PermutationElements(parsed, ranges);
    SortedCheck(ranges);
    var apart := CheckNeighbours(ranges);
    return if apart then Ok(ranges) else Err;
  }

  method CheckNeighbours(ranges: seq<ValidatorRange>) returns (apart: bool)
    requires ranges != []
    ensures apart <==> NeighboursApart(ranges)
  {
    for index := 1 to |ranges|
      invariant forall i, j :: 0 <= i < j < index && j == i + 1 ==> ranges[j].start > ranges[i].end
    {
      if ranges[index].start <= ranges[index - 1].end {
        return false;
      }
    }
    apart := true;
  }

  lemma {:induction false} SameRanges(a: seq<ValidatorRange>, b: seq<ValidatorRange>,
                                      ra: seq<ValidatorRange>, rb: seq<ValidatorRange>)
    requires multiset(a) == multiset(b) && multiset(ra) == multiset(a) && multiset(rb) == multiset(b)
    requires SortedDisjoint(ra) && SortedDisjoint(rb)
    ensures ra == rb
  {
    DisjointIsSorted(ra);
    DisjointIsSorted(rb);
    SortedUnique(RangeLe, ra, rb);
  }

  function RangeOrEmpty(raw: RawRange): ValidatorRange {
    if KeyOf(raw.text).Some? then RangeOf(raw) else ValidatorRange(0, 0, NO_NAME)
  }

  /** Parsing entry by entry keeps a permutation. */
  lemma {:induction false} ParsedPermutes(a: seq<RawRange>, b: seq<RawRange>)
    requires multiset(a) == multiset(b) && AllKeys(a) && AllKeys(b)
    ensures multiset(Parsed(a)) == multiset(Parsed(b))
  {
    MappedPermutes(RangeOrEmpty, a, b);
    assert Parsed(a) == Mapped(RangeOrEmpty, a) && Parsed(b) == Mapped(RangeOrEmpty, b);
  }

  /** The order in which the decoded map is ranged over changes neither the verdict nor the list. */
  lemma {:induction false} ParseOrderIndependent(a: seq<RawRange>, b: seq<RawRange>,
                                                 ra: seq<ValidatorRange>, rb: seq<ValidatorRange>)
    requires multiset(a) == multiset(b)
    ensures AllKeys(a) && Acceptable(Parsed(a)) <==> AllKeys(b) && Acceptable(Parsed(b))
    ensures IsParse(a, ra) && IsParse(b, rb) ==> ra == rb
  {
    PermutationElements(a, b);
    KeysPermute(a, b);
    KeysPermute(b, a);
    if AllKeys(a) {
      ParsedPermutes(a, b);
      AcceptableIsPermutable(Parsed(a), Parsed(b));
      if IsParse(a, ra) && IsParse(b, rb) {
        SameRanges(Parsed(a), Parsed(b), ra, rb);
      }
    }
  }

  lemma {:induction false} KeysPermute(a: seq<RawRange>, b: seq<RawRange>)
    requires forall x :: x in a <==> x in b
    ensures AllKeys(a) ==> AllKeys(b)
  {
    assert forall i :: 0 <= i < |b| ==> b[i] in b;
  }

  lemma {:induction false} DisjointIsSorted(ranges: seq<ValidatorRange>)
    requires SortedDisjoint(ranges)
    ensures Sorted(RangeLe, ranges)
    ensures forall x, y :: x in ranges && y in ranges && RangeLe(x, y) && RangeLe(y, x) ==> x == y
  {
    assert forall i :: 0 <= i < |ranges| ==> ranges[i] in ranges && WellFormed(ranges[i]);
  }

  // ---------- Attribution ----------

  datatype OwnedRange = OwnedRange(start: U64, end: U64, participantID: Name)

  ghost predicate OwnedDisjoint(owned: seq<OwnedRange>) {
    && (forall i :: 0 <= i < |owned| ==> owned[i].start <= owned[i].end && owned[i].participantID != NO_NAME)
    && (forall i, j :: 0 <= i < j < |owned| ==> owned[i].end < owned[j].start)
  }

  predicate Within(r: OwnedRange, index: U64) {
    r.start <= index <= r.end
  }

  /** The linear scan: the participant of the first range that holds the index. */
  function Owner(owned: seq<OwnedRange>, index: U64): Option<Name> {
    if owned == [] then None
    else if Within(owned[0], index) then Some(owned[0].participantID)
    else Owner(owned[1..], index)
  }

  /** At most one range holds an index, and the linear scan finds it. */
  lemma {:induction false} OwnerIsUnique(owned: seq<OwnedRange>, index: U64)
    requires OwnedDisjoint(owned)
    ensures forall k :: 0 <= k < |owned| && Within(owned[k], index) ==>
              Owner(owned, index) == Some(owned[k].participantID)
    ensures Owner(owned, index).Some? ==> exists k :: 0 <= k < |owned| && Within(owned[k], index)
    ensures forall j, k ::
              0 <= j < |owned| && 0 <= k < |owned| && Within(owned[j], index) && Within(owned[k], index) ==> j == k
  {
    if owned != [] {
      var rest := owned[1..];
      OwnerIsUnique(rest, index);
      forall k | 0 <= k < |owned| && Within(owned[k], index)
        ensures Owner(owned, index) == Some(owned[k].participantID)
      {
        if k > 0 {
          assert owned[k] == rest[k - 1];
        }
      }
      if Owner(rest, index).Some? {
        var k :| 0 <= k < |rest| && Within(rest[k], index);
        assert Within(owned[k + 1], index);
      }
    }
  }

  /** Go's `sort.Search` for the first end that reaches the index, on any list. */
  function SearchEnd(owned: seq<OwnedRange>, i: nat, j: nat, index: U64): (k: nat)
    requires i <= j <= |owned|
    ensures i <= k <= j
    decreases j - i
  {
    if i >= j then i else
    var h := (i + j) / 2;
    if owned[h].end >= index then SearchEnd(owned, i, h, index) else SearchEnd(owned, h + 1, j, index)
  }

  /** The owner the calculator attributes an index to. */
  function Attributed(owned: seq<OwnedRange>, index: U64): Option<Name> {
    var k := SearchEnd(owned, 0, |owned|, index);
    if k < |owned| && owned[k].start <= index && owned[k].participantID != NO_NAME then Some(owned[k].participantID)
    else None
  }

  lemma {:induction false} SearchFindsFirst(owned: seq<OwnedRange>, i: nat, j: nat, index: U64)
    requires OwnedDisjoint(owned) && i <= j <= |owned|
    requires (forall k :: 0 <= k < i ==> owned[k].end < index)
    requires (forall k :: j <= k < |owned| ==> owned[k].end >= index)
    ensures var k := SearchEnd(owned, i, j, index);
            && (forall l :: 0 <= l < k ==> owned[l].end < index)
            && (forall l :: k <= l < |owned| ==> owned[l].end >= index)
    decreases j - i
  {
    if i < j {
      var h := (i + j) / 2;
      if owned[h].end >= index {
        SearchFindsFirst(owned, i, h, index);
      } else {
        SearchFindsFirst(owned, h + 1, j, index);
      }
    }
  }

  /** In disjoint ranges the binary search attributes every index as the linear scan does. */
  lemma {:induction false} SearchFindsOwner(owned: seq<OwnedRange>, index: U64)
    requires OwnedDisjoint(owned)
    ensures Attributed(owned, index) == Owner(owned, index)
  {
    SearchFindsFirst(owned, 0, |owned|, index);
    OwnerIsUnique(owned, index);
    var k := SearchEnd(owned, 0, |owned|, index);
    if k < |owned| && owned[k].start <= index {
      assert Within(owned[k], index);
    }
  }

  /** `sort.Search` over the ends, then the containment test. */
  method FindOwner(owned: seq<OwnedRange>, index: U64) returns (participantID: Name)
    ensures participantID == NO_NAME <==> Attributed(owned, index).None?
    ensures participantID != NO_NAME ==> Attributed(owned, index) == Some(participantID)
  {
    var i, j := 0, |owned|;
    while i < j
      invariant 0 <= i <= j <= |owned|
      invariant SearchEnd(owned, i, j, index) == SearchEnd(owned, 0, |owned|, index)
    {
      var h := (i + j) / 2;
      if owned[h].end >= index {
        j := h;
      } else {
        i := h + 1;
      }
    }
    participantID := NO_NAME;
    if i < |owned| && owned[i].start <= index {
      participantID := owned[i].participantID;
    }
  }

  // ---------- Sums ----------

  function Total(vs: seq<Validator>): nat {
    if vs == [] then 0 else Total(vs[..|vs| - 1]) + vs[|vs| - 1].effectiveBalance
  }

  /** The balance of the validators that belong to a participant. */
  function Balance(owned: seq<OwnedRange>, vs: seq<Validator>, id: Name): nat {
    if vs == [] then 0 else
    var last := vs[|vs| - 1];
    Balance(owned, vs[..|vs| - 1], id) + if Attributed(owned, last.index) == Some(id) then last.effectiveBalance else 0
  }

  function Count(owned: seq<OwnedRange>, vs: seq<Validator>, id: Name): nat {
    if vs == [] then 0 else
    Count(owned, vs[..|vs| - 1], id) + if Attributed(owned, vs[|vs| - 1].index) == Some(id) then 1 else 0
  }

  function BalanceSum(owned: seq<OwnedRange>, vs: seq<Validator>, ids: seq<Name>): nat {
    if ids == [] then 0 else BalanceSum(owned, vs, ids[..|ids| - 1]) + Balance(owned, vs, ids[|ids| - 1])
  }

  function CountSum(owned: seq<OwnedRange>, vs: seq<Validator>, ids: seq<Name>): nat {
    if ids == [] then 0 else CountSum(owned, vs, ids[..|ids| - 1]) + Count(owned, vs, ids[|ids| - 1])
  }

  ghost predicate AllOwned(owned: seq<OwnedRange>, vs: seq<Validator>, ids: seq<Name>) {
    forall v :: v in vs ==> Attributed(owned, v.index).Some? && Attributed(owned, v.index).value in ids
  }

  /** One more validator adds its balance to exactly one of distinct participants, if it is theirs. */
  lemma {:induction false} OneMoreValidator(owned: seq<OwnedRange>, vs: seq<Validator>, v: Validator, ids: seq<Name>)
    requires Distinct(ids)
    ensures var owner := Attributed(owned, v.index);
            var mine := owner.Some? && owner.value in ids;
            && BalanceSum(owned, vs + [v], ids) == BalanceSum(owned, vs, ids) + (if mine then v.effectiveBalance else 0)
            && CountSum(owned, vs + [v], ids) == CountSum(owned, vs, ids) + (if mine then 1 else 0)
  {
    if ids != [] {
      var init, last := ids[..|ids| - 1], ids[|ids| - 1];
      assert ids == init + [last] && last !in init;
      OneMoreValidator(owned, vs, v, init);
      assert (vs + [v])[..|vs|] == vs;
    }
  }

  /** Conservation: distinct participants never hold more than all balances, and hold exactly all
      balances and all validators when every validator belongs to one of them. */
  lemma {:induction false} Conservation(owned: seq<OwnedRange>, vs: seq<Validator>, ids: seq<Name>)
    requires Distinct(ids)
    ensures BalanceSum(owned, vs, ids) <= Total(vs) && CountSum(owned, vs, ids) <= |vs|
    ensures AllOwned(owned, vs, ids) ==> BalanceSum(owned, vs, ids) == Total(vs) && CountSum(owned, vs, ids) == |vs|
  {
    if vs == [] {
      NoValidators(owned, ids);
    } else {
      var init, last := vs[..|vs| - 1], vs[|vs| - 1];
      assert vs == init + [last];
      Conservation(owned, init, ids);
      OneMoreValidator(owned, init, last, ids);
    }
  }

  lemma {:induction false} NoValidators(owned: seq<OwnedRange>, ids: seq<Name>)
    ensures BalanceSum(owned, [], ids) == 0 && CountSum(owned, [], ids) == 0
  {
    if ids != [] {
      NoValidators(owned, ids[..|ids| - 1]);
    }
  }

  lemma {:induction false} BalanceAtMostTotal(owned: seq<OwnedRange>, vs: seq<Validator>, id: Name)
    ensures Balance(owned, vs, id) <= Total(vs) && Count(owned, vs, id) <= |vs|
  {
    Conservation(owned, vs, [id]);
    assert [id][..0] == [];
    assert BalanceSum(owned, vs, [id]) == 0 + Balance(owned, vs, id);
    assert CountSum(owned, vs, [id]) == 0 + Count(owned, vs, id);
  }

  lemma {:induction false} TotalGrows(vs: seq<Validator>, n: nat)
    requires n <= |vs|
    ensures Total(vs[..n]) <= Total(vs)
    decreases |vs| - n
  {
    if n < |vs| {
      assert vs[..n + 1][..n] == vs[..n];
      TotalGrows(vs, n + 1);
    } else {
      assert vs[..n] == vs;
    }
  }

  // ---------- The validators a client returns ----------

  datatype ValidatorItem = ValidatorItem(index: U64, effectiveBalance: U64, active: bool)

  /** What the Beacon client returns: some validators, each once, and each with a balance. */
  ghost predicate FromClient(vs: seq<Validator>) {
    && vs != [] && (forall i :: 0 <= i < |vs| ==> vs[i].effectiveBalance > 0)
    && forall i, j :: 0 <= i < j < |vs| ==> vs[i].index != vs[j].index
  }

  ghost predicate ItemsValid(items: seq<ValidatorItem>) {
    && items != [] && (forall i :: 0 <= i < |items| ==> items[i].active && items[i].effectiveBalance > 0)
    && forall i, j :: 0 <= i < j < |items| ==> items[i].index != items[j].index
  }

  /** The checks of the response. */
  method Validators(items: seq<ValidatorItem>) returns (r: Result<seq<Validator>>)
    ensures r.Ok? <==> ItemsValid(items)
    ensures r.Ok? ==> FromClient(r.value) && |r.value| == |items|
    ensures r.Ok? ==>
              forall i :: 0 <= i < |items| ==> r.value[i] == Validator(items[i].index, items[i].effectiveBalance)
  {
    if |items| == 0 {
      return Err;
    }
    var validators: seq<Validator> := [];
    var seen: set<U64> := {};
    for n := 0 to |items|
      invariant |validators| == n
      invariant forall i :: 0 <= i < n ==> validators[i] == Validator(items[i].index, items[i].effectiveBalance)
      invariant forall i :: 0 <= i < n ==> items[i].active && items[i].effectiveBalance > 0
      invariant forall i, j :: 0 <= i < j < n ==> items[i].index != items[j].index
      invariant forall index :: index in seen <==> exists i :: 0 <= i < n && items[i].index == index
    {
      if items[n].index in seen || items[n].effectiveBalance == 0 || !items[n].active {
        return Err;
      }
      seen := seen + {items[n].index};
      validators := validators + [Validator(items[n].index, items[n].effectiveBalance)];
    }
    r := Ok(validators);
  }

  // ---------- The calculator ----------

  function IdsOf(ps: seq<Participant>): seq<Name> {
    seq(|ps|, i requires 0 <= i < |ps| => ps[i].id)
  }

  /** The participant that owns ranges under this name. */
  function ByRange(ps: seq<Participant>): map<Name, Name> {
    if ps == [] then map[] else ByRange(ps[..|ps| - 1])[ps[|ps| - 1].validatorRangeName := ps[|ps| - 1].id]
  }

  lemma {:induction false} ByRangeNames(ps: seq<Participant>)
    ensures forall r :: r in ByRange(ps) ==> ByRange(ps)[r] in IdsOf(ps)
  {
    if ps != [] {
      var init, p := ps[..|ps| - 1], ps[|ps| - 1];
      ByRangeNames(init);
      assert IdsOf(ps) == IdsOf(init) + [p.id];
    }
  }

  ghost predicate OwnersKnown(ps: seq<Participant>, ranges: seq<ValidatorRange>) {
    forall i :: 0 <= i < |ranges| ==> ranges[i].owner in ByRange(ps)
  }

  ghost function OwnedRanges(ps: seq<Participant>, ranges: seq<ValidatorRange>): seq<OwnedRange>
    requires OwnersKnown(ps, ranges)
  {
    seq(|ranges|, i requires 0 <= i < |ranges| =>
      OwnedRange(ranges[i].start, ranges[i].end, ByRange(ps)[ranges[i].owner]))
  }

  lemma {:induction false} OwnersAreParticipants(ps: seq<Participant>, ranges: seq<ValidatorRange>)
    requires OwnersKnown(ps, ranges)
    ensures forall i :: 0 <= i < |ranges| ==> OwnedRanges(ps, ranges)[i].participantID in IdsOf(ps)
  {
    ByRangeNames(ps);
  }

  lemma {:induction false} OwnedRangesDisjoint(ps: seq<Participant>, ranges: seq<ValidatorRange>)
    requires ValidParticipants(ps) && SortedDisjoint(ranges) && OwnersKnown(ps, ranges)
    ensures OwnedDisjoint(OwnedRanges(ps, ranges))
    ensures forall i :: 0 <= i < |ranges| ==> OwnedRanges(ps, ranges)[i].participantID in IdsOf(ps)
  {
    ByRangeNames(ps);
    forall i | 0 <= i < |ranges|
      ensures ranges[i].start <= ranges[i].end && ByRange(ps)[ranges[i].owner] != NO_NAME
    {
      assert ranges[i] in ranges && WellFormed(ranges[i]);
      var id := ByRange(ps)[ranges[i].owner];
      var k :| 0 <= k < |IdsOf(ps)| && IdsOf(ps)[k] == id;
      assert ValidParticipant(ps[k]);
    }
  }

  /** Everything that has to hold for a split to be returned. */
  ghost predicate Calculable(s: Scenario, ranges: seq<ValidatorRange>, vs: seq<Validator>) {
    && ranges != [] && vs != [] && OwnersKnown(s.participants, ranges)
    && var owned := OwnedRanges(s.participants, ranges);
    && AllOwned(owned, vs, IdsOf(s.participants))
    && 0 < Total(vs) <= MAX_UINT64
    && CountsMatch(owned, vs, s.participants)
  }

  /** The balance of a group as the unguarded loop adds it, modulo 2^64. */
  ghost function GroupBalance(owned: seq<OwnedRange>, vs: seq<Validator>, ids: seq<Name>): U64 {
    BalanceSum(owned, vs, ids) % (MAX_UINT64 + 1)
  }

  /** Distinct members cannot make it wrap. */
  lemma {:induction false} GroupBalanceFits(owned: seq<OwnedRange>, vs: seq<Validator>, ids: seq<Name>)
    requires Distinct(ids) && Total(vs) <= MAX_UINT64
    ensures GroupBalance(owned, vs, ids) == BalanceSum(owned, vs, ids)
  {
    Conservation(owned, vs, ids);
  }

  /** The share of the total that a group's members hold. */
  ghost function Share(owned: seq<OwnedRange>, vs: seq<Validator>, ids: seq<Name>): real
    requires Total(vs) > 0
  {
    GroupBalance(owned, vs, ids) as real / Total(vs) as real
  }

  ghost predicate GroupMatches(owned: seq<OwnedRange>, vs: seq<Validator>, group: FaultGroup, weight: GroupWeight)
    requires Total(vs) > 0
  {
    && weight.name == group.name && weight.requestedShare == group.share
    && weight.effectiveBalance == GroupBalance(owned, vs, group.participants)
    && weight.realizedShare == Share(owned, vs, group.participants)
  }

  ghost predicate GroupWithin(owned: seq<OwnedRange>, vs: seq<Validator>, group: FaultGroup, tolerance: real)
    requires Total(vs) > 0
  {
    Abs(Share(owned, vs, group.participants) - group.share) <= tolerance
  }

  ghost predicate GroupsMatch(
    owned: seq<OwnedRange>, vs: seq<Validator>, tolerance: real,
    groups: seq<FaultGroup>, weights: seq<GroupWeight>, within: bool)
    requires Total(vs) > 0
  {
    && |weights| == |groups|
    && (forall g :: 0 <= g < |groups| ==> GroupMatches(owned, vs, groups[g], weights[g]))
    && (within <==> forall g :: 0 <= g < |groups| ==> GroupWithin(owned, vs, groups[g], tolerance))
  }

  ghost predicate ParticipantsMatch(
    owned: seq<OwnedRange>, vs: seq<Validator>, ps: seq<Participant>, weights: seq<ParticipantWeight>)
  {
    && |weights| == |ps|
    && forall i :: 0 <= i < |ps| ==>
          && weights[i].participantID == ps[i].id
          && weights[i].validatorCount == Count(owned, vs, ps[i].id)
          && weights[i].effectiveBalance == Balance(owned, vs, ps[i].id)
  }

  /** The split that belongs to the validators. */
  ghost predicate IsRealizedSplit(s: Scenario, ranges: seq<ValidatorRange>, vs: seq<Validator>, split: RealizedSplit)
    requires Calculable(s, ranges, vs)
  {
    var owned := OwnedRanges(s.participants, ranges);
    && split.splitBy == s.fault.splitBy && split.totalActiveBalance == Total(vs)
    && split.toleranceFraction == s.thresholds.realizedSplitTolerance
    && ParticipantsMatch(owned, vs, s.participants, split.participants)
    && GroupsMatch(owned, vs, s.thresholds.realizedSplitTolerance, s.fault.groups, split.groups, split.withinTolerance)
  }

  function AmountOf(m: map<Name, U64>, id: Name): U64 {
    if id in m then m[id] else 0
  }

  method CalculateRealizedSplit(s: Scenario, ranges: seq<ValidatorRange>, vs: seq<Validator>)
    returns (r: Result<RealizedSplit>)
    requires |vs| <= MAX_UINT64
    ensures r.Ok? <==> Calculable(s, ranges, vs)
    ensures r.Ok? ==> IsRealizedSplit(s, ranges, vs, r.value)
  {
    if |ranges| == 0 || |vs| == 0 {
      return Err;
    }
    var owned := ResolveOwners(s.participants, ranges);
    if owned.Err? {
      return Err;
    }
    OwnersAreParticipants(s.participants, ranges);
    var sums := Accumulate(owned.value, vs, IdsOf(s.participants));
    if sums.Err? || sums.value.2 == 0 {
      return Err;
    }
    var (weights, counts, total) := sums.value;
    var participants := ListParticipants(owned.value, vs, s.participants, weights, counts);
    if participants.Err? {
      return Err;
    }
    var groups, within := SumGroups(owned.value, vs, s.fault, s.thresholds.realizedSplitTolerance, weights, total);
    r := Ok(RealizedSplit(s.fault.splitBy, total, participants.value, groups, within,
                          s.thresholds.realizedSplitTolerance));
  }

  ghost predicate CountsMatch(owned: seq<OwnedRange>, vs: seq<Validator>, ps: seq<Participant>) {
    forall p :: p in ps ==> Count(owned, vs, p.id) == p.validatorCount
  }

  method ListParticipants(ghost owned: seq<OwnedRange>, ghost vs: seq<Validator>, ps: seq<Participant>,
                          weights: map<Name, U64>, counts: map<Name, U64>)
    returns (r: Result<seq<ParticipantWeight>>)
    requires forall id ::
               AmountOf(weights, id) == Balance(owned, vs, id) && AmountOf(counts, id) == Count(owned, vs, id)
    ensures r.Ok? <==> CountsMatch(owned, vs, ps)
    ensures r.Ok? ==> ParticipantsMatch(owned, vs, ps, r.value)
  {
    var participants: seq<ParticipantWeight> := [];
    for n := 0 to |ps|
      invariant ParticipantsMatch(owned, vs, ps[..n], participants) && CountsMatch(owned, vs, ps[..n])
    {
      if AmountOf(counts, ps[n].id) != ps[n].validatorCount {
        assert ps[n] in ps;
        return Err;
      }
      participants :=
        participants + [ParticipantWeight(ps[n].id, AmountOf(counts, ps[n].id), AmountOf(weights, ps[n].id))];
    }
    assert ps[..|ps|] == ps;
    return Ok(participants);
  }

  method ResolveOwners(ps: seq<Participant>, ranges: seq<ValidatorRange>) returns (r: Result<seq<OwnedRange>>)
    ensures r.Ok? <==> OwnersKnown(ps, ranges)
    ensures r.Ok? ==> r.value == OwnedRanges(ps, ranges)
  {
    var participantsByRange: map<Name, Name> := map[];
    for n := 0 to |ps|
      invariant participantsByRange == ByRange(ps[..n])
    {
      assert ps[..n + 1][..n] == ps[..n];
      participantsByRange := participantsByRange[ps[n].validatorRangeName := ps[n].id];
    }
    assert ps[..|ps|] == ps;
    var owned: seq<OwnedRange> := [];
    for n := 0 to |ranges|
      invariant OwnersKnown(ps, ranges[..n]) && owned == OwnedRanges(ps, ranges[..n])
    {
      if ranges[n].owner !in participantsByRange {
        return Err;
      }
      owned := owned + [OwnedRange(ranges[n].start, ranges[n].end, participantsByRange[ranges[n].owner])];
    }
    assert ranges[..|ranges|] == ranges;
    return Ok(owned);
  }

  /** The loop over the validators, with its overflow checks. */
  method Accumulate(owned: seq<OwnedRange>, vs: seq<Validator>, ghost ids: seq<Name>)
    returns (r: Result<(map<Name, U64>, map<Name, U64>, U64)>)
    requires |vs| <= MAX_UINT64
    requires forall i :: 0 <= i < |owned| ==> owned[i].participantID in ids
    ensures r.Ok? <==> AllOwned(owned, vs, ids) && Total(vs) <= MAX_UINT64
    ensures r.Ok? ==> r.value.2 == Total(vs)
    ensures r.Ok? ==> forall id ::
              AmountOf(r.value.0, id) == Balance(owned, vs, id) && AmountOf(r.value.1, id) == Count(owned, vs, id)
  {
    var weights: map<Name, U64> := map[];
    var counts: map<Name, U64> := map[];
    var total: U64 := 0;
    for n := 0 to |vs|
      invariant AllOwned(owned, vs[..n], ids)
      invariant total == Total(vs[..n])
      invariant forall id :: AmountOf(weights, id) == Balance(owned, vs[..n], id)
      invariant forall id :: AmountOf(counts, id) == Count(owned, vs[..n], id)
    {
      var v := vs[n];
      assert vs[..n + 1] == vs[..n] + [v] && vs[..n + 1][..n] == vs[..n];
      var participantID := FindOwner(owned, v.index);
      if participantID == NO_NAME {
        assert v in vs;
        return Err;
      }
      BalanceAtMostTotal(owned, vs[..n], participantID);
      TotalGrows(vs, n + 1);
      if MAX_UINT64 - AmountOf(weights, participantID) < v.effectiveBalance || MAX_UINT64 - total < v.effectiveBalance {
        return Err;
      }
      weights := weights[participantID := AmountOf(weights, participantID) + v.effectiveBalance];
      counts := counts[participantID := AmountOf(counts, participantID) + 1];
      total := total + v.effectiveBalance;
    }
    assert vs[..|vs|] == vs;
    return Ok((weights, counts, total));
  }

  method SumGroups(ghost owned: seq<OwnedRange>, ghost vs: seq<Validator>,
                   fault: Fault, tolerance: real, weights: map<Name, U64>, total: U64)
    returns (groups: seq<GroupWeight>, within: bool)
    requires 0 < total == Total(vs)
    requires forall id :: AmountOf(weights, id) == Balance(owned, vs, id)
    ensures GroupsMatch(owned, vs, tolerance, fault.groups, groups, within)
  {
    groups, within := [], true;
    for n := 0 to |fault.groups|
      invariant GroupsMatch(owned, vs, tolerance, fault.groups[..n], groups, within)
    {
      var group := fault.groups[n];
      var groupBalance := SumMembers(owned, vs, weights, group.participants);
      var realizedShare := groupBalance as real / total as real;
      if Abs(realizedShare - group.share) > tolerance {
        within := false;
      }
      groups := groups + [GroupWeight(group.name, group.share, realizedShare, groupBalance)];
    }
    assert fault.groups[..|fault.groups|] == fault.groups;
  }

  lemma {:induction false} GroupMembersDistinct(groups: seq<FaultGroup>, n: nat)
    requires Distinct(Members(groups)) && n < |groups|
    ensures Distinct(groups[n].participants)
  {
    var init, last := Members(groups[..|groups| - 1]), groups[|groups| - 1].participants;
    if n == |groups| - 1 {
      assert forall i :: 0 <= i < |last| ==> (init + last)[|init| + i] == last[i];
    } else {
      DistinctPrefix(init, last);
      GroupMembersDistinct(groups[..|groups| - 1], n);
    }
  }

  /** The unchecked sum over a group. */
  method SumMembers(ghost owned: seq<OwnedRange>, ghost vs: seq<Validator>, weights: map<Name, U64>, ids: seq<Name>)
    returns (sum: U64)
    requires forall id :: AmountOf(weights, id) == Balance(owned, vs, id)
    ensures sum == GroupBalance(owned, vs, ids)
  {
    sum := 0;
    for k := 0 to |ids|
      invariant sum == GroupBalance(owned, vs, ids[..k])
    {
      assert ids[..k + 1][..k] == ids[..k];
      WrapStep(BalanceSum(owned, vs, ids[..k]), Balance(owned, vs, ids[k]));
      sum := (sum + AmountOf(weights, ids[k])) % (MAX_UINT64 + 1);
    }
    assert ids[..|ids|] == ids;
  }

  lemma {:induction false} WrapStep(a: nat, b: nat)
    ensures (a % (MAX_UINT64 + 1) + b) % (MAX_UINT64 + 1) == (a + b) % (MAX_UINT64 + 1)
  {
  }

  // ---------- The independent validator ----------

  /** The recorded balance of a participant. */
  function RecordedBalance(weights: seq<ParticipantWeight>, id: Name): nat {
    if weights == [] then 0
    else if weights[|weights| - 1].participantID == id then weights[|weights| - 1].effectiveBalance
    else RecordedBalance(weights[..|weights| - 1], id)
  }

  function RecordedTotal(weights: seq<ParticipantWeight>): nat {
    if weights == [] then 0 else RecordedTotal(weights[..|weights| - 1]) + weights[|weights| - 1].effectiveBalance
  }

  function RecordedSum(weights: seq<ParticipantWeight>, ids: seq<Name>): nat {
    if ids == [] then 0 else RecordedSum(weights, ids[..|ids| - 1]) + RecordedBalance(weights, ids[|ids| - 1])
  }

  function RecordedIds(weights: seq<ParticipantWeight>): seq<Name> {
    seq(|weights|, i requires 0 <= i < |weights| => weights[i].participantID)
  }

  ghost predicate KnownWeight(expected: map<Name, Participant>, w: ParticipantWeight) {
    && w.participantID in expected
    && w.validatorCount == expected[w.participantID].validatorCount && w.effectiveBalance > 0
  }

  ghost predicate DistinctWeights(weights: seq<ParticipantWeight>) {
    forall i, j :: 0 <= i < j < |weights| ==> weights[i].participantID != weights[j].participantID
  }

  const SHARE_EPSILON: real := 0.000000000001

  ghost predicate WeightNamesDistinct(weights: seq<GroupWeight>) {
    forall i, j :: 0 <= i < j < |weights| ==> weights[i].name != weights[j].name
  }

  ghost predicate RecordedShare(split: RealizedSplit, g: FaultGroup, w: GroupWeight)
    requires split.totalActiveBalance > 0
  {
    var sum := RecordedSum(split.participants, g.participants);
    && Elements(g.participants) <= Elements(RecordedIds(split.participants))
    && w.requestedShare == g.share && w.effectiveBalance == sum
    && Abs(w.realizedShare - sum as real / split.totalActiveBalance as real) <= SHARE_EPSILON
  }

  ghost predicate RecordedWithin(split: RealizedSplit, g: FaultGroup)
    requires split.totalActiveBalance > 0
  {
    Abs(RecordedSum(split.participants, g.participants) as real / split.totalActiveBalance as real - g.share) <=
      split.toleranceFraction
  }

  /** The recorded group is a group of the scenario with the right aggregates. */
  ghost predicate GroupAccepted(groups: seq<FaultGroup>, split: RealizedSplit, w: GroupWeight)
    requires split.totalActiveBalance > 0
  {
    exists g :: g in groups && g.name == w.name && RecordedShare(split, g, w)
  }

  /** The recorded groups are the scenario's groups in some order, with the shares their members' balances give. */
  ghost predicate GroupsAccepted(groups: seq<FaultGroup>, split: RealizedSplit)
    requires split.totalActiveBalance > 0
  {
    && |split.groups| == |groups|
    && WeightNamesDistinct(split.groups)
    && (forall i :: 0 <= i < |split.groups| ==> GroupAccepted(groups, split, split.groups[i]))
  }

  ghost predicate SplitAccepted(s: Scenario, split: RealizedSplit) {
    && split.splitBy == s.fault.splitBy && split.totalActiveBalance > 0
    && split.toleranceFraction == s.thresholds.realizedSplitTolerance
    && |split.participants| == |s.participants| && DistinctWeights(split.participants)
    && (forall w :: w in split.participants ==> KnownWeight(ById(s.participants), w))
    && RecordedTotal(split.participants) == split.totalActiveBalance
    && GroupsAccepted(s.fault.groups, split)
    && (split.withinTolerance <==> forall g :: g in s.fault.groups ==> RecordedWithin(split, g))
  }

  method ValidateRealizedSplit(s: Scenario, split: RealizedSplit) returns (ok: bool)
    ensures ok <==> SplitAccepted(s, split)
  {
    if split.splitBy != s.fault.splitBy || split.totalActiveBalance == 0 {
      return false;
    }
    if split.toleranceFraction != s.thresholds.realizedSplitTolerance || |split.participants| != |s.participants| {
      return false;
    }
    var balances := CheckWeights(ById(s.participants), split.participants);
    if balances.Err? || balances.value.1 != split.totalActiveBalance || |split.groups| != |s.fault.groups| {
      return false;
    }
    ok := CheckGroupWeights(s.fault.groups, split, balances.value.0);
  }

  ghost predicate BalancesRecorded(weights: seq<ParticipantWeight>, balances: map<Name, U64>) {
    && balances.Keys == (set w | w in weights :: w.participantID)
    && forall id :: id in balances ==> balances[id] == RecordedBalance(weights, id)
  }

  lemma {:induction false} OneMoreBalance(weights: seq<ParticipantWeight>, w: ParticipantWeight,
                                         balances: map<Name, U64>)
    requires BalancesRecorded(weights, balances) && DistinctWeights(weights)
    ensures DistinctWeights(weights + [w]) <==> w.participantID !in balances
    ensures BalancesRecorded(weights + [w], balances[w.participantID := w.effectiveBalance])
  {
    var all := weights + [w];
    assert all[..|weights|] == weights;
    if w.participantID in balances {
      var v :| v in weights && v.participantID == w.participantID;
      var i :| 0 <= i < |weights| && weights[i] == v;
      assert all[i].participantID == all[|weights|].participantID;
    } else {
      assert forall i :: 0 <= i < |weights| ==> weights[i] in weights && weights[i].participantID in balances;
    }
  }

  /** The recorded participants are known, different, and their balances fit. */
  ghost predicate WeightsFine(expected: map<Name, Participant>, weights: seq<ParticipantWeight>) {
    && DistinctWeights(weights) && (forall w :: w in weights ==> KnownWeight(expected, w))
    && RecordedTotal(weights) <= MAX_UINT64
  }

  method CheckWeights(expected: map<Name, Participant>, weights: seq<ParticipantWeight>)
    returns (r: Result<(map<Name, U64>, U64)>)
    ensures r.Ok? <==> WeightsFine(expected, weights)
    ensures r.Ok? ==> BalancesRecorded(weights, r.value.0) && r.value.1 == RecordedTotal(weights)
  {
    var balances: map<Name, U64> := map[];
    var total: U64 := 0;
    for n := 0 to |weights|
      invariant WeightsFine(expected, weights[..n])
      invariant BalancesRecorded(weights[..n], balances) && total == RecordedTotal(weights[..n])
    {
      var w := weights[n];
      var ok := CheckWeight(expected, weights[..n], w, balances, total);
      PrefixStep(weights, n);
      if !ok {
        FinePrefix(expected, weights, n + 1);
        return Err;
      }
      balances := balances[w.participantID := w.effectiveBalance];
      total := total + w.effectiveBalance;
    }
    assert weights[..|weights|] == weights;
    return Ok((balances, total));
  }

  /** The checks of one recorded participant. */
  method CheckWeight(expected: map<Name, Participant>, ghost before: seq<ParticipantWeight>, w: ParticipantWeight,
                     balances: map<Name, U64>, total: U64)
    returns (ok: bool)
    requires WeightsFine(expected, before) && BalancesRecorded(before, balances) && total == RecordedTotal(before)
    ensures ok <==> WeightsFine(expected, before + [w])
    ensures ok ==> RecordedTotal(before + [w]) == total + w.effectiveBalance
    ensures ok ==> BalancesRecorded(before + [w], balances[w.participantID := w.effectiveBalance])
  {
    OneMoreBalance(before, w, balances);
    assert (before + [w])[..|before|] == before && w in before + [w];
    if w.participantID !in expected || w.participantID in balances {
      return false;
    }
    if w.validatorCount != expected[w.participantID].validatorCount || w.effectiveBalance == 0 {
      return false;
    }
    ok := MAX_UINT64 - total >= w.effectiveBalance;
  }

  lemma {:induction false} FinePrefix(expected: map<Name, Participant>, weights: seq<ParticipantWeight>, n: nat)
    requires n <= |weights|
    ensures WeightsFine(expected, weights) ==> WeightsFine(expected, weights[..n])
  {
    RecordedTotalGrows(weights, n);
    assert forall i :: 0 <= i < n ==> weights[..n][i] == weights[i];
  }

  lemma {:induction false} RecordedTotalGrows(weights: seq<ParticipantWeight>, n: nat)
    requires n <= |weights|
    ensures RecordedTotal(weights[..n]) <= RecordedTotal(weights)
    decreases |weights| - n
  {
    if n < |weights| {
      assert weights[..n + 1][..n] == weights[..n];
      RecordedTotalGrows(weights, n + 1);
    } else {
      assert weights[..n] == weights;
    }
  }

  lemma {:induction false} RecordedIdsAreKeys(weights: seq<ParticipantWeight>, balances: map<Name, U64>)
    requires BalancesRecorded(weights, balances)
    ensures Elements(RecordedIds(weights)) == balances.Keys
  {
    var ids := RecordedIds(weights);
    forall id | id in balances ensures id in ids {
      var w :| w in weights && w.participantID == id;
      var i :| 0 <= i < |weights| && weights[i] == w;
      assert ids[i] == id;
    }
    forall id | id in ids ensures id in balances {
      var i :| 0 <= i < |ids| && ids[i] == id;
      assert weights[i] in weights;
    }
  }

  lemma {:induction false} RecordedSumGrows(weights: seq<ParticipantWeight>, ids: seq<Name>, n: nat)
    requires n <= |ids|
    ensures RecordedSum(weights, ids[..n]) <= RecordedSum(weights, ids)
    decreases |ids| - n
  {
    if n < |ids| {
      assert ids[..n + 1][..n] == ids[..n];
      RecordedSumGrows(weights, ids, n + 1);
    } else {
      assert ids[..n] == ids;
    }
  }

  /** The sum over a group, refused when a member is missing or the sum does not fit. */
  method SumRecorded(ghost weights: seq<ParticipantWeight>, balances: map<Name, U64>, ids: seq<Name>)
    returns (sum: Option<U64>)
    requires BalancesRecorded(weights, balances)
    ensures sum.Some? <==> Elements(ids) <= balances.Keys && RecordedSum(weights, ids) <= MAX_UINT64
    ensures sum.Some? ==> sum.value == RecordedSum(weights, ids)
  {
    var groupBalance: U64 := 0;
    for k := 0 to |ids|
      invariant Elements(ids[..k]) <= balances.Keys && groupBalance == RecordedSum(weights, ids[..k])
    {
      assert ids[..k + 1][..k] == ids[..k] && ids[k] in Elements(ids);
      RecordedSumGrows(weights, ids, k + 1);
      if ids[k] !in balances || MAX_UINT64 - groupBalance < balances[ids[k]] {
        return None;
      }
      assert Elements(ids[..k + 1]) == Elements(ids[..k]) + {ids[k]};
      groupBalance := groupBalance + balances[ids[k]];
    }
    assert ids[..|ids|] == ids;
    return Some(groupBalance);
  }

  /** The last group with this name, as a map by name holds it. */
  function GroupNamed(groups: seq<FaultGroup>, name: Name): Option<FaultGroup> {
    if groups == [] then None
    else if groups[|groups| - 1].name == name then Some(groups[|groups| - 1])
    else GroupNamed(groups[..|groups| - 1], name)
  }

  method FindGroup(groups: seq<FaultGroup>, name: Name) returns (found: Option<FaultGroup>)
    ensures found == GroupNamed(groups, name)
  {
    found := None;
    for n := 0 to |groups|
      invariant found == GroupNamed(groups[..n], name)
    {
      assert groups[..n + 1][..n] == groups[..n];
      if groups[n].name == name {
        found := Some(groups[n]);
      }
    }
    assert groups[..|groups|] == groups;
  }

  lemma {:induction false} GroupNamedIsListed(groups: seq<FaultGroup>, name: Name)
    ensures GroupNamed(groups, name).Some? ==> GroupNamed(groups, name).value in groups
    ensures GroupNamed(groups, name).Some? ==> GroupNamed(groups, name).value.name == name
    ensures GroupNamed(groups, name).None? ==> forall g :: g in groups ==> g.name != name
  {
    if groups != [] {
      GroupNamedIsListed(groups[..|groups| - 1], name);
    }
  }

  ghost predicate GroupNamesDistinct(groups: seq<FaultGroup>) {
    forall i, j :: 0 <= i < j < |groups| ==> groups[i].name != groups[j].name
  }

  /** The recorded group has the aggregates of the group that the name stands for. */
  ghost predicate NamedAccepted(groups: seq<FaultGroup>, split: RealizedSplit, w: GroupWeight)
    requires split.totalActiveBalance > 0
  {
    GroupNamed(groups, w.name).Some? && RecordedShare(split, GroupNamed(groups, w.name).value, w)
  }

  /** The checks of one recorded group. */
  method CheckOneGroup(groups: seq<FaultGroup>, split: RealizedSplit, balances: map<Name, U64>, w: GroupWeight)
    returns (ok: bool, within: bool)
    requires BalancesRecorded(split.participants, balances)
    requires 0 < split.totalActiveBalance == RecordedTotal(split.participants)
    ensures ok <==> NamedAccepted(groups, split, w)
    ensures ok ==> (within <==> RecordedWithin(split, GroupNamed(groups, w.name).value))
  {
    var expected := FindGroup(groups, w.name);
    if expected.None? {
      return false, false;
    }
    RecordedIdsAreKeys(split.participants, balances);
    var groupBalance := SumRecorded(split.participants, balances, expected.value.participants);
    if groupBalance.None? {
      return false, false;
    }
    var realizedShare := groupBalance.value as real / split.totalActiveBalance as real;
    ok := w.requestedShare == expected.value.share && w.effectiveBalance == groupBalance.value
          && Abs(w.realizedShare - realizedShare) <= SHARE_EPSILON;
    within := Abs(realizedShare - expected.value.share) <= split.toleranceFraction;
  }

  method CheckGroupWeights(groups: seq<FaultGroup>, split: RealizedSplit, balances: map<Name, U64>) returns (ok: bool)
    requires |split.groups| == |groups|
    requires BalancesRecorded(split.participants, balances)
    requires 0 < split.totalActiveBalance == RecordedTotal(split.participants)
    ensures ok <==>
            && GroupsAccepted(groups, split)
            && (split.withinTolerance <==> forall g :: g in groups ==> RecordedWithin(split, g))
  {
    var seenGroups: set<Name> := {};
    var withinTolerance := true;
    ghost var names := WeightNames(split.groups);
    for n := 0 to |split.groups|
      invariant seenGroups == Elements(names[..n]) && Distinct(names[..n])
      invariant forall i :: 0 <= i < n ==> NamedAccepted(groups, split, split.groups[i])
      invariant withinTolerance <==>
                  forall i :: 0 <= i < n ==> RecordedWithin(split, GroupNamed(groups, split.groups[i].name).value)
    {
      var w := split.groups[n];
      assert names[..n + 1] == names[..n] + [w.name];
      var valid, within := CheckOneGroup(groups, split, balances, w);
      if !valid || w.name in seenGroups {
        RepeatedName(split.groups, n);
        AcceptedByName(groups, split);
        return false;
      }
      withinTolerance := withinTolerance && within;
      seenGroups := seenGroups + {w.name};
    }
    assert names[..|names|] == names;
    AllNamedAccepted(groups, split);
    ok := split.withinTolerance == withinTolerance;
  }

  lemma {:induction false} RepeatedName(weights: seq<GroupWeight>, n: nat)
    requires n < |weights|
    ensures weights[n].name in WeightNames(weights)[..n] ==> !WeightNamesDistinct(weights)
  {
  }

  function GroupNames(groups: seq<FaultGroup>): seq<Name> {
    seq(|groups|, i requires 0 <= i < |groups| => groups[i].name)
  }

  function WeightNames(weights: seq<GroupWeight>): seq<Name> {
    seq(|weights|, i requires 0 <= i < |weights| => weights[i].name)
  }

  /** As many different names of groups as there are groups are all of their names, and no name is used twice. */
  lemma {:induction false} EveryGroupNamed(groups: seq<FaultGroup>, weights: seq<GroupWeight>)
    requires |weights| == |groups| && WeightNamesDistinct(weights)
    requires forall i :: 0 <= i < |weights| ==> weights[i].name in GroupNames(groups)
    ensures GroupNamesDistinct(groups)
    ensures forall g :: g in groups ==> exists i :: 0 <= i < |weights| && weights[i].name == g.name
  {
    var have, want := WeightNames(weights), GroupNames(groups);
    DistinctSize(have);
    DistinctSize(want);
    SameSizeSubset(Elements(have), Elements(want));
    assert forall i :: 0 <= i < |groups| ==> want[i] == groups[i].name;
    forall g | g in groups ensures exists i :: 0 <= i < |weights| && weights[i].name == g.name {
      var k :| 0 <= k < |groups| && groups[k] == g;
      assert want[k] in Elements(have);
      var i :| 0 <= i < |have| && have[i] == want[k];
    }
  }

  lemma {:induction false} OnlyGroupNamed(groups: seq<FaultGroup>, g: FaultGroup)
    requires GroupNamesDistinct(groups) && g in groups
    ensures GroupNamed(groups, g.name) == Some(g)
  {
    GroupNamedIsListed(groups, g.name);
  }

  lemma {:induction false} ListedName(groups: seq<FaultGroup>, g: FaultGroup)
    requires g in groups
    ensures g.name in GroupNames(groups)
  {
    var k :| 0 <= k < |groups| && groups[k] == g;
    assert GroupNames(groups)[k] == g.name;
  }

  /** Accepted groups are accepted by name. */
  lemma {:induction false} AcceptedByName(groups: seq<FaultGroup>, split: RealizedSplit)
    requires split.totalActiveBalance > 0
    ensures GroupsAccepted(groups, split) ==>
              forall i :: 0 <= i < |split.groups| ==> NamedAccepted(groups, split, split.groups[i])
  {
    if GroupsAccepted(groups, split) {
      forall i | 0 <= i < |split.groups| ensures split.groups[i].name in GroupNames(groups) {
        assert GroupAccepted(groups, split, split.groups[i]);
        var g :| g in groups && g.name == split.groups[i].name;
        ListedName(groups, g);
      }
      EveryGroupNamed(groups, split.groups);
      forall i | 0 <= i < |split.groups| ensures NamedAccepted(groups, split, split.groups[i]) {
        assert GroupAccepted(groups, split, split.groups[i]);
        var g :| g in groups && g.name == split.groups[i].name && RecordedShare(split, g, split.groups[i]);
        OnlyGroupNamed(groups, g);
      }
    }
  }

  /** Groups that are all accepted by name, under different names, are the scenario's groups. */
  lemma {:induction false} AllNamedAccepted(groups: seq<FaultGroup>, split: RealizedSplit)
    requires split.totalActiveBalance > 0 && |split.groups| == |groups| && Distinct(WeightNames(split.groups))
    requires forall i :: 0 <= i < |split.groups| ==> NamedAccepted(groups, split, split.groups[i])
    ensures GroupsAccepted(groups, split)
    ensures (forall g :: g in groups ==> RecordedWithin(split, g)) <==>
              forall i :: 0 <= i < |split.groups| ==>
                NamedAccepted(groups, split, split.groups[i])
                && RecordedWithin(split, GroupNamed(groups, split.groups[i].name).value)
  {
    assert forall i :: 0 <= i < |split.groups| ==> WeightNames(split.groups)[i] == split.groups[i].name;
    forall i | 0 <= i < |split.groups|
      ensures split.groups[i].name in GroupNames(groups) && GroupAccepted(groups, split, split.groups[i])
      ensures GroupNamed(groups, split.groups[i].name).value in groups
    {
      GroupNamedIsListed(groups, split.groups[i].name);
      ListedName(groups, GroupNamed(groups, split.groups[i].name).value);
    }
    EveryGroupNamed(groups, split.groups);
    forall g | g in groups ensures GroupNamed(groups, g.name) == Some(g) {
      OnlyGroupNamed(groups, g);
    }
  }

  // ---------- Agreement ----------

  lemma {:induction false} RecordedIsBalance(owned: seq<OwnedRange>, vs: seq<Validator>, ps: seq<Participant>,
                                             weights: seq<ParticipantWeight>)
    requires ValidParticipants(ps) && ParticipantsMatch(owned, vs, ps, weights)
    ensures forall i :: 0 <= i < |ps| ==> RecordedBalance(weights, ps[i].id) == Balance(owned, vs, ps[i].id)
    ensures RecordedTotal(weights) == BalanceSum(owned, vs, IdsOf(ps))
  {
    if ps != [] {
      var init, last := ps[..|ps| - 1], ps[|ps| - 1];
      assert ValidParticipants(init);
      RecordedIsBalance(owned, vs, init, weights[..|ps| - 1]);
      assert IdsOf(ps)[..|ps| - 1] == IdsOf(init);
      forall i | 0 <= i < |ps| ensures RecordedBalance(weights, ps[i].id) == Balance(owned, vs, ps[i].id) {
        if i < |ps| - 1 {
          assert Unrelated(ps[i], last) && init[i] == ps[i];
        }
      }
    }
  }

  lemma {:induction false} RecordedSumIsBalanceSum(
    owned: seq<OwnedRange>, vs: seq<Validator>, weights: seq<ParticipantWeight>, ids: seq<Name>)
    requires forall id :: id in ids ==> RecordedBalance(weights, id) == Balance(owned, vs, id)
    ensures RecordedSum(weights, ids) == BalanceSum(owned, vs, ids)
  {
    if ids != [] {
      assert ids[|ids| - 1] in ids;
      RecordedSumIsBalanceSum(owned, vs, weights, ids[..|ids| - 1]);
    }
  }

  ghost predicate EveryoneHolds(s: Scenario, ranges: seq<ValidatorRange>, vs: seq<Validator>)
    requires OwnersKnown(s.participants, ranges)
  {
    forall p :: p in s.participants ==> Balance(OwnedRanges(s.participants, ranges), vs, p.id) > 0
  }

  lemma {:induction false} IdsDistinct(ps: seq<Participant>)
    requires ValidParticipants(ps)
    ensures Distinct(IdsOf(ps))
  {
  }

  lemma {:induction false} TotalsAgree(owned: seq<OwnedRange>, vs: seq<Validator>, ps: seq<Participant>,
                                       ws: seq<ParticipantWeight>)
    requires ValidParticipants(ps) && ParticipantsMatch(owned, vs, ps, ws) && AllOwned(owned, vs, IdsOf(ps))
    ensures DistinctWeights(ws) && RecordedTotal(ws) == Total(vs)
  {
    IdsDistinct(ps);
    Conservation(owned, vs, IdsOf(ps));
    RecordedIsBalance(owned, vs, ps, ws);
    forall i, j | 0 <= i < j < |ws| ensures ws[i].participantID != ws[j].participantID {
      assert Unrelated(ps[i], ps[j]);
    }
  }

  lemma {:induction false} KnownWhenHeld(owned: seq<OwnedRange>, vs: seq<Validator>, ps: seq<Participant>,
                                         ws: seq<ParticipantWeight>, m: map<Name, Participant>)
    requires IndexedBy(ps, m) && ParticipantsMatch(owned, vs, ps, ws) && CountsMatch(owned, vs, ps)
    ensures (forall w :: w in ws ==> KnownWeight(m, w)) <==> forall p :: p in ps ==> Balance(owned, vs, p.id) > 0
  {
    forall i | 0 <= i < |ps|
      ensures ws[i] in ws && ps[i] in ps && (KnownWeight(m, ws[i]) <==> Balance(owned, vs, ps[i].id) > 0)
    {
      assert ps[i] in ps;
    }
  }

  lemma {:induction false} WeightsAgree(s: Scenario, ranges: seq<ValidatorRange>, vs: seq<Validator>,
                                        split: RealizedSplit)
    requires Valid(s) && Calculable(s, ranges, vs) && IsRealizedSplit(s, ranges, vs, split)
    ensures DistinctWeights(split.participants) && RecordedTotal(split.participants) == Total(vs)
    ensures (forall w :: w in split.participants ==> KnownWeight(ById(s.participants), w)) <==>
              EveryoneHolds(s, ranges, vs)
  {
    var owned := OwnedRanges(s.participants, ranges);
    ByIdIndexes(s.participants);
    TotalsAgree(owned, vs, s.participants, split.participants);
    KnownWhenHeld(owned, vs, s.participants, split.participants, ById(s.participants));
  }

  lemma {:induction false} MembersRecorded(owned: seq<OwnedRange>, vs: seq<Validator>, ps: seq<Participant>,
                                           weights: seq<ParticipantWeight>, ids: seq<Name>)
    requires ValidParticipants(ps) && ParticipantsMatch(owned, vs, ps, weights) && Elements(ids) <= Elements(IdsOf(ps))
    ensures Elements(ids) <= Elements(RecordedIds(weights))
    ensures RecordedSum(weights, ids) == BalanceSum(owned, vs, ids)
  {
    RecordedIsBalance(owned, vs, ps, weights);
    assert RecordedIds(weights) == IdsOf(ps);
    forall id | id in ids ensures RecordedBalance(weights, id) == Balance(owned, vs, id) {
      assert id in Elements(ids);
      var i :| 0 <= i < |ps| && IdsOf(ps)[i] == id;
    }
    RecordedSumIsBalanceSum(owned, vs, weights, ids);
  }

  lemma {:induction false} MembersAreParticipants(s: Scenario, n: nat)
    requires Valid(s) && n < 2
    ensures Distinct(s.fault.groups[n].participants)
    ensures Elements(s.fault.groups[n].participants) <= Elements(IdsOf(s.participants))
  {
    var g, ps := s.fault.groups[n], s.participants;
    GroupMembersDistinct(s.fault.groups, n);
    ByIdIndexes(ps);
    assert g in s.fault.groups && ValidGroup(g, ById(ps));
    forall id | id in g.participants ensures id in IdsOf(ps) {
      var i :| 0 <= i < |ps| && ps[i] == ById(ps)[id];
      assert IdsOf(ps)[i] == id;
    }
  }

  lemma {:induction false} GroupSumAgrees(s: Scenario, ranges: seq<ValidatorRange>, vs: seq<Validator>,
                                          split: RealizedSplit, n: nat)
    requires Valid(s) && Calculable(s, ranges, vs) && IsRealizedSplit(s, ranges, vs, split) && n < 2
    ensures RecordedShare(split, s.fault.groups[n], split.groups[n])
    ensures split.groups[n].name == s.fault.groups[n].name
    ensures RecordedWithin(split, s.fault.groups[n]) <==>
              GroupWithin(OwnedRanges(s.participants, ranges), vs, s.fault.groups[n],
                          s.thresholds.realizedSplitTolerance)
  {
    var owned, g := OwnedRanges(s.participants, ranges), s.fault.groups[n];
    MembersAreParticipants(s, n);
    MembersRecorded(owned, vs, s.participants, split.participants, g.participants);
    GroupBalanceFits(owned, vs, g.participants);
    assert GroupMatches(owned, vs, g, split.groups[n]);
  }

  lemma {:induction false} GroupsAgree(s: Scenario, ranges: seq<ValidatorRange>, vs: seq<Validator>,
                                       split: RealizedSplit)
    requires Valid(s) && Calculable(s, ranges, vs) && IsRealizedSplit(s, ranges, vs, split)
    ensures GroupsAccepted(s.fault.groups, split)
    ensures split.withinTolerance <==> forall g :: g in s.fault.groups ==> RecordedWithin(split, g)
  {
    GroupSumAgrees(s, ranges, vs, split, 0);
    GroupSumAgrees(s, ranges, vs, split, 1);
    assert s.fault.groups[0].name != s.fault.groups[1].name;
    TwoAccepted(s.fault.groups, split);
  }

  lemma {:induction false} TwoAccepted(groups: seq<FaultGroup>, split: RealizedSplit)
    requires split.totalActiveBalance > 0 && |groups| == |split.groups| == 2 && groups[0].name != groups[1].name
    requires RecordedShare(split, groups[0], split.groups[0]) && split.groups[0].name == groups[0].name
    requires RecordedShare(split, groups[1], split.groups[1]) && split.groups[1].name == groups[1].name
    ensures GroupsAccepted(groups, split)
    ensures (forall g :: g in groups ==> RecordedWithin(split, g)) <==>
              RecordedWithin(split, groups[0]) && RecordedWithin(split, groups[1])
  {
    assert groups[0] in groups && groups[1] in groups;
    assert GroupAccepted(groups, split, split.groups[0]) && GroupAccepted(groups, split, split.groups[1]);
  }

  /** The validator accepts a calculated split exactly when every participant holds some balance. */
  lemma {:induction false} CalculatorAgreesWithValidator(s: Scenario, ranges: seq<ValidatorRange>, vs: seq<Validator>,
                                                         split: RealizedSplit)
    requires Valid(s) && Calculable(s, ranges, vs) && IsRealizedSplit(s, ranges, vs, split)
    ensures SplitAccepted(s, split) <==> EveryoneHolds(s, ranges, vs)
  {
    WeightsAgree(s, ranges, vs, split);
    GroupsAgree(s, ranges, vs, split);
  }

  lemma {:induction false} PositiveBalance(owned: seq<OwnedRange>, vs: seq<Validator>, id: Name)
    requires forall v :: v in vs ==> v.effectiveBalance > 0
    ensures Count(owned, vs, id) > 0 ==> Balance(owned, vs, id) > 0
  {
    if vs != [] {
      assert vs[|vs| - 1] in vs;
      PositiveBalance(owned, vs[..|vs| - 1], id);
    }
  }

  /** With positive validator balances, every calculated split is accepted. */
  lemma {:induction false} PositiveBalancesAreAccepted(s: Scenario, ranges: seq<ValidatorRange>, vs: seq<Validator>,
                                                       split: RealizedSplit)
    requires Valid(s) && Calculable(s, ranges, vs) && IsRealizedSplit(s, ranges, vs, split)
    requires forall v :: v in vs ==> v.effectiveBalance > 0
    ensures SplitAccepted(s, split)
  {
    var owned := OwnedRanges(s.participants, ranges);
    forall p | p in s.participants ensures Balance(owned, vs, p.id) > 0 {
      PositiveBalance(owned, vs, p.id);
      var i :| 0 <= i < |s.participants| && s.participants[i] == p;
      assert ValidParticipant(p) && Count(owned, vs, p.id) == p.validatorCount;
    }
    CalculatorAgreesWithValidator(s, ranges, vs, split);
  }

  /** Whatever the client returned, its calculated split is accepted. */
  lemma {:induction false} ClientSplitsAreAccepted(s: Scenario, ranges: seq<ValidatorRange>, vs: seq<Validator>,
                                                   split: RealizedSplit)
    requires FromClient(vs)
    requires Valid(s) && Calculable(s, ranges, vs) && IsRealizedSplit(s, ranges, vs, split)
    ensures SplitAccepted(s, split)
  {
    PositiveBalancesAreAccepted(s, ranges, vs, split);
  }

  /** In the ranges the parser returns, every index is attributed to the one range that holds it. */
  lemma {:induction false} ParsedAttribution(ps: seq<Participant>, ranges: seq<ValidatorRange>, index: U64)
    requires ValidParticipants(ps) && SortedDisjoint(ranges) && OwnersKnown(ps, ranges)
    ensures Attributed(OwnedRanges(ps, ranges), index) == Owner(OwnedRanges(ps, ranges), index)
  {
    OwnedRangesDisjoint(ps, ranges);
    SearchFindsOwner(OwnedRanges(ps, ranges), index);
  }

  /** A calculated split conserves balances and validators. */
  lemma {:induction false} SplitConserves(s: Scenario, ranges: seq<ValidatorRange>, vs: seq<Validator>,
                                          split: RealizedSplit)
    requires Valid(s) && Calculable(s, ranges, vs) && IsRealizedSplit(s, ranges, vs, split)
    ensures RecordedTotal(split.participants) == split.totalActiveBalance == Total(vs)
    ensures CountSum(OwnedRanges(s.participants, ranges), vs, IdsOf(s.participants)) == |vs|
    ensures split.groups[0].effectiveBalance + split.groups[1].effectiveBalance == Total(vs)
  {
    var owned := OwnedRanges(s.participants, ranges);
    WeightsAgree(s, ranges, vs, split);
    IdsDistinct(s.participants);
    Conservation(owned, vs, IdsOf(s.participants));
    var a, b := s.fault.groups[0].participants, s.fault.groups[1].participants;
    TwoGroups(s.fault.groups, ById(s.participants));
    GroupsOwnAll(s, owned, vs);
    Conservation(owned, vs, a + b);
    BalanceSumSplits(owned, vs, a, b);
    MembersAreParticipants(s, 0);
    MembersAreParticipants(s, 1);
    GroupBalanceFits(owned, vs, a);
    GroupBalanceFits(owned, vs, b);
    assert GroupMatches(owned, vs, s.fault.groups[0], split.groups[0])
           && GroupMatches(owned, vs, s.fault.groups[1], split.groups[1]);
  }

  lemma {:induction false} GroupsOwnAll(s: Scenario, owned: seq<OwnedRange>, vs: seq<Validator>)
    requires Valid(s) && AllOwned(owned, vs, IdsOf(s.participants))
    ensures AllOwned(owned, vs, Members(s.fault.groups))
  {
    ByIdIndexes(s.participants);
    EveryIdIndexed(s.participants, ById(s.participants));
    assert forall id :: id in Elements(Members(s.fault.groups)) <==> id in Members(s.fault.groups);
  }

  lemma {:induction false} EveryIdIndexed(ps: seq<Participant>, m: map<Name, Participant>)
    requires IndexedBy(ps, m)
    ensures forall id :: id in IdsOf(ps) ==> id in m.Keys
  {
  }

  lemma {:induction false} BalanceSumSplits(owned: seq<OwnedRange>, vs: seq<Validator>, a: seq<Name>, b: seq<Name>)
    ensures BalanceSum(owned, vs, a + b) == BalanceSum(owned, vs, a) + BalanceSum(owned, vs, b)
  {
    if b == [] {
      assert a + b == a;
    } else {
      assert (a + b)[..|a + b| - 1] == a + b[..|b| - 1];
      BalanceSumSplits(owned, vs, a, b[..|b| - 1]);
    }
  }

  // ---------- Zero tolerance ----------

  ghost predicate EvenShares(s: Scenario) {
    forall g :: g in s.fault.groups ==> g.share == 0.5
  }

  ghost predicate EvenSplit(split: RealizedSplit) {
    forall w :: w in split.groups ==> 2 * w.effectiveBalance == split.totalActiveBalance
  }

  lemma {:induction false} QuotientIsHalf(balance: real, total: real)
    requires total > 0.0
    ensures balance / total == 0.5 <==> 2.0 * balance == total
  {
  }

  lemma {:induction false} ShareIsHalf(balance: nat, total: nat, share: real)
    requires total > 0
    ensures share == 0.5 ==> (Abs(balance as real / total as real - share) <= 0.0 <==> 2 * balance == total)
    ensures share != 0.5 ==> !(Abs(balance as real / total as real - share) <= 0.0 && 2 * balance == total)
  {
    QuotientIsHalf(balance as real, total as real);
    assert (2 * balance) as real == 2.0 * balance as real;
  }

  /** With shares of exactly one half, a split is within the zero tolerance exactly when each group holds
      half of the balance. With any other accepted share the two cannot both hold. */
  lemma {:induction false} WithinToleranceIsHalf(s: Scenario, ranges: seq<ValidatorRange>, vs: seq<Validator>,
                                                 split: RealizedSplit)
    requires Valid(s) && Calculable(s, ranges, vs) && IsRealizedSplit(s, ranges, vs, split)
    ensures EvenShares(s) ==> (split.withinTolerance <==> EvenSplit(split))
    ensures !EvenShares(s) ==> !(split.withinTolerance && EvenSplit(split))
  {
    var groups, owned := s.fault.groups, OwnedRanges(s.participants, ranges);
    forall i | 0 <= i < |groups|
      ensures groups[i].share == 0.5 ==>
                (GroupWithin(owned, vs, groups[i], 0.0) <==>
                   2 * split.groups[i].effectiveBalance == split.totalActiveBalance)
      ensures groups[i].share != 0.5 ==>
                !(GroupWithin(owned, vs, groups[i], 0.0)
                  && 2 * split.groups[i].effectiveBalance == split.totalActiveBalance)
    {
      assert GroupMatches(owned, vs, groups[i], split.groups[i]);
      ShareIsHalf(GroupBalance(owned, vs, groups[i].participants), Total(vs), groups[i].share);
    }
    assert forall i :: 0 <= i < |groups| ==> groups[i] in groups && split.groups[i] in split.groups;
  }
}
