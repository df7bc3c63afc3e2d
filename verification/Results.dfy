/** What a run leaves behind: its summary, its identity, and what makes its window usable as evidence. */
module Results {
  import opened Common
  import opened Text
  import opened Scenario
  import opened Split
  import opened Measurement

  datatype Condition = ControlRun | FaultRun

  datatype DependencyMetadata = DependencyMetadata(
    revision: Name, importedPackages: map<Name, Name>, runtimeImages: map<Name, Name>)

  datatype Confounders = Confounders(resourcesEqual: bool, nodePlacementControlled: bool, dependencyClosurePinned: bool)

  datatype Window = Window(startedAt: nat, endedAt: nat, startSlot: U64, endSlot: U64)

  datatype TargetResult = TargetResult(
    target: Name, clClient: Name, group: Name, startEpoch: U64, endEpoch: U64, progress: U64,
    recovery: Option<U64>, divergenceExceeded: bool)

  datatype RunSummary = RunSummary(
    schemaVersion: string, runID: string, condition: Condition, repetition: U64, window: Window,
    primaryComplete: bool, recoveryComplete: bool, gaps: seq<DataGap>, targets: seq<TargetResult>,
    split: RealizedSplit, dependencies: DependencyMetadata, confounders: Confounders)

  const RUN_SCHEMA := "ethquake.run/v1alpha1"

  // ---------- Run identity ----------

  function ParseRunID(id: string): Option<(Condition, U64)> {
    match Cut(id)
    case None => None
    case Some(parts) =>
      if (parts.0 != "control" && parts.0 != "fault") || |parts.1| != 1 || parts.1[0] < '1' || parts.1[0] > '3' then
        None
      else Some((if parts.0 == "control" then ControlRun else FaultRun, (parts.1[0] - '0') as int))
  }

  function RunIDOf(condition: Condition, repetition: U64): string
    requires 1 <= repetition <= 3
  {
    (if condition.ControlRun? then "control" else "fault") + "-" + ['0' + repetition as char]
  }

  /** A run id parses exactly when it names a condition and a repetition, and it then names only that pair. */
  lemma {:induction false} RunIDRoundTrip(id: string, condition: Condition, repetition: U64)
    ensures ParseRunID(id) == Some((condition, repetition)) <==>
              1 <= repetition <= 3 && id == RunIDOf(condition, repetition)
  {
    if 1 <= repetition <= 3 && id == RunIDOf(condition, repetition) {
      CutFirst(if condition.ControlRun? then "control" else "fault", ['0' + repetition as char]);
    }
  }

  function Position(condition: Condition, repetition: U64): (k: nat)
    requires 1 <= repetition <= 3
  {
    if condition.ControlRun? then repetition - 1 else repetition + 2
  }

  /** The six ids of the methodology, in order. */
  lemma {:induction false} RunIdsNamed(condition: Condition, repetition: U64)
    requires 1 <= repetition <= 3
    ensures RUN_IDS[Position(condition, repetition)] == RunIDOf(condition, repetition)
  {
  }

  lemma {:induction false} SameElements<T>(s: seq<T>, t: seq<T>, x: T) returns (k: nat)
    requires Elements(s) == Elements(t) && x in s
    ensures k < |t| && t[k] == x
  {
    assert x in Elements(s);
    k :| k < |t| && t[k] == x;
  }

  lemma {:induction false} RunIdParses(k: nat)
    requires k < 6
    ensures ParseRunID(RUN_IDS[k]).Some?
  {
    var condition := if k < 3 then ControlRun else FaultRun;
    var repetition := if k < 3 then k + 1 else k - 2;
    RunIdsNamed(condition, repetition);
    RunIDRoundTrip(RunIDOf(condition, repetition), condition, repetition);
  }

  /** A committed run id always names a condition and a repetition. */
  lemma {:induction false} CommittedIsNamed(m: Methodology, id: string)
    requires ValidMethodology(m) && id in m.runOrder
    ensures ParseRunID(id).Some?
  {
    var k := SameElements(m.runOrder, RUN_IDS, id);
    RunIdParses(k);
  }

  /** The six ids, and what each of them names. */
  lemma {:induction false} IdMeaning(id: string)
    ensures ParseRunID(id) == Some((ControlRun, 1)) <==> id == "control-1"
    ensures ParseRunID(id) == Some((ControlRun, 2)) <==> id == "control-2"
    ensures ParseRunID(id) == Some((ControlRun, 3)) <==> id == "control-3"
    ensures ParseRunID(id) == Some((FaultRun, 1)) <==> id == "fault-1"
    ensures ParseRunID(id) == Some((FaultRun, 2)) <==> id == "fault-2"
    ensures ParseRunID(id) == Some((FaultRun, 3)) <==> id == "fault-3"
  {
    forall condition: Condition, repetition: U64 | 1 <= repetition <= 3
      ensures ParseRunID(id) == Some((condition, repetition)) <==> id == RunIDOf(condition, repetition)
    {
      RunIDRoundTrip(id, condition, repetition);
    }
    assert RunIDOf(ControlRun, 1) == "control-1" && RunIDOf(ControlRun, 2) == "control-2";
    assert RunIDOf(ControlRun, 3) == "control-3" && RunIDOf(FaultRun, 1) == "fault-1";
    assert RunIDOf(FaultRun, 2) == "fault-2" && RunIDOf(FaultRun, 3) == "fault-3";
  }

  // ---------- Dependency metadata ----------

  function Lookup(m: map<Name, Name>, key: Name): Name {
    if key in m then m[key] else NO_NAME
  }

  /** Exactly `length` lower-case hexadecimal digits. */
  predicate LowerHex(text: string, length: nat) {
    |text| == length && forall i :: 0 <= i < |text| ==> '0' <= text[i] <= '9' || 'a' <= text[i] <= 'f'
  }

  /** Where a text first occurs in another. */
  function FindText(s: string, text: string): (at: Option<nat>)
    ensures at.Some? ==> at.value + |text| <= |s| && s[at.value..at.value + |text|] == text
  {
    if |s| < |text| then None
    else if s[..|text|] == text then Some(0)
    else if s == "" then None
    else match FindText(s[1..], text)
      case None => None
      case Some(at) => Some(at + 1)
  }

  const DIGEST := "@sha256:"

  /** A name, the digest mark exactly once, and a full digest. */
  predicate DigestPinned(image: string) {
    var at := FindText(image, DIGEST);
    && at.Some? && at.value > 0
    && var digest := image[at.value + |DIGEST|..];
    FindText(digest, DIGEST).None? && LowerHex(digest, 64)
  }

  ghost predicate OccursAt(s: string, text: string, i: int) {
    0 <= i && i + |text| <= |s| && s[i..i + |text|] == text
  }

  /** The search finds the first occurrence. */
  lemma {:induction false} FindTextMeaning(s: string, text: string)
    requires text != ""
    ensures FindText(s, text).Some? ==> OccursAt(s, text, FindText(s, text).value)
    ensures FindText(s, text).Some? ==> forall i :: i < FindText(s, text).value ==> !OccursAt(s, text, i)
    ensures FindText(s, text).None? ==> forall i :: !OccursAt(s, text, i)
  {
    if s != "" {
      FindTextMeaning(s[1..], text);
      assert OccursAt(s, text, 0) <==> |s| >= |text| && s[..|text|] == text;
      forall i | i > 0 ensures OccursAt(s, text, i) <==> OccursAt(s[1..], text, i - 1) {
        if i + |text| <= |s| {
          assert s[1..][i - 1..i - 1 + |text|] == s[i..i + |text|];
        }
      }
      forall i | FindText(s, text).None? ensures !OccursAt(s, text, i) {
        assert !OccursAt(s[1..], text, i - 1);
      }
    }
  }

  /** A name in which the digest mark does not occur, the mark, and 64 lower-case hexadecimal digits. */
  lemma {:induction false} PinMeaning(image: string)
    ensures DigestPinned(image) <==>
              exists name: string, digest: string ::
                && name != "" && image == name + "@sha256:" + digest && LowerHex(digest, 64)
                && forall i :: !OccursAt(name, "@sha256:", i)
  {
    FindTextMeaning(image, DIGEST);
    if DigestPinned(image) {
      var at := FindText(image, DIGEST).value;
      PinnedParts(image, at);
    }
    if name, digest :|
      && name != "" && image == name + "@sha256:" + digest && LowerHex(digest, 64)
      && forall i :: !OccursAt(name, "@sha256:", i)
    {
      PartsPinned(image, name, digest);
    }
  }

  lemma {:induction false} PinnedParts(image: string, at: nat)
    requires FindText(image, DIGEST) == Some(at) && at > 0 && LowerHex(image[at + |DIGEST|..], 64)
    ensures var name, digest := image[..at], image[at + |DIGEST|..];
            && name != "" && image == name + "@sha256:" + digest && LowerHex(digest, 64)
            && forall i :: !OccursAt(name, "@sha256:", i)
  {
    FindTextMeaning(image, DIGEST);
    var name := image[..at];
    forall i ensures !OccursAt(name, DIGEST, i) {
      OccursInPrefix(image, at, DIGEST, i);
    }
    assert image == name + image[at..at + |DIGEST|] + image[at + |DIGEST|..];
  }

  /** What occurs in the beginning of a text occurs in the text. */
  lemma {:induction false} OccursInPrefix(s: string, n: nat, text: string, i: int)
    requires n <= |s|
    ensures OccursAt(s[..n], text, i) <==> i + |text| <= n && OccursAt(s, text, i)
  {
    if 0 <= i && i + |text| <= n {
      assert forall k :: i <= k < i + |text| ==> s[..n][k] == s[k];
      assert s[..n][i..i + |text|] == s[i..i + |text|];
    }
  }

  lemma {:induction false} PartsPinned(image: string, name: string, digest: string)
    requires name != "" && image == name + DIGEST + digest && LowerHex(digest, 64)
    requires forall i :: !OccursAt(name, DIGEST, i)
    ensures DigestPinned(image)
  {
    FindTextMeaning(image, DIGEST);
    FindTextMeaning(digest, DIGEST);
    assert OccursAt(image, DIGEST, |name|);
    forall i | 0 <= i < |name| ensures !OccursAt(image, DIGEST, i) {
      NotInName(name, digest, i);
    }
    assert image[|name| + |DIGEST|..] == digest;
    forall i ensures !OccursAt(digest, DIGEST, i) {
      if 0 <= i && i + |DIGEST| <= |digest| {
        assert digest[i..i + |DIGEST|][0] == digest[i] != '@';
      }
    }
  }

  /** The mark does not begin inside the name either: it has its only at-sign in front. */
  lemma {:induction false} NotInName(name: string, digest: string, i: nat)
    requires i < |name| && !OccursAt(name, DIGEST, i)
    ensures !OccursAt(name + DIGEST + digest, DIGEST, i)
  {
    var image := name + DIGEST + digest;
    if i + |DIGEST| <= |name| {
      assert image[i..i + |DIGEST|] == name[i..i + |DIGEST|];
    } else {
      var k := |name| - i;
      assert image[i..i + |DIGEST|][k] == image[|name|] == '@' && DIGEST[k] != '@';
    }
  }

  datatype PinKind = Commit | Digest

  predicate IsPinned(value: Name, kind: PinKind) {
    if kind.Commit? then LowerHex(value.text, 40) else DigestPinned(value.text)
  }

  /** There are entries, and every one has a name and is pinned. */
  ghost predicate AllPinned(m: map<Name, Name>, kind: PinKind) {
    m != map[] && forall k :: k in m ==> k != NO_NAME && IsPinned(m[k], kind)
  }

  ghost predicate ValidDependencies(d: DependencyMetadata) {
    LowerHex(d.revision.text, 40) && AllPinned(d.importedPackages, Commit) && AllPinned(d.runtimeImages, Digest)
  }

  method ValidateDependencies(d: DependencyMetadata) returns (ok: bool)
    ensures ok <==> ValidDependencies(d)
  {
    var revisionOk := IsLowerHex(d.revision.text, 40);
    if !revisionOk || d.importedPackages == map[] || d.runtimeImages == map[] {
      return false;
    }
    ok := CheckPinned(d.importedPackages, Commit);
    if ok {
      ok := CheckPinned(d.runtimeImages, Digest);
    }
  }

  method IsLowerHex(value: string, length: nat) returns (ok: bool)
    ensures ok <==> LowerHex(value, length)
  {
    if |value| != length {
      return false;
    }
    for n := 0 to |value|
      invariant forall i :: 0 <= i < n ==> '0' <= value[i] <= '9' || 'a' <= value[i] <= 'f'
    {
      if (value[n] < '0' || value[n] > '9') && (value[n] < 'a' || value[n] > 'f') {
        return false;
      }
    }
    ok := true;
  }

  /** The map is ranged over in any order. */
  method CheckPinned(m: map<Name, Name>, kind: PinKind) returns (ok: bool)
    requires m != map[]
    ensures ok <==> AllPinned(m, kind)
  {
    var rest := m.Keys;
    while rest != {}
      invariant rest <= m.Keys
      invariant forall k :: k in m.Keys - rest ==> k != NO_NAME && IsPinned(m[k], kind)
    {
      var k :| k in rest;
      if k == NO_NAME || !IsPinned(m[k], kind) {
        return false;
      }
      rest := rest - {k};
    }
    ok := true;
  }

  lemma {:induction false} PinnedIsPresent(m: map<Name, Name>, kind: PinKind)
    requires AllPinned(m, kind)
    ensures forall k :: k in m ==> m[k] != NO_NAME
  {
    forall k | k in m ensures m[k] != NO_NAME {
      assert IsPinned(m[k], kind);
    }
  }

  /** What comparing two maps key by key of the left one decides. */
  ghost predicate MapsAgree(left: map<Name, Name>, right: map<Name, Name>) {
    |left| == |right| && forall k :: k in left ==> Lookup(right, k) == left[k]
  }

  ghost predicate Agree(left: DependencyMetadata, right: DependencyMetadata) {
    && left.revision == right.revision
    && MapsAgree(left.importedPackages, right.importedPackages) && MapsAgree(left.runtimeImages, right.runtimeImages)
  }

  method DependenciesEqual(left: DependencyMetadata, right: DependencyMetadata) returns (equal: bool)
    ensures equal <==> Agree(left, right)
  {
    if left.revision != right.revision || |left.importedPackages| != |right.importedPackages|
       || |left.runtimeImages| != |right.runtimeImages| {
      return false;
    }
    equal := KeysAgree(left.importedPackages, right.importedPackages);
    if equal {
      equal := KeysAgree(left.runtimeImages, right.runtimeImages);
    }
  }

  method KeysAgree(left: map<Name, Name>, right: map<Name, Name>) returns (equal: bool)
    ensures equal <==> forall k :: k in left ==> Lookup(right, k) == left[k]
  {
    var rest := left.Keys;
    while rest != {}
      invariant rest <= left.Keys
      invariant forall k :: k in left.Keys - rest ==> Lookup(right, k) == left[k]
    {
      var k :| k in rest;
      if Lookup(right, k) != left[k] {
        return false;
      }
      rest := rest - {k};
    }
    equal := true;
  }

  lemma {:induction false} MapsAgreeIsEqual(left: map<Name, Name>, right: map<Name, Name>)
    requires forall k :: k in left ==> left[k] != NO_NAME
    ensures MapsAgree(left, right) <==> left == right
  {
    if MapsAgree(left, right) {
      assert left.Keys <= right.Keys && |left.Keys| == |left| && |right.Keys| == |right|;
      SameSizeSubset(left.Keys, right.Keys);
    }
  }

  /** On validated metadata the comparison is equality. */
  lemma {:induction false} AgreeIsEqual(left: DependencyMetadata, right: DependencyMetadata)
    requires ValidDependencies(left)
    ensures Agree(left, right) <==> left == right
  {
    PinnedIsPresent(left.importedPackages, Commit);
    PinnedIsPresent(left.runtimeImages, Digest);
    MapsAgreeIsEqual(left.importedPackages, right.importedPackages);
    MapsAgreeIsEqual(left.runtimeImages, right.runtimeImages);
  }

  /** The comparison of a map with every other is equality exactly when it has no empty value. */
  lemma {:induction false} MapsAgreeExactly(left: map<Name, Name>)
    ensures (forall right :: MapsAgree(left, right) <==> left == right) <==>
              forall k :: k in left ==> left[k] != NO_NAME
  {
    if forall k :: k in left ==> left[k] != NO_NAME {
      forall right ensures MapsAgree(left, right) <==> left == right {
        MapsAgreeIsEqual(left, right);
      }
    } else {
      var k :| k in left && left[k] == NO_NAME;
      EmptyValueMisleads(left, k);
    }
  }

  /** Renaming the key of an empty value goes unnoticed. */
  lemma {:induction false} EmptyValueMisleads(left: map<Name, Name>, k: Name)
    requires k in left && left[k] == NO_NAME
    ensures exists right :: MapsAgree(left, right) && left != right
  {
    var other := FreshName(left.Keys);
    var right := (left - {k})[other := NO_NAME];
    assert right.Keys == left.Keys - {k} + {other};
    assert |left.Keys| == |left| && |right.Keys| == |right|;
    assert MapsAgree(left, right) && k !in right;
  }

  lemma {:induction false} FreshName(names: set<Name>) returns (unused: Name)
    ensures unused !in names
  {
    var n := LongestName(names);
    unused := Name(seq(n + 1, _ => 'x'));
  }

  lemma {:induction false} LongestName(names: set<Name>) returns (n: nat)
    ensures forall name :: name in names ==> |name.text| <= n
    decreases |names|
  {
    if names == {} {
      n := 0;
    } else {
      var name :| name in names;
      n := LongestName(names - {name});
      n := if |name.text| > n then |name.text| else n;
    }
  }

  /** Without validation it is not even symmetric: an empty value agrees with a missing key. */
  lemma {:induction false} AgreeNeedsValidation(r: Name, k: Name, other: Name, v: Name)
    requires k != other && v != NO_NAME
    ensures var left := DependencyMetadata(r, map[k := NO_NAME], map[]);
            var right := DependencyMetadata(r, map[other := v], map[]);
            Agree(left, right) && !Agree(right, left)
  {
  }

  // ---------- The window as evidence ----------

  /** The participants by beacon target; a later entry replaces an earlier one. */
  function ByTarget(ps: seq<Participant>): map<Name, Participant> {
    if ps == [] then map[] else ByTarget(ps[..|ps| - 1])[ps[|ps| - 1].beaconTarget := ps[|ps| - 1]]
  }

  lemma {:induction false} ByTargetIndexes(ps: seq<Participant>)
    requires forall i, j :: 0 <= i < j < |ps| ==> ps[i].beaconTarget != ps[j].beaconTarget
    ensures forall i :: 0 <= i < |ps| ==>
              ps[i].beaconTarget in ByTarget(ps) && ByTarget(ps)[ps[i].beaconTarget] == ps[i]
    ensures forall t :: t in ByTarget(ps) ==> ByTarget(ps)[t] in ps && ByTarget(ps)[t].beaconTarget == t
    ensures |ByTarget(ps)| == |ps|
  {
    if ps != [] {
      var init, p := ps[..|ps| - 1], ps[|ps| - 1];
      assert ps == init + [p];
      ByTargetIndexes(init);
      assert p.beaconTarget !in ByTarget(init);
    }
  }

  function AddMembers(m: map<Name, Name>, ids: seq<Name>, group: Name): map<Name, Name> {
    if ids == [] then m else AddMembers(m, ids[..|ids| - 1], group)[ids[|ids| - 1] := group]
  }

  /** The group of every participant; a later entry replaces an earlier one. */
  function GroupOf(groups: seq<FaultGroup>): map<Name, Name> {
    if groups == [] then map[]
    else AddMembers(GroupOf(groups[..|groups| - 1]), groups[|groups| - 1].participants, groups[|groups| - 1].name)
  }

  lemma {:induction false} AddMembersAdds(m: map<Name, Name>, ids: seq<Name>, group: Name)
    ensures AddMembers(m, ids, group).Keys == m.Keys + Elements(ids)
    ensures forall id :: id in AddMembers(m, ids, group) ==>
              AddMembers(m, ids, group)[id] == if id in ids then group else m[id]
  {
    if ids == [] {
    } else {
      AddMembersAdds(m, ids[..|ids| - 1], group);
    }
  }

  method GroupsByParticipant(groups: seq<FaultGroup>) returns (m: map<Name, Name>)
    ensures m == GroupOf(groups)
  {
    m := map[];
    for n := 0 to |groups|
      invariant m == GroupOf(groups[..n])
    {
      assert groups[..n + 1][..n] == groups[..n];
      var before := m;
      var ids := groups[n].participants;
      for k := 0 to |ids|
        invariant m == AddMembers(before, ids[..k], groups[n].name)
      {
        assert ids[..k + 1][..k] == ids[..k];
        m := m[ids[k] := groups[n].name];
      }
      assert ids[..|ids|] == ids;
    }
    assert groups[..|groups|] == groups;
  }

  /** When no participant is in two groups, the map holds each member's own group. */
  lemma {:induction false} GroupOfMembers(groups: seq<FaultGroup>)
    requires Distinct(Members(groups))
    ensures GroupOf(groups).Keys == Elements(Members(groups))
    ensures forall g, id :: g in groups && id in g.participants ==>
              id in GroupOf(groups) && GroupOf(groups)[id] == g.name
  {
    if groups != [] {
      var init, last := groups[..|groups| - 1], groups[|groups| - 1];
      DistinctPrefix(Members(init), last.participants);
      GroupOfMembers(init);
      AddMembersAdds(GroupOf(init), last.participants, last.name);
      forall g, id | g in groups && id in g.participants
        ensures id in GroupOf(groups) && GroupOf(groups)[id] == g.name
      {
        if g != last || id !in last.participants {
          assert g in init;
          assert id in Elements(Members(init));
          MembersApart(Members(init), last.participants, id);
        }
      }
    }
  }

  lemma {:induction false} MembersApart(a: seq<Name>, b: seq<Name>, id: Name)
    requires Distinct(a + b) && id in a
    ensures id !in b
  {
    var i :| 0 <= i < |a| && a[i] == id;
    forall j | 0 <= j < |b| ensures b[j] != id {
      assert (a + b)[i] == id && (a + b)[|a| + j] == b[j];
    }
  }

  /** A result of a known target, with that participant's client and group, and exact progress. */
  predicate TargetValid(t: TargetResult, byTarget: map<Name, Participant>, groupOf: map<Name, Name>) {
    && t.target in byTarget
    && t.clClient == byTarget[t.target].clClient && t.group == Lookup(groupOf, byTarget[t.target].id)
    && t.startEpoch <= t.endEpoch && t.progress == t.endEpoch - t.startEpoch
  }

  ghost predicate DistinctTargets(ts: seq<TargetResult>) {
    forall i, j :: 0 <= i < j < |ts| ==> ts[i].target != ts[j].target
  }

  /** A run whose primary window can be used as evidence. */
  ghost predicate WindowValid(run: RunSummary, byTarget: map<Name, Participant>, groupOf: map<Name, Name>) {
    && run.primaryComplete && |run.targets| == 4 && run.split.withinTolerance
    && run.confounders == Confounders(true, true, true)
    && (forall i :: 0 <= i < |run.targets| ==> TargetValid(run.targets[i], byTarget, groupOf))
    && DistinctTargets(run.targets)
  }
}
