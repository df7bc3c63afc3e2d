/** The agreement of the targets' runtime specs, checked by the observer and again on stored metadata. */
module Compatibility {
  import opened Common
  import opened Text
  import opened Recorder
  import R = Results

  // ---------- Two specs ----------

  ghost predicate ForksAgree(a: map<Name, Name>, b: map<Name, Name>) {
    forall fork :: fork in a && fork in b ==> a[fork] == b[fork]
  }

  /** The same timing, and no fork scheduled at two epochs. */
  ghost predicate Compatible(a: Spec, b: Spec) {
    a.secondsPerSlot == b.secondsPerSlot && a.slotsPerEpoch == b.slotsPerEpoch && ForksAgree(a.forkEpochs, b.forkEpochs)
  }

  /** The forks are ranged over in any order. */
  method SpecCompatible(s: Spec, other: Spec) returns (ok: bool)
    ensures ok <==>
              && s.secondsPerSlot == other.secondsPerSlot && s.slotsPerEpoch == other.slotsPerEpoch
              && forall fork :: fork in s.forkEpochs && fork in other.forkEpochs ==>
                   s.forkEpochs[fork] == other.forkEpochs[fork]
  {
    if s.secondsPerSlot != other.secondsPerSlot || s.slotsPerEpoch != other.slotsPerEpoch {
      return false;
    }
    var rest := s.forkEpochs.Keys;
    while rest != {}
      invariant rest <= s.forkEpochs.Keys
      invariant forall fork :: fork in s.forkEpochs.Keys - rest && fork in other.forkEpochs ==>
                  s.forkEpochs[fork] == other.forkEpochs[fork]
    {
      var fork :| fork in rest;
      if fork in other.forkEpochs && other.forkEpochs[fork] != s.forkEpochs[fork] {
        return false;
      }
      rest := rest - {fork};
    }
    ok := true;
  }

  // ---------- The observer's check ----------

  /** Every target agrees with the reference one. */
  ghost predicate AgreeWith(specs: seq<Spec>, genesis: seq<Genesis>, reference: nat)
    requires |specs| == |genesis| && reference < |specs|
  {
    forall i :: 0 <= i < |specs| ==> Compatible(specs[i], specs[reference]) && genesis[i] == genesis[reference]
  }

  /** Every two targets agree. */
  ghost predicate AllAgree(specs: seq<Spec>, genesis: seq<Genesis>)
    requires |specs| == |genesis|
  {
    forall i, j :: 0 <= i < |specs| && 0 <= j < |specs| ==> Compatible(specs[i], specs[j]) && genesis[i] == genesis[j]
  }

  method Initialize(specs: seq<Spec>, genesis: seq<Genesis>) returns (r: Result<(Spec, Genesis)>)
    requires |specs| == |genesis| && |specs| > 0
    ensures r.Ok? <==> AgreeWith(specs, genesis, 0)
    ensures r.Ok? ==> r.value == (specs[0], genesis[0])
  {
    for n := 1 to |specs|
      invariant forall i :: 0 <= i < n ==> Compatible(specs[i], specs[0]) && genesis[i] == genesis[0]
    {
      var compatible := SpecCompatible(specs[n], specs[0]);
      if !compatible || genesis[n] != genesis[0] {
        return Err;
      }
    }
    r := Ok((specs[0], genesis[0]));
  }

  // ---------- What the check is worth ----------

  /** The two agree on the forks that the reference does not schedule. */
  ghost predicate AgreeBeyond(a: Spec, b: Spec, reference: Spec) {
    forall fork :: fork in a.forkEpochs && fork in b.forkEpochs && fork !in reference.forkEpochs ==>
      a.forkEpochs[fork] == b.forkEpochs[fork]
  }

  /** Two specs that agree with a reference agree with each other exactly when they agree on its missing forks. */
  lemma {:induction false} AgreeThrough(a: Spec, b: Spec, reference: Spec)
    requires Compatible(a, reference) && Compatible(b, reference)
    ensures Compatible(a, b) <==> AgreeBeyond(a, b, reference)
  {
  }

  ghost predicate OthersAgree(specs: seq<Spec>, reference: nat)
    requires reference < |specs|
  {
    forall i, j :: 0 <= i < |specs| && 0 <= j < |specs| ==> AgreeBeyond(specs[i], specs[j], specs[reference])
  }

  /** Accepted targets share timing and genesis; they agree pairwise exactly when they also agree on the
      forks that the reference does not schedule. */
  lemma {:induction false} AcceptedAgree(specs: seq<Spec>, genesis: seq<Genesis>, reference: nat)
    requires |specs| == |genesis| && reference < |specs| && AgreeWith(specs, genesis, reference)
    ensures forall i, j :: 0 <= i < |specs| && 0 <= j < |specs| ==>
              && specs[i].secondsPerSlot == specs[j].secondsPerSlot && specs[i].slotsPerEpoch == specs[j].slotsPerEpoch
              && genesis[i] == genesis[j]
    ensures AllAgree(specs, genesis) <==> OthersAgree(specs, reference)
  {
    forall i, j | 0 <= i < |specs| && 0 <= j < |specs|
      ensures Compatible(specs[i], specs[j]) <==> AgreeBeyond(specs[i], specs[j], specs[reference])
    {
      AgreeThrough(specs[i], specs[j], specs[reference]);
    }
  }

  /** The targets are accepted whichever of them is the reference exactly when all agree pairwise. */
  lemma {:induction false} ReferenceMatters(specs: seq<Spec>, genesis: seq<Genesis>)
    requires |specs| == |genesis|
    ensures (forall r: nat :: r < |specs| ==> AgreeWith(specs, genesis, r)) <==> AllAgree(specs, genesis)
  {
    if forall r: nat :: r < |specs| ==> AgreeWith(specs, genesis, r) {
      forall i, j: nat | 0 <= i < |specs| && j < |specs|
        ensures Compatible(specs[i], specs[j]) && genesis[i] == genesis[j]
      {
        assert AgreeWith(specs, genesis, j);
      }
    }
  }

  /** Compatibility is not transitive: the same three targets are accepted or refused depending on which
      one is the reference. */
  lemma {:induction false} ReferenceDecides(fork: Name, one: Name, two: Name, other: Name, g: Genesis)
    requires one != two && fork != other
    ensures var specs := [Spec(12, 32, map[other := one]), Spec(12, 32, map[fork := one]),
                          Spec(12, 32, map[fork := two])];
            AgreeWith(specs, [g, g, g], 0) && !AgreeWith(specs, [g, g, g], 1)
  {
    var specs := [Spec(12, 32, map[other := one]), Spec(12, 32, map[fork := one]), Spec(12, 32, map[fork := two])];
    assert fork in specs[1].forkEpochs && fork in specs[2].forkEpochs;
    assert !Compatible(specs[2], specs[1]);
  }

  // ---------- The check of stored metadata ----------

  /** The text is the decimal form of a uint64. */
  ghost predicate IsEpoch(text: string) {
    exists n: U64 :: FormatUint(n) == text
  }

  /** An epoch is one exactly when it parses and is formatted as it was. */
  lemma {:induction false} EpochRoundTrip(text: string)
    ensures IsEpoch(text) <==> ParseUint(text).Some? && FormatUint(ParseUint(text).value) == text
  {
    if n: U64 :| FormatUint(n) == text {
      FormatParses(n);
    }
  }

  ghost predicate CompleteSpec(s: Spec) {
    && s.secondsPerSlot != 0 && s.slotsPerEpoch != 0 && s.forkEpochs != map[]
    && forall fork :: fork in s.forkEpochs ==> fork != NO_NAME && IsEpoch(s.forkEpochs[fork].text)
  }

  predicate PrefixedLowerHex(text: string, digits: nat) {
    |text| >= 2 && text[..2] == "0x" && R.LowerHex(text[2..], digits)
  }

  predicate CompleteGenesis(g: Genesis) {
    g.time != 0 && PrefixedLowerHex(g.validatorsRoot, 64) && PrefixedLowerHex(g.forkVersion, 8)
  }

  /** Every target has complete metadata. */
  ghost predicate MetadataComplete(targets: seq<Name>, specs: map<Name, Spec>, genesis: map<Name, Genesis>) {
    forall i :: 0 <= i < |targets| ==>
      targets[i] in specs && targets[i] in genesis && CompleteSpec(specs[targets[i]])
      && CompleteGenesis(genesis[targets[i]])
  }

  ghost predicate MetadataAccepted(targets: seq<Name>, specs: map<Name, Spec>, genesis: map<Name, Genesis>) {
    && |specs| == |targets| && |genesis| == |targets| && MetadataComplete(targets, specs, genesis)
    && forall i :: 0 <= i < |targets| ==>
         Compatible(specs[targets[i]], specs[targets[0]]) && genesis[targets[i]] == genesis[targets[0]]
  }

  /** The forks are ranged over in any order. */
  method CheckComplete(s: Spec) returns (ok: bool)
    ensures ok <==> CompleteSpec(s)
  {
    if s.secondsPerSlot == 0 || s.slotsPerEpoch == 0 || s.forkEpochs == map[] {
      return false;
    }
    var rest := s.forkEpochs.Keys;
    while rest != {}
      invariant rest <= s.forkEpochs.Keys
      invariant forall fork :: fork in s.forkEpochs.Keys - rest ==> fork != NO_NAME && IsEpoch(s.forkEpochs[fork].text)
    {
      var fork :| fork in rest;
      var epoch := s.forkEpochs[fork].text;
      var parsed := ParseUint(epoch);
      EpochRoundTrip(epoch);
      if fork == NO_NAME || parsed.None? || FormatUint(parsed.value) != epoch {
        return false;
      }
      rest := rest - {fork};
    }
    ok := true;
  }

  /** The stored specs are compared in both directions with the one of the first participant. */
  method ValidateRuntimeMetadata(targets: seq<Name>, specs: map<Name, Spec>, genesis: map<Name, Genesis>)
    returns (r: Option<Spec>)
    requires |targets| > 0
    ensures r.Some? <==> MetadataAccepted(targets, specs, genesis)
    ensures r.Some? ==> targets[0] in specs && r.value == specs[targets[0]]
  {
    if |specs| != |targets| || |genesis| != |targets| {
      return None;
    }
    for n := 0 to |targets|
      invariant MetadataComplete(targets[..n], specs, genesis)
      invariant forall i :: 0 <= i < n ==>
                  Compatible(specs[targets[i]], specs[targets[0]]) && genesis[targets[i]] == genesis[targets[0]]
    {
      var t := targets[n];
      if t !in specs || t !in genesis {
        return None;
      }
      var complete := CheckComplete(specs[t]);
      if !complete || !CompleteGenesis(genesis[t]) {
        return None;
      }
      if n > 0 {
        var forward := SpecCompatible(specs[t], specs[targets[0]]);
        var backward := SpecCompatible(specs[targets[0]], specs[t]);
        if !forward || !backward || genesis[t] != genesis[targets[0]] {
          return None;
        }
      }
    }
    r := Some(specs[targets[0]]);
  }

  ghost predicate IsPrefixedHex(text: string, digits: nat) {
    && |text| == digits + 2 && text[0] == '0' && text[1] == 'x'
    && forall i :: 2 <= i < |text| ==> '0' <= text[i] <= '9' || 'a' <= text[i] <= 'f'
  }

  ghost predicate ForkFits(fork: Name, epoch: Name) {
    fork.text != "" && exists n: U64 :: FormatUint(n) == epoch.text
  }

  /** A target's spec and genesis are complete. */
  ghost predicate SpecFits(s: Spec, g: Genesis) {
    && s.secondsPerSlot > 0 && s.slotsPerEpoch > 0 && s.forkEpochs != map[]
    && (forall fork :: fork in s.forkEpochs ==> ForkFits(fork, s.forkEpochs[fork]))
    && g.time > 0 && IsPrefixedHex(g.validatorsRoot, 64) && IsPrefixedHex(g.forkVersion, 8)
  }

  /** They agree with those of the first target. */
  ghost predicate AgreesWithFirst(s: Spec, g: Genesis, first: Spec, firstGenesis: Genesis) {
    && s.secondsPerSlot == first.secondsPerSlot && s.slotsPerEpoch == first.slotsPerEpoch && g == firstGenesis
    && forall fork :: fork in s.forkEpochs && fork in first.forkEpochs ==> s.forkEpochs[fork] == first.forkEpochs[fork]
  }

  lemma {:induction false} PrefixedHexMeaning(text: string, digits: nat)
    ensures PrefixedLowerHex(text, digits) <==> IsPrefixedHex(text, digits)
  {
    if |text| >= 2 {
      assert text[..2] == [text[0], text[1]];
      assert forall i :: 2 <= i < |text| ==> text[i] == text[2..][i - 2];
      assert forall i :: 0 <= i < |text| - 2 ==> text[2..][i] == text[i + 2];
    }
  }

  lemma {:induction false} SpecMeaning(s: Spec, g: Genesis)
    ensures CompleteSpec(s) && CompleteGenesis(g) <==> SpecFits(s, g)
  {
    PrefixedHexMeaning(g.validatorsRoot, 64);
    PrefixedHexMeaning(g.forkVersion, 8);
    forall fork | fork in s.forkEpochs
      ensures fork != NO_NAME && IsEpoch(s.forkEpochs[fork].text) <==> ForkFits(fork, s.forkEpochs[fork])
    {
      assert fork == NO_NAME <==> fork.text == "";
    }
  }

  /** Stored metadata is accepted exactly when there is as much of it as there are targets, each target's is
      complete, and all agree with that of the first. */
  lemma {:induction false} MetadataMeaning(targets: seq<Name>, specs: map<Name, Spec>, genesis: map<Name, Genesis>)
    requires targets != []
    ensures MetadataAccepted(targets, specs, genesis) <==>
              && |specs| == |targets| && |genesis| == |targets|
              && (forall t :: t in targets ==> t in specs && t in genesis)
              && (forall t :: t in targets ==> SpecFits(specs[t], genesis[t]))
              && forall t :: t in targets ==>
                   AgreesWithFirst(specs[t], genesis[t], specs[targets[0]], genesis[targets[0]])
  {
    forall t | t in targets && t in specs && t in genesis
      ensures CompleteSpec(specs[t]) && CompleteGenesis(genesis[t]) <==> SpecFits(specs[t], genesis[t])
    {
      SpecMeaning(specs[t], genesis[t]);
    }
    assert forall i :: 0 <= i < |targets| ==> targets[i] in targets;
  }

  /** The observer compared all specs with that of its own first target; the stored ones are compared with
      that of the first participant. Complete metadata of an accepted run is accepted again exactly when the
      first participant agrees with all others on the forks that the observer's reference does not schedule. */
  lemma {:induction false} StoredSpecsAcceptedAgain(first: Name, targets: seq<Name>, specs: map<Name, Spec>,
                                                    genesis: map<Name, Genesis>)
    requires |targets| > 0 && |specs| == |targets| && |genesis| == |targets| && first in specs && first in genesis
    requires MetadataComplete(targets, specs, genesis)
    requires forall i :: 0 <= i < |targets| ==>
               Compatible(specs[targets[i]], specs[first]) && genesis[targets[i]] == genesis[first]
    ensures MetadataAccepted(targets, specs, genesis) <==>
              forall i :: 0 <= i < |targets| ==> AgreeBeyond(specs[targets[i]], specs[targets[0]], specs[first])
  {
    forall i | 0 <= i < |targets|
      ensures Compatible(specs[targets[i]], specs[targets[0]]) <==>
                AgreeBeyond(specs[targets[i]], specs[targets[0]], specs[first])
    {
      AgreeThrough(specs[targets[i]], specs[targets[0]], specs[first]);
    }
  }
}
