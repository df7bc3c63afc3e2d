/** The exact same-slot head comparison, and what it would say with an unlimited history. */
module HeadComparison {
  import opened Common

  type Roots = map<string, string>

  datatype HeadComparison = HeadComparison(timestamp: nat, slot: U64, roots: Roots, agreement: bool)

  datatype SlotState = SlotState(roots: Roots, lastSignature: string)

  type Slots = map<U64, SlotState>

  datatype Observation = Observation(timestamp: nat, target: string, slot: U64, root: string)

  // ---------- Signature and agreement ----------

  function Line(target: string, root: string): string {
    target + "=" + root + "\n"
  }

  function Signature(targets: seq<string>, roots: Roots): string
    requires forall t :: t in targets ==> t in roots
  {
    if targets == [] then "" else Line(targets[0], roots[targets[0]]) + Signature(targets[1..], roots)
  }

  lemma {:induction false} SignatureAppend(targets: seq<string>, t: string, roots: Roots)
    requires t in roots && forall u :: u in targets ==> u in roots
    ensures Signature(targets + [t], roots) == Signature(targets, roots) + Line(t, roots[t])
  {
    if targets == [] {
      assert [t][1..] == [] && Signature([], roots) == "";
    } else {
      var all := targets + [t];
      assert all[1..] == targets[1..] + [t];
      SignatureAppend(targets[1..], t, roots);
      var head := Line(targets[0], roots[targets[0]]);
      var tail := Signature(targets[1..], roots);
      assert head + (tail + Line(t, roots[t])) == (head + tail) + Line(t, roots[t]);
    }
  }

  predicate OneLine(root: string) {
    root != "" && '\n' !in root
  }

  lemma {:induction false} LineInjective(a: string, b: string, x: string, y: string)
    requires '\n' !in a && '\n' !in b && a + "\n" + x == b + "\n" + y
    ensures a == b && x == y
  {
    var l, r := a + "\n" + x, b + "\n" + y;
    assert l[|a|] == '\n' && r[|b|] == '\n';
    assert forall i :: 0 <= i < |a| ==> l[i] == a[i];
    assert forall i :: 0 <= i < |b| ==> r[i] == b[i];
    assert a == l[..|a|] && b == r[..|b|];
    assert x == l[|a| + 1..] && y == r[|b| + 1..];
  }

  /** For one list of targets, newline-free roots can be read back from the signature. */
  lemma {:induction false} SignatureInjective(targets: seq<string>, p: Roots, q: Roots)
    requires forall t :: t in targets ==> t in p && t in q && '\n' !in p[t] && '\n' !in q[t]
    requires Signature(targets, p) == Signature(targets, q)
    ensures forall t :: t in targets ==> p[t] == q[t]
  {
    if targets != [] {
      var t, rest := targets[0], targets[1..];
      var x, y := Signature(rest, p), Signature(rest, q);
      assert Signature(targets, p) == (t + "=") + (p[t] + "\n" + x);
      assert Signature(targets, q) == (t + "=") + (q[t] + "\n" + y);
      assert p[t] + "\n" + x == Signature(targets, p)[|t| + 1..] == q[t] + "\n" + y;
      LineInjective(p[t], q[t], x, y);
      SignatureInjective(rest, p, q);
    }
  }

  lemma {:induction false} SignatureNotEmpty(targets: seq<string>, roots: Roots)
    requires targets != [] && forall t :: t in targets ==> t in roots
    ensures Signature(targets, roots) != ""
  {
  }

  datatype Agreed = Agreed(firstRoot: string, agreement: bool)

  /** The comparison the loop makes, one target after another. */
  function AgreementOf(targets: seq<string>, roots: Roots): Agreed
    requires forall t :: t in targets ==> t in roots
  {
    if targets == [] then Agreed("", true) else
    var before := AgreementOf(targets[..|targets| - 1], roots);
    var root := roots[targets[|targets| - 1]];
    if before.firstRoot == "" then Agreed(root, before.agreement)
    else Agreed(before.firstRoot, before.agreement && root == before.firstRoot)
  }

  lemma {:induction false} AgreementAppend(targets: seq<string>, t: string, roots: Roots)
    requires t in roots && forall u :: u in targets ==> u in roots
    ensures AgreementOf(targets + [t], roots) ==
              var before := AgreementOf(targets, roots);
              if before.firstRoot == "" then Agreed(roots[t], before.agreement)
              else Agreed(before.firstRoot, before.agreement && roots[t] == before.firstRoot)
  {
  }

  /** With nonempty roots, agreement means that all targets report one root. */
  lemma {:induction false} AgreementMeaning(targets: seq<string>, roots: Roots)
    requires forall t :: t in targets ==> t in roots && roots[t] != ""
    ensures AgreementOf(targets, roots).agreement <==>
              (forall s, t :: s in targets && t in targets ==> roots[s] == roots[t])
    ensures targets != [] ==> AgreementOf(targets, roots).firstRoot == roots[targets[0]]
  {
    if targets != [] {
      var init, last := targets[..|targets| - 1], targets[|targets| - 1];
      assert targets == init + [last];
      AgreementMeaning(init, roots);
    }
  }

  // ---------- Retained slots ----------

  /** How many of the slots are greater. */
  ghost function Rank(slots: set<U64>, slot: U64): nat {
    |Greater(slots, slot)|
  }

  ghost function Greater(slots: set<U64>, slot: U64): set<U64> {
    set s | s in slots && s > slot
  }

  /** The `limit` greatest slots. */
  ghost function Greatest(limit: nat, slots: set<U64>): set<U64> {
    set s | s in slots && Rank(slots, s) < limit
  }

  lemma {:induction false} SubsetSize<T>(a: set<T>, b: set<T>)
    requires a <= b
    ensures |a| <= |b|
  {
    assert b == a + (b - a);
  }

  lemma {:induction false} RankBelowSize(slots: set<U64>, slot: U64)
    requires slot in slots
    ensures Rank(slots, slot) < |slots|
  {
    SubsetSize(Greater(slots, slot), slots - {slot});
  }

  lemma {:induction false} GreatestOfFew(limit: nat, slots: set<U64>)
    requires |slots| <= limit
    ensures Greatest(limit, slots) == slots
  {
    forall s | s in slots ensures Rank(slots, s) < limit {
      RankBelowSize(slots, s);
    }
  }

  lemma {:induction false} HasMaximum(slots: set<U64>) returns (top: U64)
    requires slots != {}
    ensures top in slots && forall s :: s in slots ==> s <= top
    decreases |slots|
  {
    var x :| x in slots;
    var greater := Greater(slots, x);
    if greater == {} {
      top := x;
      forall s | s in slots ensures s <= top {
        assert s !in greater;
      }
    } else {
      SubsetSize(greater, slots - {x});
      top := HasMaximum(greater);
      forall s | s in slots ensures s <= top {
        assert s > x ==> s in greater;
      }
    }
  }

  /** A slot below a forgotten slot is outranked by retained slots alone. */
  lemma {:induction false} BelowForgotten(limit: nat, slots: set<U64>, x: U64, lost: U64)
    requires lost in slots && lost > x && lost !in Greatest(limit, slots)
    ensures Rank(Greatest(limit, slots), x) >= limit
  {
    var kept := Greatest(limit, slots);
    assert lost in Greater(slots, x) - kept;
    var y := HasMaximum(Greater(slots, x) - kept);
    forall s | s in Greater(slots, y) ensures s in Greater(kept, x) {
      assert s in Greater(slots, x) && s !in Greater(slots, x) - kept;
    }
    SubsetSize(Greater(slots, y), Greater(kept, x));
  }

  /** Forgetting the small slots first does not change which slots are the greatest after one more. */
  lemma {:induction false} GreatestStable(limit: nat, slots: set<U64>, slot: U64)
    ensures Greatest(limit, Greatest(limit, slots) + {slot}) == Greatest(limit, slots + {slot})
  {
    var kept := Greatest(limit, slots);
    forall x ensures x in Greatest(limit, kept + {slot}) <==> x in Greatest(limit, slots + {slot}) {
      SubsetSize(Greater(slots, x), Greater(slots + {slot}, x));
      SubsetSize(Greater(kept, x), Greater(kept + {slot}, x));
      SubsetSize(Greater(kept + {slot}, x), Greater(slots + {slot}, x));
      if lost :| lost in Greater(slots, x) - kept {
        BelowForgotten(limit, slots, x, lost);
      } else {
        forall s | s in Greater(slots + {slot}, x) ensures s in Greater(kept + {slot}, x) {
          assert s != slot ==> s in Greater(slots, x) && s !in Greater(slots, x) - kept;
        }
        SubsetSize(Greater(slots + {slot}, x), Greater(kept + {slot}, x));
      }
    }
  }

  ghost function Retain(limit: nat, slots: Slots): Slots {
    map s | s in Greatest(limit, slots.Keys) :: slots[s]
  }

  // ---------- One observation ----------

  datatype Setup = Setup(targets: seq<string>, historyLimit: nat)

  ghost predicate ValidSetup(c: Setup) {
    |c.targets| >= 2 && c.historyLimit >= 2 && Distinct(c.targets)
  }

  datatype Stepped = Stepped(slots: Slots, comparison: Option<HeadComparison>)

  function Entry(slots: Slots, slot: U64): SlotState {
    if slot in slots then slots[slot] else SlotState(map[], "")
  }

  function Project(targets: seq<string>, roots: Roots): Roots
    requires forall t :: t in targets ==> t in roots
  {
    map t | t in targets :: roots[t]
  }

  datatype Updated = Updated(state: SlotState, comparison: Option<HeadComparison>, trims: bool)

  /** What an observation does to the state of its own slot. */
  function Update(c: Setup, before: SlotState, o: Observation): Updated {
    var state := before.(roots := before.roots[o.target := o.root]);
    if |state.roots| != |c.targets| then
      Updated(state, None, true)
    else if exists t :: t in c.targets && t !in state.roots then
      Updated(state, None, false)
    else
      var signature := Signature(c.targets, state.roots);
      if signature == state.lastSignature then
        Updated(state, None, false)
      else
        Updated(state.(lastSignature := signature),
                Some(HeadComparison(o.timestamp, o.slot, Project(c.targets, state.roots),
                                    AgreementOf(c.targets, state.roots).agreement)), true)
  }

  ghost function Step(c: Setup, slots: Slots, o: Observation): Stepped {
    var updated := Update(c, Entry(slots, o.slot), o);
    var written := slots[o.slot := updated.state];
    Stepped(if updated.trims then Retain(c.historyLimit, written) else written, updated.comparison)
  }

  // ---------- The comparator ----------

  predicate SlotLe(x: U64, y: U64) { x <= y }

  ghost predicate Ascending(r: seq<U64>) {
    forall i, j :: 0 <= i < j < |r| ==> r[i] < r[j]
  }

  lemma {:induction false} SortedIsAscending(s: seq<U64>, r: seq<U64>)
    requires Distinct(s) && Sorted(SlotLe, r) && multiset(r) == multiset(s)
    ensures Ascending(r) && Elements(r) == Elements(s)
  {
    PermutationElements(s, r);
    assert Elements(r) == Elements(s);
  }

  lemma {:induction false} RankInSorted(r: seq<U64>, i: nat)
    requires Ascending(r) && i < |r|
    ensures Rank(Elements(r), r[i]) == |r| - 1 - i
  {
    var above := r[i + 1..];
    assert Distinct(above);
    DistinctSize(above);
    assert Greater(Elements(r), r[i]) == Elements(above) by {
      forall s | s in Greater(Elements(r), r[i]) ensures s in above {
        var j :| 0 <= j < |r| && r[j] == s;
        assert s == above[j - i - 1];
      }
    }
  }

  /** Dropping the first entries of the ordered slots leaves exactly the greatest ones. */
  lemma {:induction false} DropKeepsGreatest(limit: nat, r: seq<U64>)
    requires Ascending(r) && limit <= |r|
    ensures Elements(r) - Elements(r[..|r| - limit]) == Greatest(limit, Elements(r))
  {
    var excess := |r| - limit;
    forall s | s in Elements(r) ensures s in Elements(r[..excess]) <==> s !in Greatest(limit, Elements(r)) {
      var i :| 0 <= i < |r| && r[i] == s;
      RankInSorted(r, i);
      assert i < excess ==> r[..excess][i] == s;
    }
  }

  class HeadComparator {
    const targets: seq<string>
    const historyLimit: nat
    var slots: Slots

    constructor (targets: seq<string>, historyLimit: nat)
      ensures this.targets == targets && this.historyLimit == historyLimit && slots == map[]
    {
      this.targets := targets;
      this.historyLimit := historyLimit;
      slots := map[];
    }

    static method NewHeadComparator(targets: seq<string>, historyLimit: int) returns (r: Result<HeadComparator>)
      ensures r.Ok? <==> |targets| >= 2 && historyLimit >= 2 && "" !in targets && Distinct(targets)
      ensures r.Ok? ==> fresh(r.value) && r.value.slots == map[] && r.value.historyLimit == historyLimit
      ensures r.Ok? ==> r.value.targets == SortStrings(targets) && Distinct(r.value.targets)
    {
      if |targets| < 2 {
        return Err;
      }
      if historyLimit < 2 {
        return Err;
      }
      var targetCopy := SortStrings(targets);
      PermutationElements(targets, targetCopy);
      var valid := ValidTargets(targetCopy);
      if !valid {
        return Err;
      }
      var comparator := new HeadComparator(targetCopy, historyLimit);
      return Ok(comparator);
    }

    static method ValidTargets(targetCopy: seq<string>) returns (valid: bool)
      requires Sorted(StringLe, targetCopy)
      ensures valid <==> "" !in targetCopy && Distinct(targetCopy)
    {
      var index := 0;
      while index < |targetCopy|
        invariant 0 <= index <= |targetCopy|
        invariant forall i :: 0 <= i < index ==> targetCopy[i] != ""
        invariant forall i :: 0 < i < index ==> targetCopy[i] != targetCopy[i - 1]
      {
        if targetCopy[index] == "" {
          return false;
        }
        if index > 0 && targetCopy[index] == targetCopy[index - 1] {
          return false;
        }
        index := index + 1;
      }
      SortedNeighbours(targetCopy);
      valid := true;
    }

    method Observe(timestamp: nat, target: string, slot: U64, root: string) returns (comparison: Option<HeadComparison>)
      modifies this
      ensures var o := Observation(timestamp, target, slot, root);
              Stepped(slots, comparison) == Step(Setup(targets, historyLimit), old(slots), o)
    {
      var state := if slot in slots then slots[slot] else SlotState(map[], "");
      state := state.(roots := state.roots[target := root]);
      slots := slots[slot := state];
      if |state.roots| != |targets| {
        TrimSlots();
        return None;
      }
      var present, signature, roots, agreement := Describe(state.roots);
      if !present || signature == state.lastSignature {
        return None;
      }
      state := state.(lastSignature := signature);
      slots := slots[slot := state];
      assert slots == old(slots)[slot := state];
      TrimSlots();
      return Some(HeadComparison(timestamp, slot, roots, agreement));
    }

    /** The loop over the targets: stops at a target without a root. */
    method Describe(known: Roots) returns (present: bool, signature: string, roots: Roots, agreement: bool)
      ensures present <==> forall t :: t in targets ==> t in known
      ensures present ==> signature == Signature(targets, known) && roots == Project(targets, known)
      ensures present ==> agreement == AgreementOf(targets, known).agreement
    {
      signature, roots, agreement := "", map[], true;
      var firstRoot := "";
      var index := 0;
      while index < |targets|
        invariant 0 <= index <= |targets|
        invariant forall t :: t in targets[..index] ==> t in known
        invariant signature == Signature(targets[..index], known)
        invariant roots == Project(targets[..index], known)
        invariant Agreed(firstRoot, agreement) == AgreementOf(targets[..index], known)
      {
        var name := targets[index];
        if name !in known {
          return false, signature, roots, agreement;
        }
        assert targets[..index + 1] == targets[..index] + [name];
        SignatureAppend(targets[..index], name, known);
        AgreementAppend(targets[..index], name, known);
        roots := roots[name := known[name]];
        signature := signature + Line(name, known[name]);
        if firstRoot == "" {
          firstRoot := known[name];
        } else if known[name] != firstRoot {
          agreement := false;
        }
        index := index + 1;
      }
      assert targets[..index] == targets;
      present := true;
    }

    /** The slots in ascending order, collected in any order first, as a Go map is ranged over. */
    static method OrderedSlots(slots: set<U64>) returns (ordered: seq<U64>)
      ensures Ascending(ordered) && Elements(ordered) == slots
    {
      ordered := [];
      var rest := slots;
      while rest != {}
        invariant rest !! Elements(ordered) && rest + Elements(ordered) == slots && Distinct(ordered)
      {
        var slot :| slot in rest;
        rest := rest - {slot};
        ordered := ordered + [slot];
      }
      ghost var visited := ordered;
      ordered := Sort(SlotLe, ordered);
      SortedIsAscending(visited, ordered);
    }

    method DropFirst(ordered: seq<U64>, excess: nat)
      requires excess <= |ordered|
      modifies this
      ensures slots == old(slots) - Elements(ordered[..excess])
    {
      for index := 0 to excess
        invariant slots == old(slots) - Elements(ordered[..index])
      {
        assert ordered[..index + 1] == ordered[..index] + [ordered[index]];
        slots := slots - {ordered[index]};
      }
    }

    method TrimSlots()
      modifies this
      ensures slots == Retain(historyLimit, old(slots))
    {
      if |slots| <= historyLimit {
        GreatestOfFew(historyLimit, slots.Keys);
        return;
      }
      var ordered := OrderedSlots(slots.Keys);
      DistinctSize(ordered);
      var excess := |ordered| - historyLimit;
      DropFirst(ordered, excess);
      DropKeepsGreatest(historyLimit, ordered);
      RetainByRemoval(historyLimit, old(slots), Elements(ordered[..excess]));
    }
  }

  lemma {:induction false} RetainByRemoval(limit: nat, slots: Slots, gone: set<U64>)
    requires slots.Keys - gone == Greatest(limit, slots.Keys)
    ensures slots - gone == Retain(limit, slots)
  {
  }

  /** In an ordered list, repetitions are neighbours. */
  lemma {:induction false} SortedNeighbours(s: seq<string>)
    requires Sorted(StringLe, s) && forall i :: 0 < i < |s| ==> s[i] != s[i - 1]
    ensures Distinct(s)
  {
    StringOrder();
    forall i, j | 0 <= i < j < |s| ensures s[i] != s[j] {
      assert StringLe(s[i], s[j - 1]) && s[j - 1] != s[j];
    }
  }

  // ---------- Whole runs ----------

  ghost function SlotsAfter(c: Setup, history: seq<Observation>): Slots {
    if history == [] then map[]
    else Step(c, SlotsAfter(c, history[..|history| - 1]), history[|history| - 1]).slots
  }

  /** The latest root of each target for a slot, over the whole history. */
  function RootsAt(history: seq<Observation>, slot: U64): Roots {
    if history == [] then map[] else
    var before := RootsAt(history[..|history| - 1], slot);
    var o := history[|history| - 1];
    if o.slot == slot then before[o.target := o.root] else before
  }

  function SlotsSeen(history: seq<Observation>): set<U64> {
    set o | o in history :: o.slot
  }

  ghost predicate FromTargets(c: Setup, history: seq<Observation>) {
    forall o :: o in history ==> o.target in c.targets && OneLine(o.root)
  }

  ghost predicate AllSeen(c: Setup, roots: Roots) {
    roots.Keys == Elements(c.targets)
  }

  lemma {:induction false} RootsAtShape(c: Setup, history: seq<Observation>, slot: U64)
    requires FromTargets(c, history)
    ensures RootsAt(history, slot).Keys <= Elements(c.targets)
    ensures forall t :: t in RootsAt(history, slot) ==> OneLine(RootsAt(history, slot)[t])
    ensures RootsAt(history, slot) != map[] <==> slot in SlotsSeen(history)
  {
    if history != [] {
      var init, o := history[..|history| - 1], history[|history| - 1];
      assert history == init + [o];
      RootsAtShape(c, init, slot);
      assert SlotsSeen(history) == SlotsSeen(init) + {o.slot};
      if o.slot == slot {
        assert o.target in RootsAt(history, slot);
      }
    }
  }

  lemma {:induction false} CompleteBySize(c: Setup, roots: Roots)
    requires ValidSetup(c) && roots.Keys <= Elements(c.targets)
    ensures |roots| == |c.targets| <==> AllSeen(c, roots)
    ensures AllSeen(c, roots) ==> Project(c.targets, roots) == roots
  {
    DistinctSize(c.targets);
    if |roots.Keys| == |Elements(c.targets)| {
      var missing := Elements(c.targets) - roots.Keys;
      assert Elements(c.targets) == roots.Keys + missing;
      assert |missing| == 0;
    }
  }

  /** What the comparator holds for a retained slot whose latest roots are `roots`. */
  ghost predicate Fits(c: Setup, roots: Roots, state: SlotState) {
    && state.roots == roots
    && (AllSeen(c, roots) ==> state.lastSignature == Signature(c.targets, roots))
    && (!AllSeen(c, roots) ==> state.lastSignature == "")
  }

  ghost predicate HoldsHistory(c: Setup, history: seq<Observation>, slots: Slots) {
    && slots.Keys == Greatest(c.historyLimit, SlotsSeen(history))
    && forall s :: s in slots ==> Fits(c, RootsAt(history, s), slots[s])
  }

  /** The comparison called for when an observation takes a slot's latest roots from `before` to `after`. */
  ghost function Due(c: Setup, before: Roots, after: Roots, o: Observation): Option<HeadComparison> {
    if AllSeen(c, after) && after != before then
      Some(HeadComparison(o.timestamp, o.slot, after, Unanimous(c, after)))
    else None
  }

  ghost predicate Unanimous(c: Setup, roots: Roots)
    requires AllSeen(c, roots)
  {
    forall s, t :: s in c.targets && t in c.targets ==> roots[s] == roots[t]
  }

  /** The comparison an unlimited history calls for: the slot is complete and this observation
      changed its roots. */
  ghost function Expected(c: Setup, history: seq<Observation>, o: Observation): Option<HeadComparison> {
    Due(c, RootsAt(history, o.slot), RootsAt(history + [o], o.slot), o)
  }

  lemma {:induction false} OneMore(history: seq<Observation>, o: Observation, slot: U64)
    ensures SlotsSeen(history + [o]) == SlotsSeen(history) + {o.slot}
    ensures RootsAt(history + [o], slot) ==
              if slot == o.slot then RootsAt(history, slot)[o.target := o.root] else RootsAt(history, slot)
  {
  }

  lemma {:induction false} UpdateCases(c: Setup, before: SlotState, o: Observation)
    requires ValidSetup(c) && before.roots.Keys <= Elements(c.targets) && o.target in c.targets
    ensures var roots := before.roots[o.target := o.root];
            if !AllSeen(c, roots) then
              Update(c, before, o) == Updated(SlotState(roots, before.lastSignature), None, true)
            else if Signature(c.targets, roots) == before.lastSignature then
              Update(c, before, o) == Updated(SlotState(roots, before.lastSignature), None, false)
            else
              Update(c, before, o) ==
                Updated(SlotState(roots, Signature(c.targets, roots)),
                        Some(HeadComparison(o.timestamp, o.slot, roots, AgreementOf(c.targets, roots).agreement)), true)
  {
    CompleteBySize(c, before.roots[o.target := o.root]);
  }

  ghost predicate Proper(c: Setup, roots: Roots) {
    roots.Keys <= Elements(c.targets) && forall t :: t in roots ==> OneLine(roots[t])
  }

  /** The signature finds exactly the observations that change a complete slot. */
  lemma {:induction false} UpdateFits(c: Setup, before: SlotState, o: Observation)
    requires ValidSetup(c) && Proper(c, before.roots) && Fits(c, before.roots, before)
    requires o.target in c.targets && OneLine(o.root)
    ensures var roots := before.roots[o.target := o.root];
            && Fits(c, roots, Update(c, before, o).state)
            && Update(c, before, o).comparison == Due(c, before.roots, roots, o)
  {
    var roots := before.roots[o.target := o.root];
    UpdateCases(c, before, o);
    if AllSeen(c, roots) {
      assert Proper(c, roots);
      SignatureDecides(c, before.roots, roots);
      UnanimousIsAgreement(c, roots);
    }
  }

  lemma {:induction false} UnanimousIsAgreement(c: Setup, roots: Roots)
    requires AllSeen(c, roots) && Proper(c, roots)
    ensures AgreementOf(c.targets, roots).agreement == Unanimous(c, roots)
  {
    AgreementMeaning(c.targets, roots);
  }

  lemma {:induction false} SignatureDecides(c: Setup, p: Roots, q: Roots)
    requires ValidSetup(c) && Proper(c, p) && Proper(c, q) && AllSeen(c, q)
    ensures AllSeen(c, p) ==> (Signature(c.targets, p) == Signature(c.targets, q) <==> p == q)
    ensures Signature(c.targets, q) != ""
  {
    SignatureNotEmpty(c.targets, q);
    if AllSeen(c, p) && Signature(c.targets, p) == Signature(c.targets, q) {
      assert forall t :: t in c.targets ==> t in p && t in q;
      SignatureInjective(c.targets, p, q);
      assert forall t :: t in p ==> t in Elements(c.targets);
    }
  }

  /** A slot never seen, like a forgotten slot, starts from nothing; only the first kind can be kept. */
  lemma {:induction false} FreshSlot(c: Setup, history: seq<Observation>, o: Observation)
    requires ValidSetup(c) && FromTargets(c, history + [o])
    ensures Update(c, SlotState(map[], ""), o) == Updated(SlotState(map[o.target := o.root], ""), None, true)
    ensures o.slot !in SlotsSeen(history) ==> RootsAt(history, o.slot) == map[]
    ensures !AllSeen(c, map[])
  {
    assert FromTargets(c, history);
    RootsAtShape(c, history, o.slot);
    assert c.targets[0] in Elements(c.targets);
  }

  lemma {:induction false} StepKeys(c: Setup, seen: set<U64>, slots: Slots, o: Observation)
    requires slots.Keys == Greatest(c.historyLimit, seen)
    requires o.slot in slots || Update(c, Entry(slots, o.slot), o).trims
    ensures Step(c, slots, o).slots == Retain(c.historyLimit, slots[o.slot := Update(c, Entry(slots, o.slot), o).state])
    ensures Step(c, slots, o).slots.Keys == Greatest(c.historyLimit, seen + {o.slot})
  {
    var written := slots[o.slot := Update(c, Entry(slots, o.slot), o).state];
    GreatestStable(c.historyLimit, seen, o.slot);
    assert written.Keys == slots.Keys + {o.slot};
    if o.slot in slots {
      assert seen + {o.slot} == seen;
      assert Retain(c.historyLimit, written) == written;
    }
  }

  lemma {:induction false} OwnSlotFits(c: Setup, history: seq<Observation>, slots: Slots, o: Observation)
    requires ValidSetup(c) && FromTargets(c, history + [o]) && HoldsHistory(c, history, slots)
    requires o.slot in slots || o.slot !in SlotsSeen(history)
    ensures var updated := Update(c, Entry(slots, o.slot), o);
            && Fits(c, RootsAt(history + [o], o.slot), updated.state)
            && updated.comparison == Expected(c, history, o)
  {
    FreshSlot(c, history, o);
    OneMore(history, o, o.slot);
    assert FromTargets(c, history);
    RootsAtShape(c, history, o.slot);
    UpdateFits(c, Entry(slots, o.slot), o);
  }

  lemma {:induction false} WrittenHolds(c: Setup, history: seq<Observation>, slots: Slots, o: Observation,
                                        state: SlotState, next: Slots)
    requires HoldsHistory(c, history, slots) && next == Retain(c.historyLimit, slots[o.slot := state])
    requires next.Keys == Greatest(c.historyLimit, SlotsSeen(history + [o]))
    requires o.slot in next ==> Fits(c, RootsAt(history + [o], o.slot), state)
    ensures HoldsHistory(c, history + [o], next)
  {
  }

  lemma {:induction false} StepHolds(c: Setup, history: seq<Observation>, slots: Slots, o: Observation)
    requires ValidSetup(c) && FromTargets(c, history + [o]) && HoldsHistory(c, history, slots)
    ensures HoldsHistory(c, history + [o], Step(c, slots, o).slots)
    ensures Step(c, slots, o).comparison == if o.slot in slots then Expected(c, history, o) else None
  {
    var seen, next := SlotsSeen(history), Step(c, slots, o).slots;
    FreshSlot(c, history, o);
    StepKeys(c, seen, slots, o);
    OneMore(history, o, o.slot);
    if o.slot in slots || o.slot !in seen {
      OwnSlotFits(c, history, slots, o);
    }
    assert o.slot in seen ==> seen + {o.slot} == seen;
    WrittenHolds(c, history, slots, o, Update(c, Entry(slots, o.slot), o).state, next);
  }

  /** On every run of observations from the configured targets, the comparator holds exactly the
      `historyLimit` greatest slots seen, each with the latest root of every target. */
  lemma {:induction false} RetainsGreatestSlots(c: Setup, history: seq<Observation>)
    requires ValidSetup(c) && FromTargets(c, history)
    ensures HoldsHistory(c, history, SlotsAfter(c, history))
  {
    if history != [] {
      var init, o := history[..|history| - 1], history[|history| - 1];
      assert history == init + [o];
      RetainsGreatestSlots(c, init);
      StepHolds(c, init, SlotsAfter(c, init), o);
    }
  }

  /** On every run, the comparison emitted is the one an unlimited history calls for when the slot
      is among the greatest seen so far, and none otherwise. */
  lemma {:induction false} EmitsExpected(c: Setup, history: seq<Observation>, o: Observation)
    requires ValidSetup(c) && FromTargets(c, history + [o])
    ensures Step(c, SlotsAfter(c, history), o).comparison ==
              if o.slot in Greatest(c.historyLimit, SlotsSeen(history)) then Expected(c, history, o) else None
  {
    assert FromTargets(c, history);
    RetainsGreatestSlots(c, history);
    StepHolds(c, history, SlotsAfter(c, history), o);
  }

  /** While no more slots were seen than the limit, nothing an unlimited history calls for is lost. */
  lemma {:induction false} NothingLostWithinLimit(c: Setup, history: seq<Observation>, o: Observation)
    requires ValidSetup(c) && FromTargets(c, history + [o]) && |SlotsSeen(history)| <= c.historyLimit
    ensures Step(c, SlotsAfter(c, history), o).comparison == Expected(c, history, o)
  {
    EmitsExpected(c, history, o);
    GreatestOfFew(c.historyLimit, SlotsSeen(history));
    if o.slot !in SlotsSeen(history) {
      FreshSlot(c, history, o);
      OneMore(history, o, o.slot);
      DistinctSize(c.targets);
      assert |Elements(c.targets)| != |{o.target}|;
    }
  }

  /** The signature relies on newline-free roots: without them two different root maps can share one. */
  lemma {:induction false} NewlinesCollide()
    ensures var p: Roots := map["a" := "1\nb=2", "b" := "3"];
            var q: Roots := map["a" := "1", "b" := "2\nb=3"];
            p != q && Signature(["a", "b"], p) == Signature(["a", "b"], q)
  {
  }
}
