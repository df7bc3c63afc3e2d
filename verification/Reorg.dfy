/** The execution reorg tracker, and the same tracker with an unlimited history. */
module Reorg {
  import opened Common

  /** Block hashes are only ever compared. */
  type Hash(==, !new)

  datatype Head = Head(number: U64, hash: Hash, parentHash: Hash)

  datatype ReorgObservation = ReorgObservation(
    target: string, previousHead: Head, newHead: Head, depth: Option<U64>)

  datatype Gap = NoGap | NotSuccessor | Skipped(fromBlock: U64, toBlock: U64)

  datatype ReorgResult = ReorgResult(reorg: Option<ReorgObservation>, continuity: bool, gap: Gap)
  {
    predicate DepthKnown() { reorg.Some? && reorg.value.depth.Some? }

    predicate DepthUnknown() { reorg.Some? && reorg.value.depth.None? }

    function Depth(): U64
      requires DepthKnown()
    {
      reorg.value.depth.value
    }
  }

  datatype Limit = Bounded(size: nat) | Unbounded

  // ---------- One observation ----------

  /** The newest entry of the list with this hash, or -1. */
  function LastIndex(chain: seq<Head>, hash: Hash): (i: int)
    ensures -1 <= i < |chain|
    ensures i >= 0 ==> chain[i].hash == hash
    ensures forall j :: i < j < |chain| ==> chain[j].hash != hash
  {
    if chain == [] then -1
    else if chain[|chain| - 1].hash == hash then |chain| - 1
    else LastIndex(chain[..|chain| - 1], hash)
  }

  function Trim(limit: Limit, chain: seq<Head>): seq<Head> {
    if limit.Unbounded? || |chain| <= limit.size then chain else chain[|chain| - limit.size..]
  }

  const CONTINUES := ReorgResult(None, true, NoGap)

  /** What one head means for a nonempty list. */
  datatype Move = Repeat | Extend | Rewind(parentIndex: nat) | BadParent | Skip | Unknown

  function Classify(chain: seq<Head>, head: Head): (m: Move)
    requires chain != []
    ensures m.Rewind? ==> m.parentIndex < |chain| && chain[m.parentIndex].number <= chain[|chain| - 1].number
  {
    var tip := chain[|chain| - 1];
    var parentIndex := LastIndex(chain, head.parentHash);
    if head.hash == tip.hash then Repeat
    else if tip.number != MAX_UINT64 && head.number == tip.number + 1 && head.parentHash == tip.hash then Extend
    else if parentIndex >= 0 then
      var parent := chain[parentIndex];
      if parent.number > tip.number || parent.number == MAX_UINT64 || head.number != parent.number + 1
      then BadParent else Rewind(parentIndex)
    else if tip.number != MAX_UINT64 && head.number > tip.number + 1 then Skip
    else Unknown
  }

  function NextChain(limit: Limit, chain: seq<Head>, head: Head): seq<Head> {
    if chain == [] then [head] else Moved(limit, chain, head, Classify(chain, head))
  }

  function Moved(limit: Limit, chain: seq<Head>, head: Head, move: Move): seq<Head>
    requires move.Rewind? ==> move.parentIndex < |chain|
  {
    match move
    case Repeat => chain
    case Extend => Trim(limit, chain + [head])
    case Rewind(parentIndex) => Trim(limit, chain[..parentIndex + 1] + [head])
    case _ => [head]
  }

  function Answer(target: string, chain: seq<Head>, head: Head): ReorgResult {
    if chain == [] then CONTINUES else
    var tip := chain[|chain| - 1];
    match Classify(chain, head)
    case Repeat => CONTINUES
    case Extend => CONTINUES
    case Rewind(parentIndex) =>
      ReorgResult(Some(ReorgObservation(target, tip, head, Some(tip.number - chain[parentIndex].number))), true, NoGap)
    case BadParent => ReorgResult(None, false, NotSuccessor)
    case Skip => ReorgResult(None, false, Skipped(tip.number, head.number))
    case Unknown => ReorgResult(Some(ReorgObservation(target, tip, head, None)), false, NoGap)
  }

  // ---------- The tracker ----------

  class ReorgTracker {
    const target: string
    const historyLimit: nat
    var canonical: seq<Head>

    constructor (target: string, historyLimit: nat)
      ensures this.target == target && this.historyLimit == historyLimit && canonical == []
    {
      this.target := target;
      this.historyLimit := historyLimit;
      canonical := [];
    }

    /** The checks of the exported constructor function. */
    static method NewReorgTracker(target: string, historyLimit: int) returns (r: Result<ReorgTracker>)
      ensures r.Ok? <==> target != "" && historyLimit >= 2
      ensures r.Ok? ==> fresh(r.value) && r.value.target == target && r.value.historyLimit == historyLimit
      ensures r.Ok? ==> r.value.canonical == []
    {
      if target == "" {
        return Err;
      }
      if historyLimit < 2 {
        return Err;
      }
      var tracker := new ReorgTracker(target, historyLimit);
      return Ok(tracker);
    }

    method Observe(head: Head) returns (result: ReorgResult)
      modifies this
      ensures canonical == NextChain(Bounded(historyLimit), old(canonical), head)
      ensures result == Answer(target, old(canonical), head)
    {
      if |canonical| == 0 {
        canonical := canonical + [head];
        return CONTINUES;
      }
      var tip := canonical[|canonical| - 1];
      if head.hash == tip.hash {
        return CONTINUES;
      }
      if tip.number != MAX_UINT64 && head.number == tip.number + 1 && head.parentHash == tip.hash {
        AppendCanonical(head);
        return CONTINUES;
      }
      var parentIndex := CanonicalIndex(head.parentHash);
      if parentIndex >= 0 {
        result := ObserveChild(head, parentIndex);
        return;
      }
      if tip.number != MAX_UINT64 && head.number > tip.number + 1 {
        Reset(head);
        return ReorgResult(None, false, Skipped(tip.number, head.number));
      }
      Reset(head);
      return ReorgResult(Some(ReorgObservation(target, tip, head, None)), false, NoGap);
    }

    /** The head of a listed parent that does not extend the tip. */
    method ObserveChild(head: Head, parentIndex: nat) returns (result: ReorgResult)
      requires canonical != [] && LastIndex(canonical, head.parentHash) == parentIndex
      requires Classify(canonical, head).Rewind? || Classify(canonical, head).BadParent?
      modifies this
      ensures canonical == NextChain(Bounded(historyLimit), old(canonical), head)
      ensures result == Answer(target, old(canonical), head)
    {
      var tip, parent := canonical[|canonical| - 1], canonical[parentIndex];
      if parent.number > tip.number || parent.number == MAX_UINT64 || head.number != parent.number + 1 {
        Reset(head);
        return ReorgResult(None, false, NotSuccessor);
      }
      var depth: U64 := tip.number - parent.number;
      canonical := canonical[..parentIndex + 1] + [head];
      TrimCanonical();
      return ReorgResult(Some(ReorgObservation(target, tip, head, Some(depth))), true, NoGap);
    }

    method CanonicalIndex(hash: Hash) returns (index: int)
      ensures index == LastIndex(canonical, hash)
    {
      index := |canonical| - 1;
      while index >= 0
        invariant -1 <= index < |canonical|
        invariant forall j :: index < j < |canonical| ==> canonical[j].hash != hash
      {
        if canonical[index].hash == hash {
          return;
        }
        index := index - 1;
      }
    }

    method AppendCanonical(head: Head)
      modifies this
      ensures canonical == Trim(Bounded(historyLimit), old(canonical) + [head])
    {
      canonical := canonical + [head];
      TrimCanonical();
    }

    method TrimCanonical()
      modifies this
      ensures canonical == Trim(Bounded(historyLimit), old(canonical))
    {
      if |canonical| <= historyLimit {
        return;
      }
      canonical := canonical[|canonical| - historyLimit..];
    }

    method Reset(head: Head)
      modifies this
      ensures canonical == [head]
    {
      canonical := [];
      canonical := canonical + [head];
    }
  }

  // ---------- Whole runs ----------

  /** The list kept after a run of observations that starts with a new tracker. */
  function ChainAfter(limit: Limit, heads: seq<Head>): seq<Head> {
    if heads == [] then []
    else NextChain(limit, ChainAfter(limit, heads[..|heads| - 1]), heads[|heads| - 1])
  }

  /** The answer to one more head after a run. */
  function AnswerAfter(target: string, limit: Limit, heads: seq<Head>, head: Head): ReorgResult {
    Answer(target, ChainAfter(limit, heads), head)
  }

  // ---------- Window invariant ----------

  ghost predicate Linked(chain: seq<Head>) {
    forall i, j :: 0 <= i < j < |chain| && j == i + 1 ==>
      chain[j].parentHash == chain[i].hash && chain[j].number == chain[i].number + 1
  }

  lemma {:induction false} LinkedNumbers(chain: seq<Head>, i: nat, j: nat)
    requires Linked(chain) && i <= j < |chain|
    ensures chain[j].number == chain[i].number + (j - i)
  {
    if i < j {
      LinkedNumbers(chain, i, j - 1);
      assert chain[j].number == chain[j - 1].number + 1;
    }
  }

  lemma {:induction false} TrimKeepsLinks(limit: Limit, chain: seq<Head>)
    requires Linked(chain) && chain != [] && (limit.Bounded? ==> limit.size >= 1)
    ensures Linked(Trim(limit, chain)) && Trim(limit, chain) != []
    ensures limit.Bounded? ==> |Trim(limit, chain)| <= limit.size
  {
  }

  lemma {:induction false} AppendKeepsLinks(chain: seq<Head>, head: Head)
    requires Linked(chain) && chain != []
    requires head.parentHash == chain[|chain| - 1].hash && head.number == chain[|chain| - 1].number + 1
    ensures Linked(chain + [head])
  {
  }

  lemma {:induction false} StepKeepsWindow(limit: Limit, chain: seq<Head>, head: Head)
    requires Linked(chain) && (limit.Bounded? ==> limit.size >= 2 && |chain| <= limit.size)
    ensures var next := NextChain(limit, chain, head);
            Linked(next) && next != [] && (limit.Bounded? ==> |next| <= limit.size)
    ensures chain != [] && Classify(chain, head).Rewind? ==>
              var p := Classify(chain, head).parentIndex;
              && p < |chain| - 1 && chain[|chain| - 1].number - chain[p].number == |chain| - 1 - p
              && head.parentHash == chain[p].hash
              && NextChain(limit, chain, head) == chain[..p + 1] + [head]
  {
    if chain != [] {
      match Classify(chain, head)
      case Extend =>
        AppendKeepsLinks(chain, head);
        TrimKeepsLinks(limit, chain + [head]);
      case Rewind(p) =>
        LinkedNumbers(chain, p, |chain| - 1);
        AppendKeepsLinks(chain[..p + 1], head);
      case _ =>
    }
  }

  /** On every run the list is hash-linked with consecutive numbers and within the limit. */
  lemma {:induction false} WindowInvariant(n: nat, heads: seq<Head>)
    requires n >= 2
    ensures var chain := ChainAfter(Bounded(n), heads);
            Linked(chain) && |chain| <= n && (chain == [] <==> heads == [])
  {
    if heads != [] {
      WindowInvariant(n, heads[..|heads| - 1]);
      StepKeepsWindow(Bounded(n), ChainAfter(Bounded(n), heads[..|heads| - 1]), heads[|heads| - 1]);
    }
  }

  /** A known depth is the number of entries dropped. */
  ghost predicate CountsDropped(chain: seq<Head>, head: Head, next: seq<Head>, d: nat) {
    && 1 <= d < |chain|
    && next == chain[..|chain| - d] + [head]
    && head.parentHash == chain[|chain| - 1 - d].hash
  }

  lemma {:induction false} KnownDepthStep(target: string, limit: Limit, chain: seq<Head>, head: Head)
    requires Linked(chain) && (limit.Bounded? ==> limit.size >= 2 && |chain| <= limit.size)
    requires Answer(target, chain, head).DepthKnown()
    ensures CountsDropped(chain, head, NextChain(limit, chain, head), Answer(target, chain, head).Depth())
  {
    assert chain != [] && Classify(chain, head).Rewind?;
    StepKeepsWindow(limit, chain, head);
  }

  /** On every run a known depth lies between 1 and the limit less one and counts the entries dropped. */
  lemma {:induction false} KnownDepthCountsDropped(target: string, n: nat, heads: seq<Head>, head: Head)
    requires n >= 2 && AnswerAfter(target, Bounded(n), heads, head).DepthKnown()
    ensures var d := AnswerAfter(target, Bounded(n), heads, head).Depth();
            && 1 <= d <= n - 1
            && CountsDropped(ChainAfter(Bounded(n), heads), head, ChainAfter(Bounded(n), heads + [head]), d)
  {
    WindowInvariant(n, heads);
    KnownDepthStep(target, Bounded(n), ChainAfter(Bounded(n), heads), head);
    ChainAfterOneMore(Bounded(n), heads, head);
  }

  lemma {:induction false} ChainAfterOneMore(limit: Limit, heads: seq<Head>, head: Head)
    ensures ChainAfter(limit, heads + [head]) == NextChain(limit, ChainAfter(limit, heads), head)
  {
  }

  // ---------- What an observation means ----------

  ghost predicate Quiet(a: ReorgResult) {
    a.continuity && a.reorg.None? && a.gap.NoGap?
  }

  /** Entry `p` is the newest with the hash of the head's parent. */
  ghost predicate IsParentAt(chain: seq<Head>, head: Head, p: nat) {
    && p < |chain| && chain[p].hash == head.parentHash
    && forall j :: p < j < |chain| ==> chain[j].hash != head.parentHash
  }

  ghost predicate Continues(tip: Head, head: Head) {
    head.parentHash == tip.hash && head.number == tip.number + 1
  }

  /** A head with the tip's hash changes nothing; the tip's child is appended, at the expense of the oldest
      entry of a full list. Neither is reported. */
  ghost predicate FollowsTip(n: nat, chain: seq<Head>, head: Head, next: seq<Head>, a: ReorgResult)
    requires chain != []
  {
    var tip := chain[|chain| - 1];
    && (head.hash == tip.hash ==> Quiet(a) && next == chain)
    && (head.hash != tip.hash && Continues(tip, head) ==>
          Quiet(a) && next == if |chain| < n then chain + [head] else chain[1..] + [head])
  }

  /** The child of a listed block that is not the tip's child goes back to it: the reorg is from the tip to the
      head, as deep as the tip is above the parent. A listed parent with the wrong number is a gap. */
  ghost predicate FollowsParent(
    target: string, chain: seq<Head>, head: Head, next: seq<Head>, a: ReorgResult, p: nat)
    requires p < |chain|
  {
    var tip, parent := chain[|chain| - 1], chain[p];
    if head.number == parent.number + 1 then
      && a.continuity && a.gap.NoGap? && a.reorg.Some? && a.reorg.value.target == target
      && a.reorg.value.previousHead == tip && a.reorg.value.newHead == head
      && a.reorg.value.depth.Some? && a.reorg.value.depth.value + parent.number == tip.number
      && next == chain[..p + 1] + [head]
    else !a.continuity && a.gap.NotSuccessor? && a.reorg.None? && next == [head]
  }

  /** Without a listed parent the list starts again: after a skip over at least one number, or with a reorg
      from the tip to the head of unknown depth. */
  ghost predicate StartsAgain(target: string, chain: seq<Head>, head: Head, next: seq<Head>, a: ReorgResult)
    requires chain != []
  {
    var tip := chain[|chain| - 1];
    && !a.continuity && next == [head]
    && if head.number > tip.number + 1 then
         a.reorg.None? && a.gap.Skipped? && a.gap.fromBlock == tip.number && a.gap.toBlock == head.number
       else
         && a.gap.NoGap? && a.reorg.Some? && a.reorg.value.target == target
         && a.reorg.value.previousHead == tip && a.reorg.value.newHead == head && a.reorg.value.depth.None?
  }

  /** Every case of an observation, in terms of the list and the head alone. */
  ghost predicate Explained(target: string, n: nat, chain: seq<Head>, head: Head, next: seq<Head>, a: ReorgResult) {
    if chain == [] then Quiet(a) && next == [head] else
    var tip := chain[|chain| - 1];
    && FollowsTip(n, chain, head, next, a)
    && (head.hash != tip.hash && !Continues(tip, head) ==>
          && (forall p :: IsParentAt(chain, head, p) ==> FollowsParent(target, chain, head, next, a, p))
          && ((forall b :: b in chain ==> b.hash != head.parentHash) ==> StartsAgain(target, chain, head, next, a)))
  }

  lemma {:induction false} StepExplained(target: string, n: nat, chain: seq<Head>, head: Head)
    requires n >= 2 && Linked(chain) && |chain| <= n
    ensures Explained(target, n, chain, head, NextChain(Bounded(n), chain, head), Answer(target, chain, head))
  {
    if chain != [] {
      StepKeepsWindow(Bounded(n), chain, head);
      var q := LastIndex(chain, head.parentHash);
      if q >= 0 {
        assert chain[q] in chain;
        LinkedNumbers(chain, q, |chain| - 1);
      }
      forall p: nat | IsParentAt(chain, head, p) ensures p == q {
        assert q >= p;
      }
    }
  }

  /** On every run each observation does and answers exactly what its case says. */
  lemma {:induction false} ObservationMeaning(target: string, n: nat, heads: seq<Head>, head: Head)
    requires n >= 2
    ensures Explained(target, n, ChainAfter(Bounded(n), heads), head, ChainAfter(Bounded(n), heads + [head]),
                      AnswerAfter(target, Bounded(n), heads, head))
  {
    WindowInvariant(n, heads);
    StepExplained(target, n, ChainAfter(Bounded(n), heads), head);
    ChainAfterOneMore(Bounded(n), heads, head);
  }

  lemma {:induction false} UnboundedLinked(heads: seq<Head>)
    ensures Linked(ChainAfter(Unbounded, heads))
  {
    if heads != [] {
      UnboundedLinked(heads[..|heads| - 1]);
      StepKeepsWindow(Unbounded, ChainAfter(Unbounded, heads[..|heads| - 1]), heads[|heads| - 1]);
    }
  }

  /** The guard `parent.Number > tip.Number` never fires: a parent found in the list of any run is
      never above the tip. */
  lemma {:induction false} ParentNeverAboveTip(n: nat, heads: seq<Head>, head: Head)
    requires n >= 2
    ensures var chain := ChainAfter(Bounded(n), heads);
            var p := LastIndex(chain, head.parentHash);
            p >= 0 ==> chain[p].number <= chain[|chain| - 1].number
  {
    WindowInvariant(n, heads);
    var chain := ChainAfter(Bounded(n), heads);
    var p := LastIndex(chain, head.parentHash);
    if p >= 0 {
      LinkedNumbers(chain, p, |chain| - 1);
    }
  }

  // ---------- Truncation: the bounded tracker against the unlimited one ----------

  ghost predicate Suffix(b: seq<Head>, u: seq<Head>) {
    && |b| <= |u| && b == u[|u| - |b|..]
    && (b == [] <==> u == [])
  }

  ghost predicate SameTip(b: seq<Head>, u: seq<Head>) {
    b != [] && u != [] && b[|b| - 1] == u[|u| - 1]
  }

  /** What the bounded answer `b` may differ in from the unlimited answer `u`, when `kept` entries
      were retained before the observation. */
  ghost predicate Agrees(b: ReorgResult, u: ReorgResult, kept: nat) {
    // A depth the bounded tracker reports is the unlimited one's depth, and everything else it says.
    && (b.DepthKnown() ==> b == u)
    // A depth the unlimited tracker reports is reported exactly when it is below the retained length;
    // otherwise it becomes an unknown depth between the same two heads, never a sequence gap.
    && (u.DepthKnown() ==>
          && (b.DepthKnown() <==> u.Depth() < kept)
          && (u.Depth() >= kept ==>
                b == ReorgResult(Some(u.reorg.value.(depth := None)), false, NoGap)))
    && (u.DepthUnknown() ==> b == u)
    && (u.continuity && u.reorg.None? ==> b == u)
    && (u.gap.Skipped? ==> b == u)
    // A parent that is known with the wrong number stays a failure, though it may be renamed.
    && (u.gap.NotSuccessor? ==> !b.continuity && !b.DepthKnown())
  }

  lemma {:induction false} LastIndexSuffix(b: seq<Head>, u: seq<Head>, hash: Hash)
    requires Suffix(b, u)
    ensures LastIndex(b, hash) >= 0 ==> LastIndex(u, hash) == LastIndex(b, hash) + (|u| - |b|)
    ensures LastIndex(b, hash) < 0 ==> LastIndex(u, hash) < |u| - |b|
  {
  }

  /** How the window may change the meaning of a head. */
  ghost predicate MoveRefines(mb: Move, mu: Move, kept: nat, all: nat) {
    && kept <= all
    && match mu
       case Rewind(p) => p < all && mb == if p >= all - kept then Rewind(p - (all - kept)) else Unknown
       case BadParent => mb.BadParent? || mb.Skip? || mb.Unknown?
       case _ => mb == mu
  }

  lemma {:induction false} ClassifyRefines(b: seq<Head>, u: seq<Head>, head: Head)
    requires Suffix(b, u) && b != [] && Linked(u)
    ensures MoveRefines(Classify(b, head), Classify(u, head), |b|, |u|)
  {
    assert u[|u| - 1] == b[|b| - 1];
    LastIndexSuffix(b, u, head.parentHash);
    if LastIndex(u, head.parentHash) >= 0 {
      RewindNumbers(u, head);
    }
  }

  /** In a linked list the numbers tell how far back a parent is. */
  lemma {:induction false} RewindNumbers(u: seq<Head>, head: Head)
    requires Linked(u) && u != [] && LastIndex(u, head.parentHash) >= 0
    ensures var p := LastIndex(u, head.parentHash); u[|u| - 1].number - u[p].number == |u| - 1 - p
  {
    LinkedNumbers(u, LastIndex(u, head.parentHash), |u| - 1);
  }

  lemma {:induction false} ApplyRefines(n: nat, b: seq<Head>, u: seq<Head>, head: Head, mb: Move, mu: Move)
    requires n >= 2 && Suffix(b, u) && b != [] && MoveRefines(mb, mu, |b|, |u|)
    ensures Suffix(Moved(Bounded(n), b, head, mb), Moved(Unbounded, u, head, mu))
  {
  }

  lemma {:induction false} AnswerRefines(target: string, b: seq<Head>, u: seq<Head>, head: Head)
    requires Suffix(b, u) && b != [] && Linked(u)
    ensures Agrees(Answer(target, b, head), Answer(target, u, head), |b|)
  {
    ClassifyRefines(b, u, head);
    assert u[|u| - 1] == b[|b| - 1];
    if Classify(u, head).Rewind? {
      RewindNumbers(u, head);
    }
    if Classify(b, head).Rewind? {
      assert u[|u| - |b| + Classify(b, head).parentIndex] == b[Classify(b, head).parentIndex];
    }
  }

  /** On every run the bounded list is a suffix of the unlimited list with the same tip, and the
      answer to the next head agrees with the unlimited answer up to the depths the window has lost. */
  lemma {:induction false} BoundedRefinesUnbounded(target: string, n: nat, heads: seq<Head>, head: Head)
    requires n >= 2
    ensures Suffix(ChainAfter(Bounded(n), heads), ChainAfter(Unbounded, heads))
    ensures heads != [] ==> SameTip(ChainAfter(Bounded(n), heads), ChainAfter(Unbounded, heads))
    ensures Agrees(AnswerAfter(target, Bounded(n), heads, head), AnswerAfter(target, Unbounded, heads, head),
                   |ChainAfter(Bounded(n), heads)|)
  {
    if heads != [] {
      var h, last := heads[..|heads| - 1], heads[|heads| - 1];
      BoundedRefinesUnbounded(target, n, h, last);
      UnboundedLinked(h);
      if h != [] {
        var b, u := ChainAfter(Bounded(n), h), ChainAfter(Unbounded, h);
        ClassifyRefines(b, u, last);
        ApplyRefines(n, b, u, last, Classify(b, last), Classify(u, last));
      }
      WindowInvariant(n, heads);
      UnboundedLinked(heads);
      AnswerRefines(target, ChainAfter(Bounded(n), heads), ChainAfter(Unbounded, heads), head);
    }
  }

  // ---------- Depth as fork distance ----------

  /** A block tree: the hash fixes the block, and a known parent is one number below. */
  type BlockTree = map<Hash, Head>

  ghost predicate IsTree(w: BlockTree) {
    && (forall h :: h in w ==> w[h].hash == h)
    && (forall h :: h in w && w[h].parentHash in w ==> w[h].number == w[w[h].parentHash].number + 1)
  }

  ghost predicate Member(w: BlockTree, b: Head) {
    b.hash in w && w[b.hash] == b
  }

  ghost predicate Ancestor(w: BlockTree, a: Head, b: Head)
    requires IsTree(w) && Member(w, b)
    decreases b.number
  {
    a == b || (b.parentHash in w && Ancestor(w, a, w[b.parentHash]))
  }

  ghost predicate LowestCommonAncestor(w: BlockTree, c: Head, a: Head, b: Head)
    requires IsTree(w) && Member(w, a) && Member(w, b)
  {
    && Ancestor(w, c, a) && Ancestor(w, c, b)
    && (forall x :: Ancestor(w, x, a) && Ancestor(w, x, b) ==> x.number <= c.number)
  }

  /** `d` blocks lie on the way from `a` down to where the branches of `a` and `b` meet. */
  ghost predicate ForkDistance(w: BlockTree, a: Head, b: Head, d: nat)
    requires IsTree(w) && Member(w, a) && Member(w, b)
  {
    exists c :: LowestCommonAncestor(w, c, a, b) && d == a.number - c.number
  }

  lemma {:induction false} AncestorNumber(w: BlockTree, a: Head, b: Head)
    requires IsTree(w) && Member(w, b) && Ancestor(w, a, b)
    ensures a.number <= b.number && (a.number == b.number ==> a == b)
    decreases b.number
  {
    if a != b {
      AncestorNumber(w, a, w[b.parentHash]);
    }
  }

  /** The ancestors of a list's entry at or above the list's first number are list entries. */
  lemma {:induction false} AncestorsInList(w: BlockTree, chain: seq<Head>, j: nat, x: Head)
    requires IsTree(w) && Linked(chain) && (forall b :: b in chain ==> Member(w, b)) && j < |chain|
    ensures forall i :: 0 <= i <= j ==> Ancestor(w, chain[i], chain[j])
    ensures Ancestor(w, x, chain[j]) && x.number >= chain[0].number ==>
              exists i :: 0 <= i <= j && chain[i] == x
    decreases j
  {
    LinkedNumbers(chain, 0, j);
    if j > 0 {
      AncestorsInList(w, chain, j - 1, x);
      assert chain[j].parentHash == chain[j - 1].hash;
      assert Member(w, chain[j]) && Member(w, chain[j - 1]);
    } else if Ancestor(w, x, chain[0]) {
      AncestorNumber(w, x, chain[0]);
    }
  }

  lemma {:induction false} CommonAncestors(w: BlockTree, chain: seq<Head>, head: Head, p: nat)
    requires IsTree(w) && Linked(chain) && (forall b :: b in chain ==> Member(w, b)) && Member(w, head)
    requires p < |chain| - 1 && head.parentHash == chain[p].hash
    ensures Ancestor(w, chain[p], head)
    ensures forall x :: Ancestor(w, x, head) ==> x == head || x.number <= chain[p].number
    ensures head.number == chain[p].number + 1
    ensures Ancestor(w, head, chain[|chain| - 1]) <==> head in chain
  {
    assert Member(w, chain[p]) && w[head.parentHash] == chain[p];
    forall x | Ancestor(w, x, head) ensures x == head || x.number <= chain[p].number {
      if x != head {
        AncestorNumber(w, x, chain[p]);
      }
    }
    LinkedNumbers(chain, 0, p);
    AncestorsInList(w, chain, |chain| - 1, head);
  }

  /** Depth `d` is the fork distance from the tip to the new head exactly when the new head is not
      already in the list. When it is, the meeting point is the head itself and `d` counts one block
      more. */
  ghost predicate DepthMeaning(w: BlockTree, chain: seq<Head>, head: Head, d: nat)
    requires IsTree(w) && Member(w, head)
  {
    && chain != [] && Member(w, chain[|chain| - 1]) && d >= 1
    && (ForkDistance(w, chain[|chain| - 1], head, d) <==> head !in chain)
    && (head in chain ==> ForkDistance(w, chain[|chain| - 1], head, d - 1))
  }

  lemma {:induction false} DepthAtParent(w: BlockTree, chain: seq<Head>, head: Head, d: nat)
    requires IsTree(w) && Linked(chain) && (forall b :: b in chain ==> Member(w, b)) && Member(w, head)
    requires 1 <= d < |chain| && head.parentHash == chain[|chain| - 1 - d].hash
    ensures DepthMeaning(w, chain, head, d)
  {
    var tip := chain[|chain| - 1];
    var p := |chain| - 1 - d;
    LinkedNumbers(chain, p, |chain| - 1);
    assert tip in chain && Member(w, tip);
    CommonAncestors(w, chain, head, p);
    AncestorsInList(w, chain, |chain| - 1, head);
    assert Ancestor(w, chain[p], tip);
    if head in chain {
      assert Ancestor(w, head, tip) && Ancestor(w, head, head);
      assert LowestCommonAncestor(w, head, tip, head);
    } else {
      assert LowestCommonAncestor(w, chain[p], tip, head);
    }
  }

  lemma {:induction false} ListStaysInTree(w: BlockTree, limit: Limit, heads: seq<Head>)
    requires forall h :: h in heads ==> Member(w, h)
    ensures forall b :: b in ChainAfter(limit, heads) ==> Member(w, b)
  {
    if heads != [] {
      var chain := ChainAfter(limit, heads[..|heads| - 1]);
      ListStaysInTree(w, limit, heads[..|heads| - 1]);
      forall b | b in ChainAfter(limit, heads) ensures Member(w, b) {
        assert b in chain || b == heads[|heads| - 1];
      }
    }
  }

  /** On every run through a block tree, a known depth is the fork distance from the previous tip to
      the new head exactly when the new head is not already in the list. */
  lemma {:induction false} DepthIsForkDistance(w: BlockTree, target: string, n: nat, heads: seq<Head>, head: Head)
    requires n >= 2 && IsTree(w) && Member(w, head) && (forall h :: h in heads ==> Member(w, h))
    requires AnswerAfter(target, Bounded(n), heads, head).DepthKnown()
    ensures DepthMeaning(w, ChainAfter(Bounded(n), heads), head, AnswerAfter(target, Bounded(n), heads, head).Depth())
  {
    WindowInvariant(n, heads);
    ListStaysInTree(w, Bounded(n), heads);
    DepthOfStep(w, target, n, ChainAfter(Bounded(n), heads), head);
  }

  lemma {:induction false} DepthOfStep(w: BlockTree, target: string, n: nat, chain: seq<Head>, head: Head)
    requires n >= 2 && Linked(chain) && |chain| <= n && Answer(target, chain, head).DepthKnown()
    requires IsTree(w) && Member(w, head) && forall b :: b in chain ==> Member(w, b)
    ensures DepthMeaning(w, chain, head, Answer(target, chain, head).Depth())
  {
    KnownDepthStep(target, Bounded(n), chain, head);
    DepthAtParent(w, chain, head, Answer(target, chain, head).Depth());
  }

  /** In a block tree a known parent always has the right number: the tracker never reports it as
      a continuity gap. */
  lemma {:induction false} NoFalseGap(w: BlockTree, target: string, n: nat, heads: seq<Head>, head: Head)
    requires n >= 2 && IsTree(w) && Member(w, head) && (forall h :: h in heads ==> Member(w, h))
    ensures !AnswerAfter(target, Bounded(n), heads, head).gap.NotSuccessor?
  {
    WindowInvariant(n, heads);
    ListStaysInTree(w, Bounded(n), heads);
    if heads != [] {
      ParentFits(w, ChainAfter(Bounded(n), heads), head);
    }
  }

  lemma {:induction false} ParentFits(w: BlockTree, chain: seq<Head>, head: Head)
    requires IsTree(w) && Linked(chain) && (forall b :: b in chain ==> Member(w, b)) && Member(w, head)
    requires chain != []
    ensures !Classify(chain, head).BadParent?
  {
    var p := LastIndex(chain, head.parentHash);
    if p >= 0 {
      LinkedNumbers(chain, p, |chain| - 1);
      assert Member(w, chain[p]);
    }
  }
}
