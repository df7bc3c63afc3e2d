/** The execution observer's reconnect loop: a fresh reorg tracker per subscription, and its backoff. */
module Reconnect {
  import opened Common
  import opened Reorg

  /** A `time.Duration` that is not negative. */
  const MAX_INT64: nat := 0x7FFF_FFFF_FFFF_FFFF

  type Duration = n: nat | n <= MAX_INT64

  // ---------- The backoff ----------

  /** The delay after `delay` without a head in between. */
  function NextDelay(delay: Duration, maximum: Duration): (next: Duration) {
    if delay < maximum then
      if delay > maximum / 2 then maximum else delay * 2
    else delay
  }

  function Power2(k: nat): nat {
    if k == 0 then 1 else 2 * Power2(k - 1)
  }

  /** The closed form. */
  function DelayAfter(initial: nat, maximum: nat, k: nat): nat {
    if initial * Power2(k) <= maximum then initial * Power2(k) else maximum
  }

  // ---------- Rounds ----------

  /** What happens in one round of the loop: the heads delivered, the record of the last head that the
      recorder refuses if any, and how the round ends. */
  datatype Round = Round(
    heads: seq<Head>, refused: Option<nat>, cancelled: bool, failureRecorded: bool, waitCancelled: bool)

  /** The failed subscription was recorded and the wait was begun. */
  predicate Waits(r: Round) {
    !r.cancelled && r.failureRecorded
  }

  predicate Ends(r: Round) {
    !Waits(r) || r.waitCancelled
  }

  predicate AnyEnds(rounds: seq<Round>) {
    exists r :: r in rounds && Ends(r)
  }

  /** How many subscriptions in a row, up to this one, brought no head after an earlier delay. */
  function Failures(rounds: seq<Round>, i: nat): nat
    requires i < |rounds|
  {
    if rounds[i].heads != [] || i == 0 then 0 else Failures(rounds, i - 1) + 1
  }

  /** The delay after round `i`. */
  function ExpectedDelay(initial: nat, maximum: nat, rounds: seq<Round>, i: nat): nat
    requires i < |rounds|
  {
    DelayAfter(initial, maximum, Failures(rounds, i))
  }

  lemma {:induction false} Doubling(initial: nat, k: nat)
    ensures initial * Power2(k + 1) == 2 * (initial * Power2(k))
  {
  }

  /** One step of the loop doubles the closed form, for even and odd maxima alike. */
  lemma {:induction false} NextDelayIsNextPower(initial: Duration, maximum: Duration, k: nat)
    requires 0 < initial <= maximum
    ensures initial <= DelayAfter(initial, maximum, k) <= maximum
    ensures NextDelay(DelayAfter(initial, maximum, k), maximum) == DelayAfter(initial, maximum, k + 1)
  {
    Doubling(initial, k);
    PowerPositive(initial, k);
  }

  lemma {:induction false} PowerPositive(initial: nat, k: nat)
    ensures initial * Power2(k) >= initial
  {
    if k > 0 {
      PowerPositive(initial, k - 1);
      Doubling(initial, k - 1);
    } else {
      assert Power2(0) == 1;
    }
  }

  /** The delay stops growing exactly when the power has reached the maximum. */
  lemma {:induction false} DelayGrows(initial: Duration, maximum: Duration, j: nat, k: nat)
    requires 0 < initial <= maximum && j < k
    ensures DelayAfter(initial, maximum, j) <= DelayAfter(initial, maximum, k)
    ensures DelayAfter(initial, maximum, j) == DelayAfter(initial, maximum, k) <==> initial * Power2(j) >= maximum
  {
    Doubling(initial, k - 1);
    PowerPositive(initial, k - 1);
    if j < k - 1 {
      DelayGrows(initial, maximum, j, k - 1);
      PowerGrows(initial, j, k - 1);
    }
  }

  lemma {:induction false} PowerGrows(initial: nat, j: nat, k: nat)
    requires j <= k
    ensures initial * Power2(j) <= initial * Power2(k)
  {
    if j < k {
      PowerGrows(initial, j, k - 1);
      Doubling(initial, k - 1);
    }
  }

  // ---------- What one subscription records ----------

  datatype LogEntry =
    | HeadSeen(head: Head, continuity: bool)
    | ContinuityGap(gap: Gap)
    | ReorgSeen(reorg: ReorgObservation)
    | SubscriptionFailed

  function EntriesOf(head: Head, result: ReorgResult): seq<LogEntry> {
    [HeadSeen(head, result.continuity)]
    + (if result.gap.NoGap? then [] else [ContinuityGap(result.gap)])
    + (if result.reorg.None? then [] else [ReorgSeen(result.reorg.value)])
  }

  /** What the recorder accepts of a list of records. */
  function Taken(entries: seq<LogEntry>, refused: Option<nat>): seq<LogEntry> {
    if refused.Some? && refused.value < |entries| then entries[..refused.value] else entries
  }

  /** What the recorder refuses of the records of head `n`. */
  function RefusedOf(r: Round, n: nat): Option<nat> {
    if n + 1 == |r.heads| then r.refused else None
  }

  /** The records of head `n`; the tracker has seen the heads of this subscription only. */
  function HeadLog(target: string, limit: nat, r: Round, n: nat): seq<LogEntry>
    requires n < |r.heads|
  {
    Taken(EntriesOf(r.heads[n], AnswerAfter(target, Bounded(limit), r.heads[..n], r.heads[n])), RefusedOf(r, n))
  }

  /** The records of a subscription's first `n` heads. */
  function SubscriptionLog(target: string, limit: nat, r: Round, n: nat): seq<LogEntry>
    requires n <= |r.heads|
  {
    if n == 0 then [] else SubscriptionLog(target, limit, r, n - 1) + HeadLog(target, limit, r, n - 1)
  }

  function RoundLog(target: string, limit: nat, r: Round): seq<LogEntry> {
    SubscriptionLog(target, limit, r, |r.heads|) + if Waits(r) then [SubscriptionFailed] else []
  }

  /** The records of all rounds up to the one that ends the loop. */
  function LogOf(target: string, limit: nat, rounds: seq<Round>): seq<LogEntry> {
    if rounds == [] then [] else
    var before, last := rounds[..|rounds| - 1], rounds[|rounds| - 1];
    LogOf(target, limit, before) + if AnyEnds(before) then [] else RoundLog(target, limit, last)
  }

  /** How many waits are begun. */
  function WaitsOf(rounds: seq<Round>): nat {
    if rounds == [] then 0 else
    var before, last := rounds[..|rounds| - 1], rounds[|rounds| - 1];
    WaitsOf(before) + if !AnyEnds(before) && Waits(last) then 1 else 0
  }

  datatype LoopEnd = Running | Stopped | RecorderFailed

  function OutcomeOf(rounds: seq<Round>): LoopEnd {
    if rounds == [] then Running else
    var before, last := rounds[..|rounds| - 1], rounds[|rounds| - 1];
    if AnyEnds(before) then OutcomeOf(before)
    else if !Ends(last) then Running
    else if last.cancelled || last.failureRecorded then Stopped
    else RecorderFailed
  }

  /** After the round that ends the loop nothing more happens. */
  lemma {:induction false} NothingAfterEnd(target: string, limit: nat, rounds: seq<Round>, n: nat)
    requires n <= |rounds| && AnyEnds(rounds[..n])
    ensures LogOf(target, limit, rounds) == LogOf(target, limit, rounds[..n])
    ensures WaitsOf(rounds) == WaitsOf(rounds[..n]) && OutcomeOf(rounds) == OutcomeOf(rounds[..n])
  {
    if n < |rounds| {
      var before := rounds[..|rounds| - 1];
      assert before[..n] == rounds[..n];
      var r :| r in rounds[..n] && Ends(r);
      assert r in before;
      NothingAfterEnd(target, limit, before, n);
    } else {
      assert rounds[..n] == rounds;
    }
  }

  /** The records of one head, until one is refused. */
  method Deliver(head: Head, result: ReorgResult, refused: Option<nat>) returns (log: seq<LogEntry>, ok: bool)
    ensures ok <==> refused.None? || refused.value >= |EntriesOf(head, result)|
    ensures log == if ok then EntriesOf(head, result) else EntriesOf(head, result)[..refused.value]
  {
    if refused == Some(0) {
      return [], false;
    }
    log := [HeadSeen(head, result.continuity)];
    if result.gap != NoGap {
      if refused == Some(|log|) {
        return log, false;
      }
      log := log + [ContinuityGap(result.gap)];
    }
    if result.reorg.Some? {
      if refused == Some(|log|) {
        return log, false;
      }
      log := log + [ReorgSeen(result.reorg.value)];
    }
    ok := true;
  }

  /** Head `n` is observed and its records are delivered. */
  method ReceiveHead(tracker: ReorgTracker, r: Round, n: nat) returns (log: seq<LogEntry>, ok: bool)
    requires n < |r.heads| && tracker.canonical == ChainAfter(Bounded(tracker.historyLimit), r.heads[..n])
    modifies tracker
    ensures tracker.canonical == ChainAfter(Bounded(tracker.historyLimit), r.heads[..n + 1])
    ensures log == HeadLog(tracker.target, tracker.historyLimit, r, n)
    ensures !ok ==> n + 1 == |r.heads|
  {
    OneMoreHead(tracker.historyLimit, r.heads, n);
    var result := tracker.Observe(r.heads[n]);
    log, ok := Deliver(r.heads[n], result, RefusedOf(r, n));
  }

  /** A subscription until it fails, is cancelled, or the recorder refuses a record. */
  method Subscribe(tracker: ReorgTracker, r: Round) returns (log: seq<LogEntry>, receivedHead: bool)
    requires tracker.canonical == []
    modifies tracker
    ensures log == SubscriptionLog(tracker.target, tracker.historyLimit, r, |r.heads|)
    ensures receivedHead <==> r.heads != []
  {
    log, receivedHead := [], false;
    for n := 0 to |r.heads|
      invariant log == SubscriptionLog(tracker.target, tracker.historyLimit, r, n)
      invariant tracker.canonical == ChainAfter(Bounded(tracker.historyLimit), r.heads[..n])
      invariant receivedHead <==> n > 0
    {
      receivedHead := true;
      var records, ok := ReceiveHead(tracker, r, n);
      log := log + records;
      if !ok {
        return;
      }
    }
  }

  lemma {:induction false} OneMoreHead(limit: nat, heads: seq<Head>, n: nat)
    requires n < |heads|
    ensures ChainAfter(Bounded(limit), heads[..n + 1]) ==
              NextChain(Bounded(limit), ChainAfter(Bounded(limit), heads[..n]), heads[n])
  {
    assert heads[..n + 1][..n] == heads[..n];
  }

  // ---------- The loop ----------

  /** The wait after a failed subscription, and the delay for the next. */
  method Backoff(delay: Duration, receivedHead: bool, initial: Duration, maximum: Duration, ghost k: nat)
    returns (waited: Duration, next: Duration)
    requires 0 < initial <= maximum && delay == DelayAfter(initial, maximum, k)
    ensures waited == DelayAfter(initial, maximum, if receivedHead then 0 else k) && initial <= waited <= maximum
    ensures next == DelayAfter(initial, maximum, if receivedHead then 1 else k + 1)
  {
    NextDelayIsNextPower(initial, maximum, if receivedHead then 0 else k);
    waited := delay;
    if receivedHead {
      waited := initial;
    }
    next := waited;
    if next < maximum {
      if next > maximum / 2 {
        next := maximum;
      } else {
        next := next * 2;
      }
    }
  }

  lemma {:induction false} OneMoreRound(target: string, limit: nat, rounds: seq<Round>, n: nat)
    requires n < |rounds| && !AnyEnds(rounds[..n])
    ensures LogOf(target, limit, rounds[..n + 1]) ==
              LogOf(target, limit, rounds[..n]) + RoundLog(target, limit, rounds[n])
    ensures WaitsOf(rounds[..n + 1]) == WaitsOf(rounds[..n]) + if Waits(rounds[n]) then 1 else 0
    ensures AnyEnds(rounds[..n + 1]) <==> Ends(rounds[n])
    ensures OutcomeOf(rounds[..n + 1]) ==
              if !Ends(rounds[n]) then Running
              else if rounds[n].cancelled || rounds[n].failureRecorded then Stopped else RecorderFailed
  {
    assert rounds[..n + 1][..n] == rounds[..n];
    assert rounds[n] in rounds[..n + 1] && forall r :: r in rounds[..n + 1] ==> r in rounds[..n] || r == rounds[n];
  }

  /** Every wait is the expected one, within the configured bounds. */
  ghost predicate DelaysExpected(delays: seq<Duration>, initial: nat, maximum: nat, rounds: seq<Round>) {
    && |delays| <= |rounds|
    && forall i :: 0 <= i < |delays| ==>
         delays[i] == ExpectedDelay(initial, maximum, rounds, i) && initial <= delays[i] <= maximum
  }

  lemma {:induction false} OneMoreDelay(delays: seq<Duration>, waited: Duration, initial: nat, maximum: nat,
                                        rounds: seq<Round>)
    requires DelaysExpected(delays, initial, maximum, rounds) && |delays| < |rounds|
    requires waited == ExpectedDelay(initial, maximum, rounds, |delays|) && initial <= waited <= maximum
    ensures DelaysExpected(delays + [waited], initial, maximum, rounds)
  {
  }

  /** The power the next wait is to use. */
  function DuePower(rounds: seq<Round>, n: nat): nat
    requires n <= |rounds|
  {
    if n == 0 then 0 else Failures(rounds, n - 1) + 1
  }

  /** One round: a subscription with a fresh tracker, the record of its failure, and the wait after it. */
  method ConnectOnce(target: string, historyLimit: nat, initial: Duration, maximum: Duration,
                     rounds: seq<Round>, n: nat, delay: Duration)
    returns (records: seq<LogEntry>, waited: Option<Duration>, next: Duration)
    requires target != "" && historyLimit >= 2 && 0 < initial <= maximum && n < |rounds|
    requires delay == DelayAfter(initial, maximum, DuePower(rounds, n))
    ensures records == RoundLog(target, historyLimit, rounds[n])
    ensures waited.Some? <==> Waits(rounds[n])
    ensures waited.Some? ==>
              waited.value == ExpectedDelay(initial, maximum, rounds, n) && initial <= waited.value <= maximum
    ensures waited.Some? ==> next == DelayAfter(initial, maximum, DuePower(rounds, n + 1))
  {
    var tracker := ReorgTracker.NewReorgTracker(target, historyLimit);
    var receivedHead;
    records, receivedHead := Subscribe(tracker.value, rounds[n]);
    if rounds[n].cancelled || !rounds[n].failureRecorded {
      return records, None, delay;
    }
    records := records + [SubscriptionFailed];
    var wait;
    wait, next := Backoff(delay, receivedHead, initial, maximum, DuePower(rounds, n));
    waited := Some(wait);
  }

  /** For any sequence of rounds: every wait begun has the closed form, what is recorded is each
      subscription's own records, without history from before, and the loop ends with the first round that
      is cancelled or whose failure cannot be recorded. */
  method RunTarget(target: string, historyLimit: nat, initial: Duration, maximum: Duration, rounds: seq<Round>)
    returns (log: seq<LogEntry>, delays: seq<Duration>, outcome: LoopEnd)
    requires target != "" && historyLimit >= 2 && 0 < initial <= maximum
    ensures |delays| == WaitsOf(rounds) && DelaysExpected(delays, initial, maximum, rounds)
    ensures log == LogOf(target, historyLimit, rounds) && outcome == OutcomeOf(rounds)
  {
    log, delays := [], [];
    var reconnectDelay := initial;
    for n := 0 to |rounds|
      invariant !AnyEnds(rounds[..n]) && OutcomeOf(rounds[..n]) == Running
      invariant |delays| == n == WaitsOf(rounds[..n]) && log == LogOf(target, historyLimit, rounds[..n])
      invariant DelaysExpected(delays, initial, maximum, rounds)
      invariant reconnectDelay == DelayAfter(initial, maximum, DuePower(rounds, n))
    {
      var records, waited;
      records, waited, reconnectDelay := ConnectOnce(target, historyLimit, initial, maximum, rounds, n, reconnectDelay);
      OneMoreRound(target, historyLimit, rounds, n);
      log := log + records;
      if waited.Some? {
        OneMoreDelay(delays, waited.value, initial, maximum, rounds);
        delays := delays + [waited.value];
      }
      if waited.None? || rounds[n].waitCancelled {
        NothingAfterEnd(target, historyLimit, rounds, n + 1);
        outcome := if rounds[n].cancelled || rounds[n].failureRecorded then Stopped else RecorderFailed;
        return;
      }
    }
    assert rounds[..|rounds|] == rounds;
    outcome := Running;
  }

  // ---------- What a run of the loop says ----------

  /** A head's records: the head with its continuity, then its gap, then its reorg. */
  lemma {:induction false} EntriesMeaning(head: Head, result: ReorgResult)
    ensures var entries := EntriesOf(head, result);
            && 1 <= |entries| <= 3 && entries[0] == HeadSeen(head, result.continuity)
            && (result.gap != NoGap ==> |entries| > 1 && entries[1] == ContinuityGap(result.gap))
            && (result.reorg.Some? ==> |entries| > 1 && entries[|entries| - 1] == ReorgSeen(result.reorg.value))
            && (forall e :: e in entries && e.ContinuityGap? ==> result.gap == e.gap && e.gap != NoGap)
            && (forall e :: e in entries && e.ReorgSeen? ==> result.reorg == Some(e.reorg))
            && SubscriptionFailed !in entries
            && forall i :: 1 <= i < |entries| ==> !entries[i].HeadSeen?
  {
  }

  /** The heads that a log tells of, in order. */
  function HeadsIn(log: seq<LogEntry>): seq<Head> {
    if log == [] then [] else HeadsIn(log[..|log| - 1]) + match log[|log| - 1]
                                                          case HeadSeen(head, _) => [head]
                                                          case _ => []
  }

  function FailuresIn(log: seq<LogEntry>): nat {
    if log == [] then 0 else FailuresIn(log[..|log| - 1]) + if log[|log| - 1].SubscriptionFailed? then 1 else 0
  }

  lemma {:induction false} LogAppend(a: seq<LogEntry>, b: seq<LogEntry>)
    ensures HeadsIn(a + b) == HeadsIn(a) + HeadsIn(b) && FailuresIn(a + b) == FailuresIn(a) + FailuresIn(b)
  {
    if b == [] {
      assert a + b == a;
    } else {
      LogAppend(a, b[..|b| - 1]);
      assert (a + b)[..|a + b| - 1] == a + b[..|b| - 1];
    }
  }

  /** The heads of a subscription whose record was taken: all, unless the last one was refused. */
  function HeadsTaken(r: Round): seq<Head> {
    if r.heads != [] && r.refused == Some(0) then r.heads[..|r.heads| - 1] else r.heads
  }

  lemma {:induction false} OneHeadTold(entries: seq<LogEntry>, head: Head, k: nat)
    requires k <= |entries| && entries != [] && entries[0].HeadSeen? && entries[0].head == head
    requires SubscriptionFailed !in entries && forall i :: 1 <= i < |entries| ==> !entries[i].HeadSeen?
    ensures HeadsIn(entries[..k]) == (if k == 0 then [] else [head]) && FailuresIn(entries[..k]) == 0
  {
    if k > 0 {
      OneHeadTold(entries, head, k - 1);
      assert entries[..k][..k - 1] == entries[..k - 1];
    }
  }

  lemma {:induction false} HeadTold(target: string, limit: nat, r: Round, n: nat)
    requires n < |r.heads|
    ensures FailuresIn(HeadLog(target, limit, r, n)) == 0
    ensures HeadsIn(HeadLog(target, limit, r, n)) ==
              if n + 1 == |r.heads| && r.refused == Some(0) then [] else [r.heads[n]]
  {
    var result := AnswerAfter(target, Bounded(limit), r.heads[..n], r.heads[n]);
    var entries, refused := EntriesOf(r.heads[n], result), RefusedOf(r, n);
    EntriesMeaning(r.heads[n], result);
    OneHeadTold(entries, r.heads[n], if refused.Some? && refused.value < |entries| then refused.value else |entries|);
    assert entries[..|entries|] == entries;
  }

  lemma {:induction false} OneMoreTold(target: string, limit: nat, r: Round, n: nat)
    requires n < |r.heads|
    ensures FailuresIn(SubscriptionLog(target, limit, r, n + 1)) == FailuresIn(SubscriptionLog(target, limit, r, n))
    ensures HeadsIn(SubscriptionLog(target, limit, r, n + 1)) ==
              HeadsIn(SubscriptionLog(target, limit, r, n))
              + if n + 1 == |r.heads| && r.refused == Some(0) then [] else [r.heads[n]]
  {
    HeadTold(target, limit, r, n);
    LogAppend(SubscriptionLog(target, limit, r, n), HeadLog(target, limit, r, n));
  }

  /** The heads up to `n`, told one after the other. */
  ghost predicate ToldUpTo(log: seq<LogEntry>, heads: seq<Head>) {
    HeadsIn(log) == heads && FailuresIn(log) == 0
  }

  lemma {:induction false} ToldStep(before: seq<LogEntry>, after: seq<LogEntry>, heads: seq<Head>, n: nat, told: bool)
    requires n < |heads| && ToldUpTo(before, heads[..n]) && FailuresIn(after) == FailuresIn(before)
    requires HeadsIn(after) == HeadsIn(before) + if told then [heads[n]] else []
    ensures ToldUpTo(after, if told then heads[..n + 1] else heads[..n])
  {
    assert heads[..n + 1] == heads[..n] + [heads[n]];
  }

  lemma {:induction false} HeadsTold(target: string, limit: nat, r: Round, n: nat)
    requires n < |r.heads|
    ensures ToldUpTo(SubscriptionLog(target, limit, r, n), r.heads[..n])
  {
    if n == 0 {
      assert r.heads[..n] == [];
    } else {
      var k := n - 1;
      HeadsTold(target, limit, r, k);
      OneMoreTold(target, limit, r, k);
      ToldStep(SubscriptionLog(target, limit, r, k), SubscriptionLog(target, limit, r, k + 1), r.heads, k, true);
    }
  }

  lemma {:induction false} AllHeadsTold(target: string, limit: nat, r: Round)
    ensures ToldUpTo(SubscriptionLog(target, limit, r, |r.heads|), HeadsTaken(r))
  {
    if r.heads != [] {
      var n := |r.heads| - 1;
      HeadsTold(target, limit, r, n);
      OneMoreTold(target, limit, r, n);
      ToldStep(SubscriptionLog(target, limit, r, n), SubscriptionLog(target, limit, r, n + 1), r.heads, n,
               r.refused != Some(0));
      assert r.heads[..n + 1] == r.heads;
    }
  }

  /** A round's log tells of the heads of its subscription, and of its failure if there is a wait. */
  lemma {:induction false} RoundMeaning(target: string, limit: nat, r: Round)
    ensures HeadsIn(RoundLog(target, limit, r)) == HeadsTaken(r)
    ensures FailuresIn(RoundLog(target, limit, r)) == if !r.cancelled && r.failureRecorded then 1 else 0
  {
    AllHeadsTold(target, limit, r);
    var failed := if Waits(r) then [SubscriptionFailed] else [];
    LogAppend(SubscriptionLog(target, limit, r, |r.heads|), failed);
    assert Waits(r) ==> failed[..0] == [];
  }

  /** The loop goes on after the round. */
  predicate GoesOn(r: Round) {
    !r.cancelled && r.failureRecorded && !r.waitCancelled
  }

  /** The first `n` rounds go on, and all of them are played, or one more that ends the loop. */
  ghost predicate Played(rounds: seq<Round>, n: nat) {
    n <= |rounds| && (forall i :: 0 <= i < n ==> GoesOn(rounds[i])) && (n < |rounds| ==> !GoesOn(rounds[n]))
  }

  function AllHeads(rounds: seq<Round>): seq<Head> {
    if rounds == [] then [] else AllHeads(rounds[..|rounds| - 1]) + HeadsTaken(rounds[|rounds| - 1])
  }

  /** What rounds that all go on have left behind. */
  lemma {:induction false} GoingOn(target: string, limit: nat, rounds: seq<Round>)
    requires forall i :: 0 <= i < |rounds| ==> GoesOn(rounds[i])
    ensures !AnyEnds(rounds) && OutcomeOf(rounds) == Running && WaitsOf(rounds) == |rounds|
    ensures HeadsIn(LogOf(target, limit, rounds)) == AllHeads(rounds)
    ensures FailuresIn(LogOf(target, limit, rounds)) == |rounds|
  {
    if rounds != [] {
      var before, last := rounds[..|rounds| - 1], rounds[|rounds| - 1];
      GoingOn(target, limit, before);
      RoundMeaning(target, limit, last);
      LogAppend(LogOf(target, limit, before), RoundLog(target, limit, last));
    }
  }

  /** What the round that ends the loop adds. */
  lemma {:induction false} EndingRound(target: string, limit: nat, rounds: seq<Round>, n: nat)
    requires n < |rounds| && Played(rounds, n)
    ensures OutcomeOf(rounds) == if !rounds[n].cancelled && !rounds[n].failureRecorded then RecorderFailed else Stopped
    ensures WaitsOf(rounds) == n + if !rounds[n].cancelled && rounds[n].failureRecorded then 1 else 0
    ensures LogOf(target, limit, rounds) == LogOf(target, limit, rounds[..n]) + RoundLog(target, limit, rounds[n])
  {
    GoingOn(target, limit, rounds[..n]);
    OneMoreRound(target, limit, rounds, n);
    NothingAfterEnd(target, limit, rounds, n + 1);
  }

  /** The loop ends with the first round that does not go on: with an error only if a failed subscription could
      not be recorded. There is one wait for each recorded failure, and every head of the rounds played is told. */
  lemma {:induction false} LoopMeaning(target: string, limit: nat, rounds: seq<Round>, n: nat)
    requires Played(rounds, n)
    ensures n == |rounds| ==> OutcomeOf(rounds) == Running && WaitsOf(rounds) == n
    ensures n < |rounds| ==>
              && OutcomeOf(rounds) ==
                   (if !rounds[n].cancelled && !rounds[n].failureRecorded then RecorderFailed else Stopped)
              && WaitsOf(rounds) == n + (if !rounds[n].cancelled && rounds[n].failureRecorded then 1 else 0)
    ensures HeadsIn(LogOf(target, limit, rounds)) ==
              AllHeads(rounds[..n]) + if n < |rounds| then HeadsTaken(rounds[n]) else []
    ensures FailuresIn(LogOf(target, limit, rounds)) == WaitsOf(rounds)
  {
    GoingOn(target, limit, rounds[..n]);
    if n == |rounds| {
      assert rounds[..n] == rounds;
    } else {
      EndingRound(target, limit, rounds, n);
      RoundMeaning(target, limit, rounds[n]);
      LogAppend(LogOf(target, limit, rounds[..n]), RoundLog(target, limit, rounds[n]));
    }
  }

  /** A wait is the initial one after a head or at first, and otherwise twice the one before, up to the maximum. */
  lemma {:induction false} DelayMeaning(initial: Duration, maximum: Duration, rounds: seq<Round>, i: nat)
    requires 0 < initial <= maximum && i < |rounds|
    ensures rounds[i].heads != [] || i == 0 ==> ExpectedDelay(initial, maximum, rounds, i) == initial
    ensures rounds[i].heads == [] && i > 0 ==>
              var before := ExpectedDelay(initial, maximum, rounds, i - 1);
              ExpectedDelay(initial, maximum, rounds, i) == if 2 * before <= maximum then 2 * before else maximum
  {
    assert initial * Power2(0) == initial;
    if i > 0 {
      var k := Failures(rounds, i - 1);
      Doubling(initial, k);
      PowerPositive(initial, k);
    }
  }
}
