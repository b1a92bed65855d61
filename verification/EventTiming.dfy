/**
 How long retries wait, and what goes wrong with several dispatchers
 (packages/core/events/dispatch.ts).
 */
module EventTiming {
  import opened Wrappers
  import opened Events

  // ---------------------------------------------------------------- when retries wait

  ghost predicate IsFailure(e: Entry) {
    e.Settled? && e.status.Failed?
  }

  function DueAt(e: Entry): int {
    e.at + BackoffMs(e.attempt)
  }

  /** Every handler run that follows a failure of the same delivery starts at least the backoff later. */
  ghost predicate RetriesWait(log: seq<Entry>) {
    forall i, j :: 0 <= i < j < |log| && IsFailure(log[i]) && log[j].Started? && log[i].key == log[j].key
      ==> log[j].at >= DueAt(log[i])
  }

  /** A winning re-claim before the row's own `nextAttemptAt`, which the write does not look at. */
  ghost predicate Early(s: State, step: Step) {
    && step.Claim? && PcOf(s, step.w).Seen?
    && var Seen(k, existing, _) := PcOf(s, step.w);
       && ClaimWins(s, k, existing) && existing.Some?
       && s.rows[k].nextAttemptAt.Some? && s.now < s.rows[k].nextAttemptAt.value
  }

  ghost predicate NeverEarly(tr: seq<Step>) {
    tr == [] || (NeverEarly(tr[..|tr| - 1]) && !Early(Exec(tr[..|tr| - 1]), tr[|tr| - 1]))
  }

  /** A past failure's backoff has either elapsed or is still recorded on the failed row. */
  ghost predicate BackoffKept(s: State, e: Entry) {
    s.now >= DueAt(e)
    || (e.key in s.rows && s.rows[e.key].status.Failed? && s.rows[e.key].nextAttemptAt.Some?
        && s.rows[e.key].nextAttemptAt.value >= DueAt(e))
  }

  /** The row's `nextAttemptAt` was written by a failure on the log. */
  ghost predicate Recorded(log: seq<Entry>, k: Key, next: Option<int>) {
    exists i :: 0 <= i < |log| && IsFailure(log[i]) && log[i].key == k && next == Some(DueAt(log[i]))
  }

  ghost predicate WaitInv(s: State) {
    && Inv(s)
    && (forall k :: k in s.rows && s.rows[k].status.Failed? ==> Recorded(s.log, k, s.rows[k].nextAttemptAt))
    && (RetriesWait(s.log) ==> forall i :: 0 <= i < |s.log| && IsFailure(s.log[i]) ==> BackoffKept(s, s.log[i]))
  }

  /** The failures of the delivery that this entry starts have all waited. */
  ghost predicate Waited(log: seq<Entry>, e: Entry) {
    e.Started? ==> forall i :: 0 <= i < |log| && IsFailure(log[i]) && log[i].key == e.key ==> e.at >= DueAt(log[i])
  }

  lemma RetriesWaitAppend(log: seq<Entry>, e: Entry)
    ensures RetriesWait(log + [e]) <==> RetriesWait(log) && Waited(log, e)
  {
    var more := log + [e];
    assert forall i :: 0 <= i < |log| ==> more[i] == log[i];
    if RetriesWait(more) && e.Started? {
      forall i | 0 <= i < |log| && IsFailure(log[i]) && log[i].key == e.key ensures e.at >= DueAt(log[i]) {
        assert more[|log|] == e;
      }
    }
  }

  lemma RecordedAppend(log: seq<Entry>, e: Entry, k: Key, next: Option<int>)
    requires Recorded(log, k, next) || (IsFailure(e) && e.key == k && next == Some(DueAt(e)))
    ensures Recorded(log + [e], k, next)
  {
    if Recorded(log, k, next) {
      var i :| 0 <= i < |log| && IsFailure(log[i]) && log[i].key == k && next == Some(DueAt(log[i]));
      assert (log + [e])[i] == log[i];
    } else {
      assert (log + [e])[|log|] == e;
    }
  }

  /** A winning claim waited for every failure before it, unless it came early. */
  lemma ClaimWaits(s: State, w: nat, e: Entry)
    requires WaitInv(s) && RetriesWait(s.log) && PcOf(s, w).Seen?
    requires var Seen(k, existing, _) := PcOf(s, w);
             ClaimWins(s, k, existing) && e == Started(k, ClaimedAttempt(existing), s.now)
    ensures Waited(s.log, e) <==> !Early(s, Claim(w))
  {
    var Seen(k, existing, _) := PcOf(s, w);
    forall i | 0 <= i < |s.log| && IsFailure(s.log[i]) && s.log[i].key == k && !Early(s, Claim(w))
      ensures e.at >= DueAt(s.log[i])
    {
      assert BackoffKept(s, s.log[i]);
    }
    if Early(s, Claim(w)) {
      assert Recorded(s.log, k, s.rows[k].nextAttemptAt);
    }
  }

  lemma WaitClaim(s: State, w: nat)
    requires WaitInv(s) && PcOf(s, w).Seen?
    ensures var t := Next(s, Claim(w));
            WaitInv(t) && (RetriesWait(t.log) <==> RetriesWait(s.log) && !Early(s, Claim(w)))
  {
    var t := Next(s, Claim(w));
    InvNext(s, Claim(w));
    var Seen(k, existing, todo) := PcOf(s, w);
    if ClaimWins(s, k, existing) {
      var e := Started(k, ClaimedAttempt(existing), s.now);
      assert t.log == s.log + [e];
      RetriesWaitAppend(s.log, e);
      if RetriesWait(s.log) {
        ClaimWaits(s, w, e);
      }
      forall k' | k' in t.rows && t.rows[k'].status.Failed? ensures Recorded(t.log, k', t.rows[k'].nextAttemptAt) {
        RecordedAppend(s.log, e, k', s.rows[k'].nextAttemptAt);
      }
      forall i | 0 <= i < |t.log| && IsFailure(t.log[i]) && RetriesWait(t.log) ensures BackoffKept(t, t.log[i]) {
        assert BackoffKept(s, s.log[i]);
      }
    } else {
      KeepsWaiting(s, t);
    }
  }

  /** A step that leaves the table and the log alone, and does not turn the clock back. */
  lemma KeepsWaiting(s: State, t: State)
    requires WaitInv(s) && Inv(t) && t.rows == s.rows && t.log == s.log && t.now >= s.now
    ensures WaitInv(t)
  {
    forall i | 0 <= i < |t.log| && IsFailure(t.log[i]) && RetriesWait(t.log) ensures BackoffKept(t, t.log[i]) {
      assert BackoffKept(s, s.log[i]);
    }
  }

  lemma WaitSettle(s: State, w: nat, ok: bool)
    requires WaitInv(s) && PcOf(s, w).Running?
    ensures var t := Next(s, Settle(w, ok));
            WaitInv(t) && (RetriesWait(t.log) <==> RetriesWait(s.log))
  {
    var t := Next(s, Settle(w, ok));
    InvNext(s, Settle(w, ok));
    assert PcOk(s, s.pcs[w]);
    var Running(k, a, todo) := PcOf(s, w);
    var e := Settled(k, a, Outcome(a, ok), s.now);
    assert t.log == s.log + [e];
    RetriesWaitAppend(s.log, e);
    forall k' | k' in t.rows && t.rows[k'].status.Failed? ensures Recorded(t.log, k', t.rows[k'].nextAttemptAt) {
      RecordedAppend(s.log, e, k', t.rows[k'].nextAttemptAt);
    }
    forall i | 0 <= i < |t.log| && IsFailure(t.log[i]) && RetriesWait(t.log) ensures BackoffKept(t, t.log[i]) {
      if i < |s.log| {
        assert BackoffKept(s, s.log[i]);
      }
    }
  }

  lemma WaitNext(s: State, step: Step)
    requires WaitInv(s)
    ensures WaitInv(Next(s, step))
    ensures RetriesWait(Next(s, step).log) <==> RetriesWait(s.log) && !Early(s, step)
  {
    if Enabled(s, step) {
      if step.Claim? {
        WaitClaim(s, step.w);
      } else if step.Settle? {
        WaitSettle(s, step.w, step.ok);
      } else {
        InvNext(s, step);
        KeepsWaiting(s, Next(s, step));
      }
    }
  }

  lemma {:induction false} WaitRun(tr: seq<Step>)
    ensures WaitInv(Exec(tr)) && (RetriesWait(Exec(tr).log) <==> NeverEarly(tr))
  {
    if tr != [] {
      WaitRun(tr[..|tr| - 1]);
      WaitNext(Exec(tr[..|tr| - 1]), tr[|tr| - 1]);
    }
  }

  /** Exact condition, for every interleaving: retries wait out their backoff iff no winning re-claim came early. */
  lemma RetriesWaitIffNeverEarly(tr: seq<Step>)
    ensures RetriesWait(Exec(tr).log) <==> NeverEarly(tr)
  {
    WaitRun(tr);
  }

  // ---------------------------------------------------------------- one dispatcher

  ghost predicate By(w: nat, step: Step) {
    step.Tick? || step.w == w
  }

  ghost predicate OnlyBy(w: nat, tr: seq<Step>) {
    forall i :: 0 <= i < |tr| ==> By(w, tr[i])
  }

  ghost predicate TodoDue(s: State, todo: seq<Key>) {
    Distinct(todo) && forall k :: k in todo ==> Pending(s.rows, s.now, k)
  }

  /** What a lone dispatcher knows: its unclaimed keys are still due, exactly as it listed them. */
  ghost predicate Due(s: State, pc: Pc) {
    match pc
    case Idle => true
    case Batch(todo) => TodoDue(s, todo)
    case Seen(k, existing, todo) =>
      TodoDue(s, todo) && k !in todo && Pending(s.rows, s.now, k) && existing == Lookup(s.rows, k)
    case Running(k, _, todo) => TodoDue(s, todo) && k !in todo
  }

  ghost predicate LoneInv(s: State, w: nat) {
    && WaitInv(s)
    && (forall v :: v in s.pcs ==> v == w)
    && Due(s, PcOf(s, w))
  }

  lemma DueNext(s: State, w: nat, step: Step)
    requires Due(s, PcOf(s, w)) && By(w, step)
    ensures Due(Next(s, step), PcOf(Next(s, step), w))
  {
    if Enabled(s, step) && step.Read? {
      var todo := PcOf(s, w).todo;
      assert forall k :: k in todo[1..] ==> k in todo;
    }
  }

  lemma LoneNext(s: State, w: nat, step: Step)
    requires LoneInv(s, w) && By(w, step)
    ensures LoneInv(Next(s, step), w) && !Early(s, step)
  {
    WaitNext(s, step);
    DueNext(s, w, step);
  }

  lemma {:induction false} LoneRunFrom(s: State, w: nat, tr: seq<Step>)
    requires LoneInv(s, w) && OnlyBy(w, tr)
    ensures LoneInv(ExecFrom(s, tr), w) && (RetriesWait(s.log) ==> RetriesWait(ExecFrom(s, tr).log))
  {
    if tr != [] {
      var front := ExecFrom(s, tr[..|tr| - 1]);
      LoneRunFrom(s, w, tr[..|tr| - 1]);
      LoneNext(front, w, tr[|tr| - 1]);
      WaitNext(front, tr[|tr| - 1]);
    }
  }

  lemma {:induction false} OneDispatcherNeverEarly(w: nat, tr: seq<Step>)
    requires OnlyBy(w, tr)
    ensures NeverEarly(tr)
  {
    if tr != [] {
      OneDispatcherNeverEarly(w, tr[..|tr| - 1]);
      LoneRunFrom(INIT, w, tr[..|tr| - 1]);
      LoneNext(Exec(tr[..|tr| - 1]), w, tr[|tr| - 1]);
    }
  }

  /** So with one dispatcher, crashes included, every retry waits out the backoff of the failure before it. */
  lemma OneDispatcherWaits(w: nat, tr: seq<Step>)
    requires OnlyBy(w, tr)
    ensures RetriesWait(Exec(tr).log)
  {
    OneDispatcherNeverEarly(w, tr);
    RetriesWaitIffNeverEarly(tr);
  }

  lemma {:induction false} OneDispatcherNeverStale(w: nat, tr: seq<Step>)
    requires OnlyBy(w, tr)
    ensures NeverStale(tr)
  {
    if tr != [] {
      OneDispatcherNeverStale(w, tr[..|tr| - 1]);
      LoneRunFrom(INIT, w, tr[..|tr| - 1]);
    }
  }

  /** ... and runs each delivery at most five times, as attempts 1, 2, 3, ... */
  lemma OneDispatcherRunsAtMostFive(w: nat, tr: seq<Step>, k: Key)
    requires OnlyBy(w, tr)
    ensures |RunsOf(Exec(tr).log, k)| <= MAX_ATTEMPTS && Consecutive(RunsOf(Exec(tr).log, k))
  {
    OneDispatcherNeverStale(w, tr);
    AtMostFiveRuns(tr, k);
    AttemptsCountRunsIffNeverStale(tr);
  }

  // ---------------------------------------------------------------- several dispatchers

  const KEY := Key("event", "consumer")

  function Workers(n: nat): (r: set<nat>)
    ensures forall v :: v in r <==> 0 <= v <= n
  {
    if n == 0 then {0} else Workers(n - 1) + {n}
  }

  /*
   The unbounded run. All of the dispatchers 0..n list one new event before anyone claims it.
   Dispatcher 0 claims, and fails; dispatchers 1..n then all read that failed row; and each in
   turn re-claims it, writing attempt 2 from its stale read, and fails.
   */

  function Listed(n: nat): State {
    State(map[], map v | v in Workers(n) :: Batch([KEY]), 0, [])
  }

  const FAILED_ONCE := Row(Failed, 1, Some(BackoffMs(1)), None)
  const FAILED_TWICE := Row(Failed, 2, Some(BackoffMs(2)), None)
  const FIRST_TRY := [Started(KEY, 1, 0), Settled(KEY, 1, Failed, 0)]

  /** Dispatchers 1..r have read the row after its first failure, the others have not. */
  function AfterReads(n: nat, r: nat): State {
    State(map[KEY := FAILED_ONCE],
          map v | v in Workers(n) :: if v == 0 then Batch([]) else if v <= r then Seen(KEY, Some(FAILED_ONCE), []) else Batch([KEY]),
          0, FIRST_TRY)
  }

  function Retried(c: nat): seq<Entry> {
    if c == 0 then [] else Retried(c - 1) + [Started(KEY, 2, 0)] + [Settled(KEY, 2, Failed, 0)]
  }

  /** Dispatchers 1..c have each re-claimed and failed in turn. */
  function AfterRetries(n: nat, c: nat): State {
    State(map[KEY := if c == 0 then FAILED_ONCE else FAILED_TWICE],
          map v | v in Workers(n) :: if v <= c then Batch([]) else Seen(KEY, Some(FAILED_ONCE), []),
          0, FIRST_TRY + Retried(c))
  }

  lemma {:induction false} ReachListed(n: nat) returns (tr: seq<Step>)
    ensures Exec(tr) == Listed(n)
  {
    var before := [];
    if n > 0 {
      before := ReachListed(n - 1);
    }
    tr := before + [List(n, [KEY])];
    ExecFromSnoc(INIT, before, List(n, [KEY]));
    assert Exec(tr).pcs == Listed(n).pcs;
  }

  lemma TwoSteps(tr: seq<Step>, a: Step, b: Step)
    ensures Exec(tr + [a] + [b]) == Next(Next(Exec(tr), a), b)
  {
    ExecFromSnoc(INIT, tr, a);
    ExecFromSnoc(INIT, tr + [a], b);
  }

  /** Dispatcher 0 has read that there is no row, and then has claimed the event. */
  function FirstRead(n: nat): State {
    Listed(n).(pcs := Listed(n).pcs[0 := Seen(KEY, None, [])])
  }

  function FirstClaim(n: nat): State {
    State(map[KEY := Row(Processing, 1, None, None)], Listed(n).pcs[0 := Running(KEY, 1, [])], 0, [Started(KEY, 1, 0)])
  }

  lemma FirstReadStep(n: nat)
    ensures Next(Listed(n), Read(0)) == FirstRead(n)
  {
    assert [KEY][1..] == [];
  }

  lemma FirstClaimStep(n: nat)
    ensures Next(FirstRead(n), Claim(0)) == FirstClaim(n)
  {
    assert Next(FirstRead(n), Claim(0)).pcs == FirstClaim(n).pcs;
  }

  lemma FirstFailureStep(n: nat)
    ensures Next(FirstClaim(n), Settle(0, false)) == AfterReads(n, 0)
  {
    assert Next(FirstClaim(n), Settle(0, false)).pcs == AfterReads(n, 0).pcs;
  }

  lemma ReachFirstFailure(n: nat) returns (tr: seq<Step>)
    ensures Exec(tr) == AfterReads(n, 0)
  {
    var listed := ReachListed(n);
    FirstReadStep(n);
    FirstClaimStep(n);
    FirstFailureStep(n);
    TwoSteps(listed, Read(0), Claim(0));
    tr := listed + [Read(0)] + [Claim(0)];
    ExecFromSnoc(INIT, tr, Settle(0, false));
    tr := tr + [Settle(0, false)];
  }

  lemma {:induction false} ReachReads(n: nat, r: nat) returns (tr: seq<Step>)
    requires r <= n
    ensures Exec(tr) == AfterReads(n, r)
  {
    if r == 0 {
      tr := ReachFirstFailure(n);
    } else {
      var before := ReachReads(n, r - 1);
      tr := before + [Read(r)];
      ExecFromSnoc(INIT, before, Read(r));
      assert [KEY][1..] == [];
      assert Next(AfterReads(n, r - 1), Read(r)).pcs == AfterReads(n, r).pcs;
    }
  }

  lemma OneMoreRetry(n: nat, c: nat)
    requires 1 <= c <= n
    ensures Next(Next(AfterRetries(n, c - 1), Claim(c)), Settle(c, false)) == AfterRetries(n, c)
  {
    var s := AfterRetries(n, c - 1);
    assert PcOf(s, c) == Seen(KEY, Some(FAILED_ONCE), []);
    var s1 := State(map[KEY := Row(Processing, 2, None, None)], s.pcs[c := Running(KEY, 2, [])], 0,
                    s.log + [Started(KEY, 2, 0)]);
    assert Next(s, Claim(c)) == s1;
    var s2 := Next(s1, Settle(c, false));
    assert s2.pcs == AfterRetries(n, c).pcs;
    assert s2.log == AfterRetries(n, c).log;
    assert s2.rows == AfterRetries(n, c).rows;
  }

  lemma {:induction false} ReachRetries(n: nat, c: nat) returns (tr: seq<Step>)
    requires c <= n
    ensures Exec(tr) == AfterRetries(n, c)
  {
    if c == 0 {
      tr := ReachReads(n, n);
      assert AfterReads(n, n).pcs == AfterRetries(n, 0).pcs;
    } else {
      var before := ReachRetries(n, c - 1);
      TwoSteps(before, Claim(c), Settle(c, false));
      tr := before + [Claim(c)] + [Settle(c, false)];
      OneMoreRetry(n, c);
    }
  }

  lemma {:induction false} RetriesAreRuns(c: nat)
    ensures |RunsOf(FIRST_TRY + Retried(c), KEY)| == c + 1
  {
    if c == 0 {
      RunsOfAppend([], FIRST_TRY[0], KEY);
      RunsOfAppend([FIRST_TRY[0]], FIRST_TRY[1], KEY);
      assert [] + [FIRST_TRY[0]] + [FIRST_TRY[1]] == FIRST_TRY + Retried(0);
    } else {
      RetriesAreRuns(c - 1);
      var log := FIRST_TRY + Retried(c - 1);
      RunsOfAppend(log, Started(KEY, 2, 0), KEY);
      RunsOfAppend(log + [Started(KEY, 2, 0)], Settled(KEY, 2, Failed, 0), KEY);
      assert FIRST_TRY + Retried(c) == log + [Started(KEY, 2, 0)] + [Settled(KEY, 2, Failed, 0)];
    }
  }

  /** With stale claims no bound holds: one delivery can be handed to its handler any number of times. */
  lemma StaleClaimsRunWithoutBound(n: nat)
    ensures exists tr :: |RunsOf(Exec(tr).log, KEY)| == n + 1 && Exec(tr).rows.Keys == {KEY} && Exec(tr).rows[KEY].status.Failed?
  {
    var tr := ReachRetries(n, n);
    RetriesAreRuns(n);
  }

  /** Two dispatchers that both listed a new event: the second retries it the instant the first one fails. */
  lemma TwoDispatchersCanRetryAtOnce()
    ensures exists tr :: !RetriesWait(Exec(tr).log)
  {
    var tr := ReachReads(1, 1);
    ExecFromSnoc(INIT, tr, Claim(1));
    var log := Exec(tr + [Claim(1)]).log;
    BackoffLadder(1);
    assert IsFailure(log[1]) && log[2] == Started(KEY, 2, 0);
  }
}
