/**
 The outbox dispatcher (packages/core/events/dispatch.ts).

 Every database call of `claim` and `dispatchEvents` is one atomic step of a transition
 system with any number of workers. A row is named by its unique key (event, consumer).
 The log records each handler run and each settlement, in order.
 */
module Events {
  import opened Wrappers

  const MAX_ATTEMPTS := 5
  const MINUTE_MS := 60_000

  function Pow(b: nat, e: nat): nat {
    if e == 0 then 1 else b * Pow(b, e - 1)
  }

  type Attempt = n: int | 1 <= n witness 1

  /** Exponential backoff with a one-hour ceiling. */
  function BackoffMs(attempt: Attempt): int {
    Min(MINUTE_MS * Pow(5, attempt - 1), 60 * MINUTE_MS)
  }

  lemma {:induction false} PowGrows(e: nat)
    ensures Pow(5, e) >= 1
    ensures e >= 3 ==> Pow(5, e) >= 125
  {
    if e > 0 {
      PowGrows(e - 1);
      if e == 3 {
        assert Pow(5, 0) == 1 && Pow(5, 1) == 5 && Pow(5, 2) == 25;
      }
    }
  }

  /** The promised ladder 1m, 5m, 25m, 60m, 60m, ...; no attempt waits less than a minute. */
  lemma BackoffLadder(attempt: Attempt)
    ensures BackoffMs(attempt) ==
            (if attempt == 1 then 1 else if attempt == 2 then 5 else if attempt == 3 then 25 else 60) * 60_000
  {
    PowGrows(attempt - 1);
    assert Pow(5, 0) == 1 && Pow(5, 1) == 5 && Pow(5, 2) == 25;
  }

  // ---------------------------------------------------------------- state

  datatype Key = Key(event: string, consumer: string)

  datatype Status = Processing | Succeeded | Failed | DeadLetter

  datatype Row = Row(status: Status, attempts: Attempt, nextAttemptAt: Option<int>, completedAt: Option<int>)

  /** Where one worker stands inside `dispatchEvents`; `todo` is the rest of its listed batch. */
  datatype Pc =
    | Idle
    | Batch(todo: seq<Key>)
    | Seen(key: Key, existing: Option<Row>, todo: seq<Key>)
    | Running(key: Key, attempt: Attempt, todo: seq<Key>)

  datatype Entry =
    | Started(key: Key, attempt: Attempt, at: int)
    | Settled(key: Key, attempt: Attempt, status: Status, at: int)

  datatype State = State(rows: map<Key, Row>, pcs: map<nat, Pc>, now: int, log: seq<Entry>)

  datatype Step =
    | Tick(ms: nat)
    | List(w: nat, keys: seq<Key>)
    | Read(w: nat)
    | Claim(w: nat)
    | Settle(w: nat, ok: bool)
    | Stop(w: nat)  // returns, or its process dies

  const INIT := State(map[], map[], 0, [])

  function PcOf(s: State, w: nat): Pc {
    if w in s.pcs then s.pcs[w] else Idle
  }

  function Lookup(rows: map<Key, Row>, k: Key): Option<Row> {
    if k in rows then Some(rows[k]) else None
  }

  /** What `pendingEventsFor` selects: never claimed, or failed with an elapsed backoff. */
  predicate Pending(rows: map<Key, Row>, now: int, k: Key) {
    k !in rows
    || (rows[k].status.Failed? && rows[k].nextAttemptAt.Some? && rows[k].nextAttemptAt.value <= now)
  }

  ghost predicate Enabled(s: State, step: Step) {
    match step
    case Tick(_) => true
    case List(w, keys) =>
      (PcOf(s, w) == Idle || PcOf(s, w) == Batch([])) && Distinct(keys) && forall k :: k in keys ==> Pending(s.rows, s.now, k)
    case Read(w) => PcOf(s, w).Batch? && PcOf(s, w).todo != []
    case Claim(w) => PcOf(s, w).Seen?
    case Settle(w, _) => PcOf(s, w).Running?
    case Stop(w) => true
  }

  /** Does the claim write succeed? A create needs the key to be free, a re-claim a `failed` row. */
  predicate ClaimWins(s: State, k: Key, existing: Option<Row>) {
    if existing.None? then k !in s.rows
    else existing.value.status.Failed? && k in s.rows && s.rows[k].status.Failed?
  }

  /** The attempt number comes from the row as it was read, not as it is stored. */
  function ClaimedAttempt(existing: Option<Row>): Attempt {
    if existing.None? then 1 else existing.value.attempts + 1
  }

  /** Succeeded, or failed with a retry to come, or out of attempts. */
  function Outcome(attempt: Attempt, ok: bool): Status {
    if ok then Succeeded else if attempt >= MAX_ATTEMPTS then DeadLetter else Failed
  }

  function SettledRow(row: Row, attempt: Attempt, ok: bool, now: int): Row {
    match Outcome(attempt, ok)
    case Failed => row.(status := Failed, nextAttemptAt := Some(now + BackoffMs(attempt)))
    case done => row.(status := done, completedAt := Some(now), nextAttemptAt := None)
  }

  /** One step of one worker; a step that is not enabled changes nothing. */
  ghost function Next(s: State, step: Step): State {
    if !Enabled(s, step) then s
    else match step
      case Tick(ms) => s.(now := s.now + ms)
      case List(w, keys) => s.(pcs := s.pcs[w := Batch(keys)])
      case Read(w) =>
        var todo := PcOf(s, w).todo;
        s.(pcs := s.pcs[w := Seen(todo[0], Lookup(s.rows, todo[0]), todo[1..])])
      case Claim(w) =>
        var Seen(k, existing, todo) := PcOf(s, w);
        if ClaimWins(s, k, existing) then
          var a := ClaimedAttempt(existing);
          State(s.rows[k := Row(Processing, a, None, None)], s.pcs[w := Running(k, a, todo)], s.now,
                s.log + [Started(k, a, s.now)])
        else s.(pcs := s.pcs[w := Batch(todo)])
      case Settle(w, ok) =>
        var Running(k, a, todo) := PcOf(s, w);
        // updateMany on the id: no row, no write
        State(if k in s.rows then s.rows[k := SettledRow(s.rows[k], a, ok, s.now)] else s.rows,
              s.pcs[w := Batch(todo)], s.now, s.log + [Settled(k, a, Outcome(a, ok), s.now)])
      case Stop(w) => s.(pcs := s.pcs[w := Idle])
  }

  ghost function ExecFrom(s: State, tr: seq<Step>): State {
    if tr == [] then s else Next(ExecFrom(s, tr[..|tr| - 1]), tr[|tr| - 1])
  }

  ghost function Exec(tr: seq<Step>): State {
    ExecFrom(INIT, tr)
  }

  lemma ExecFromSnoc(s: State, tr: seq<Step>, step: Step)
    ensures ExecFrom(s, tr + [step]) == Next(ExecFrom(s, tr), step)
  {
    assert (tr + [step])[..|tr|] == tr;
  }

  /** The attempt numbers handed to the handler for one delivery, in order. */
  function RunsOf(log: seq<Entry>, k: Key): seq<Attempt> {
    if log == [] then []
    else
      var rest := RunsOf(log[..|log| - 1], k);
      var e := log[|log| - 1];
      if e.Started? && e.key == k then rest + [e.attempt] else rest
  }

  lemma RunsOfAppend(log: seq<Entry>, e: Entry, k: Key)
    ensures RunsOf(log + [e], k) == RunsOf(log, k) + (if e.Started? && e.key == k then [e.attempt] else [])
  {
    assert (log + [e])[..|log|] == log;
  }

  // ---------------------------------------------------------------- what every interleaving keeps

  /** The database's own check constraint on a delivery row, plus the bounds on `attempts`. */
  ghost predicate RowOk(r: Row) {
    && 1 <= r.attempts <= MAX_ATTEMPTS
    && (r.status.Succeeded? || r.status.DeadLetter? <==> r.completedAt.Some?)
    && (r.nextAttemptAt.Some? <==> r.status.Failed?)
    && (r.status.Failed? ==> r.attempts < MAX_ATTEMPTS)
    && (r.status.DeadLetter? ==> r.attempts == MAX_ATTEMPTS)
  }

  ghost predicate PcOk(s: State, pc: Pc) {
    match pc
    case Seen(_, existing, _) => existing.Some? ==> RowOk(existing.value)
    case Running(k, a, _) => k in s.rows && s.rows[k].status.Processing? && s.rows[k].attempts == a
    case _ => true
  }

  /** At most one worker is inside the handler for a given (event, consumer). */
  ghost predicate Exclusive(s: State) {
    forall v, w :: v in s.pcs && w in s.pcs && s.pcs[v].Running? && s.pcs[w].Running? && s.pcs[v].key == s.pcs[w].key
      ==> v == w
  }

  /** The stored attempt count is the attempt of the last handler run; no row means no run. */
  ghost predicate RowMatchesLog(s: State, k: Key) {
    var runs := RunsOf(s.log, k);
    if k in s.rows then runs != [] && runs[|runs| - 1] == s.rows[k].attempts else runs == []
  }

  ghost predicate Inv(s: State) {
    && (forall k :: k in s.rows ==> RowOk(s.rows[k]))
    && (forall w :: w in s.pcs ==> PcOk(s, s.pcs[w]))
    && Exclusive(s)
    && (forall k :: RowMatchesLog(s, k))
    && (forall i :: 0 <= i < |s.log| ==> 1 <= s.log[i].attempt <= MAX_ATTEMPTS)
  }

  lemma InvClaim(s: State, w: nat)
    requires Inv(s) && PcOf(s, w).Seen?
    ensures Inv(Next(s, Claim(w)))
  {
    var Seen(k, existing, todo) := PcOf(s, w);
    var t := Next(s, Claim(w));
    assert PcOk(s, s.pcs[w]);
    if ClaimWins(s, k, existing) {
      var e := Started(k, ClaimedAttempt(existing), s.now);
      assert t.log == s.log + [e];
      forall k' ensures RowMatchesLog(t, k') {
        assert RowMatchesLog(s, k');
        RunsOfAppend(s.log, e, k');
      }
    } else {
      forall k' ensures RowMatchesLog(t, k') {
        assert RowMatchesLog(s, k');
      }
    }
  }

  lemma InvSettle(s: State, w: nat, ok: bool)
    requires Inv(s) && PcOf(s, w).Running?
    ensures Inv(Next(s, Settle(w, ok)))
  {
    var Running(k, a, todo) := PcOf(s, w);
    var t := Next(s, Settle(w, ok));
    assert PcOk(s, s.pcs[w]);
    var e := Settled(k, a, Outcome(a, ok), s.now);
    assert t.log == s.log + [e];
    forall k' ensures RowMatchesLog(t, k') {
      assert RowMatchesLog(s, k');
      RunsOfAppend(s.log, e, k');
    }
  }

  lemma InvNext(s: State, step: Step)
    requires Inv(s)
    ensures Inv(Next(s, step))
  {
    if Enabled(s, step) {
      if step.Claim? {
        InvClaim(s, step.w);
      } else if step.Settle? {
        InvSettle(s, step.w, step.ok);
      } else {
        forall k ensures RowMatchesLog(Next(s, step), k) {
          assert RowMatchesLog(s, k);
        }
      }
    }
  }

  lemma {:induction false} InvExecFrom(s: State, tr: seq<Step>)
    requires Inv(s)
    ensures Inv(ExecFrom(s, tr))
  {
    if tr != [] {
      InvExecFrom(s, tr[..|tr| - 1]);
      InvNext(ExecFrom(s, tr[..|tr| - 1]), tr[|tr| - 1]);
    }
  }

  /** Safety over every interleaving of any number of workers. */
  lemma EveryRunIsSafe(tr: seq<Step>)
    ensures Inv(Exec(tr))
  {
    InvExecFrom(INIT, tr);
  }

  // ---------------------------------------------------------------- how a handler run ends

  /**
   What settling writes, in every run: a handler that returns leaves its delivery `succeeded`; one
   that throws leaves it `failed`, due its backoff later, before the fifth attempt and dead after it.
   The log says the same, and no other row changes.
   */
  lemma SettlingRecordsHowItEnded(tr: seq<Step>, w: nat, ok: bool)
    requires PcOf(Exec(tr), w).Running?
    ensures var s := Exec(tr);
            var Running(k, a, _) := PcOf(s, w);
            var t := Next(s, Settle(w, ok));
            && k in t.rows && t.rows.Keys == s.rows.Keys
            && (ok ==> t.rows[k] == Row(Succeeded, a, None, Some(s.now)))
            && (!ok && a < 5 ==> t.rows[k] == Row(Failed, a, Some(s.now + BackoffMs(a)), None))
            && (!ok && a == 5 ==> t.rows[k] == Row(DeadLetter, a, None, Some(s.now)))
            && 1 <= a <= 5
            && t.log == s.log + [Settled(k, a, t.rows[k].status, s.now)]
            && (forall j :: j in s.rows && j != k ==> t.rows[j] == s.rows[j])
  {
    EveryRunIsSafe(tr);
    var s := Exec(tr);
    assert PcOk(s, s.pcs[w]);
    assert RowOk(s.rows[PcOf(s, w).key]);
  }

  /** What is listed: a key with no row, or a failed row whose `nextAttemptAt` has passed. */
  lemma ListedIffNewOrDue(tr: seq<Step>, k: Key)
    ensures var s := Exec(tr);
            Pending(s.rows, s.now, k) <==>
              k !in s.rows
              || exists a: Attempt, at: int :: s.rows[k] == Row(Failed, a, Some(at), None) && at <= s.now
  {
    EveryRunIsSafe(tr);
    var s := Exec(tr);
    if k in s.rows {
      assert RowOk(s.rows[k]);
      var row := s.rows[k];
      if row.status.Failed? {
        assert row == Row(Failed, row.attempts, Some(row.nextAttemptAt.value), None);
      }
    }
  }

  // ---------------------------------------------------------------- absorbing rows

  /** Nobody may re-claim the row and nobody is about to settle it. */
  ghost predicate Frozen(s: State, k: Key) {
    && k in s.rows && !s.rows[k].status.Failed?
    && forall w :: w in s.pcs && s.pcs[w].Running? ==> s.pcs[w].key != k
  }

  lemma FrozenRow(s: State, step: Step, k: Key)
    requires Frozen(s, k)
    ensures Frozen(Next(s, step), k) && Next(s, step).rows[k] == s.rows[k]
  {
  }

  lemma FrozenRuns(s: State, step: Step, k: Key)
    requires Frozen(s, k)
    ensures RunsOf(Next(s, step).log, k) == RunsOf(s.log, k)
  {
    var t := Next(s, step);
    if t.log != s.log {
      var e := t.log[|s.log|];
      assert t.log == s.log + [e];
      RunsOfAppend(s.log, e, k);
    }
  }

  lemma {:induction false} FrozenForever(s: State, k: Key, more: seq<Step>)
    requires Frozen(s, k)
    ensures var t := ExecFrom(s, more);
            Frozen(t, k) && t.rows[k] == s.rows[k] && RunsOf(t.log, k) == RunsOf(s.log, k) && !Pending(t.rows, t.now, k)
  {
    if more != [] {
      FrozenForever(s, k, more[..|more| - 1]);
      FrozenRow(ExecFrom(s, more[..|more| - 1]), more[|more| - 1], k);
      FrozenRuns(ExecFrom(s, more[..|more| - 1]), more[|more| - 1], k);
    }
  }

  /** `succeeded` and `dead_letter` are absorbing: the row never changes and no handler run starts again. */
  lemma SettledIsFinal(tr: seq<Step>, more: seq<Step>, k: Key)
    requires var s := Exec(tr); k in s.rows && (s.rows[k].status.Succeeded? || s.rows[k].status.DeadLetter?)
    ensures var s, t := Exec(tr), ExecFrom(Exec(tr), more);
            k in t.rows && t.rows[k] == s.rows[k] && RunsOf(t.log, k) == RunsOf(s.log, k)
  {
    EveryRunIsSafe(tr);
    var s := Exec(tr);
    forall w | w in s.pcs && s.pcs[w].Running? ensures s.pcs[w].key != k {
      assert PcOk(s, s.pcs[w]);
    }
    FrozenForever(s, k, more);
  }

  /**
   The documentation promises that a delivery whose worker dies is run again. The code does
   not do that: after a crash inside the handler the row stays `processing`, is never listed
   and is never run again, whatever the other workers do.
   */
  lemma CrashedDeliveryIsNeverRunAgain(tr: seq<Step>, w: nat, more: seq<Step>)
    requires PcOf(Exec(tr), w).Running?
    ensures var s := Exec(tr);
            var k := PcOf(s, w).key;
            var t := ExecFrom(Next(s, Stop(w)), more);
            && k in t.rows && t.rows[k].status.Processing? && !Pending(t.rows, t.now, k)
            && RunsOf(t.log, k) == RunsOf(s.log, k)
  {
    EveryRunIsSafe(tr);
    var s := Exec(tr);
    assert PcOk(s, s.pcs[w]);
    InvNext(s, Stop(w));
    FrozenForever(Next(s, Stop(w)), PcOf(s, w).key, more);
  }

  // ---------------------------------------------------------------- attempts count runs, unless a read went stale

  /** A re-claim that wins although the attempt count it read is no longer the stored one. */
  ghost predicate Stale(s: State, step: Step) {
    && step.Claim? && PcOf(s, step.w).Seen?
    && var Seen(k, existing, _) := PcOf(s, step.w);
       ClaimWins(s, k, existing) && existing.Some? && existing.value.attempts != s.rows[k].attempts
  }

  ghost predicate NeverStale(tr: seq<Step>) {
    tr == [] || (NeverStale(tr[..|tr| - 1]) && !Stale(Exec(tr[..|tr| - 1]), tr[|tr| - 1]))
  }

  ghost predicate Consecutive(runs: seq<Attempt>) {
    forall i :: 0 <= i < |runs| ==> runs[i] == i + 1
  }

  /** For every delivery, the n-th handler run is told it is attempt n. */
  ghost predicate AttemptsCountRuns(s: State) {
    forall k :: Consecutive(RunsOf(s.log, k))
  }

  lemma OneMoreRun(runs: seq<Attempt>, a: Attempt)
    ensures Consecutive(runs + [a]) <==> Consecutive(runs) && a == |runs| + 1
  {
    if Consecutive(runs + [a]) {
      assert (runs + [a])[|runs|] == a;
      assert forall i :: 0 <= i < |runs| ==> (runs + [a])[i] == runs[i];
    }
  }

  lemma AttemptsStepOn(s: State, step: Step, k: Key)
    requires Inv(s)
    ensures Consecutive(RunsOf(Next(s, step).log, k)) <==>
              Consecutive(RunsOf(s.log, k)) && !(Stale(s, step) && PcOf(s, step.w).key == k)
  {
    var t := Next(s, step);
    if t.log != s.log {
      var e := t.log[|s.log|];
      assert t.log == s.log + [e];
      RunsOfAppend(s.log, e, k);
      OneMoreRun(RunsOf(s.log, k), e.attempt);
      assert RowMatchesLog(s, k);
    }
  }

  lemma AttemptsStep(s: State, step: Step)
    requires Inv(s)
    ensures AttemptsCountRuns(Next(s, step)) <==> AttemptsCountRuns(s) && !Stale(s, step)
  {
    forall k
      ensures Consecutive(RunsOf(Next(s, step).log, k)) <==>
                Consecutive(RunsOf(s.log, k)) && !(Stale(s, step) && PcOf(s, step.w).key == k)
    {
      AttemptsStepOn(s, step, k);
    }
    if Stale(s, step) {
      assert !Consecutive(RunsOf(Next(s, step).log, PcOf(s, step.w).key));
    }
  }

  /** Exact condition: attempt numbers count the runs of every delivery iff no winning re-claim used a stale read. */
  lemma {:induction false} AttemptsCountRunsIffNeverStale(tr: seq<Step>)
    ensures AttemptsCountRuns(Exec(tr)) <==> NeverStale(tr)
  {
    if tr != [] {
      AttemptsCountRunsIffNeverStale(tr[..|tr| - 1]);
      EveryRunIsSafe(tr[..|tr| - 1]);
      AttemptsStep(Exec(tr[..|tr| - 1]), tr[|tr| - 1]);
    }
  }

  /** How far behind the stored count the count was that a winning re-claim of `k` had read; negative if ahead of it. */
  ghost function Loss(s: State, step: Step, k: Key): int {
    if step.Claim? && PcOf(s, step.w).Seen? then
      var Seen(key, existing, _) := PcOf(s, step.w);
      if key == k && ClaimWins(s, k, existing) && existing.Some? then s.rows[k].attempts - existing.value.attempts else 0
    else 0
  }

  /** The attempts lost to stale reads over a whole run. */
  ghost function Lag(tr: seq<Step>, k: Key): int {
    if tr == [] then 0 else Lag(tr[..|tr| - 1], k) + Loss(Exec(tr[..|tr| - 1]), tr[|tr| - 1], k)
  }

  function StoredAttempts(s: State, k: Key): nat {
    if k in s.rows then s.rows[k].attempts else 0
  }

  lemma RunsStep(s: State, step: Step, k: Key)
    requires Inv(s)
    ensures var t := Next(s, step);
            |RunsOf(t.log, k)| - StoredAttempts(t, k) == |RunsOf(s.log, k)| - StoredAttempts(s, k) + Loss(s, step, k)
  {
    var t := Next(s, step);
    if t.log != s.log {
      var e := t.log[|s.log|];
      assert t.log == s.log + [e];
      RunsOfAppend(s.log, e, k);
    }
  }

  /** Exact law for every interleaving: the handler ran as often as the row says, plus what stale claims lost. */
  lemma {:induction false} RunsAreAttemptsPlusLag(tr: seq<Step>, k: Key)
    ensures |RunsOf(Exec(tr).log, k)| == StoredAttempts(Exec(tr), k) + Lag(tr, k)
  {
    if tr != [] {
      RunsAreAttemptsPlusLag(tr[..|tr| - 1], k);
      EveryRunIsSafe(tr[..|tr| - 1]);
      RunsStep(Exec(tr[..|tr| - 1]), tr[|tr| - 1], k);
    }
  }

  lemma {:induction false} NeverStaleLosesNothing(tr: seq<Step>, k: Key)
    requires NeverStale(tr)
    ensures Lag(tr, k) == 0
  {
    if tr != [] {
      NeverStaleLosesNothing(tr[..|tr| - 1], k);
    }
  }

  /**
   So a delivery is handed to its handler at most five times iff stored attempts and loss stay within
   five; with no stale claim the loss is nothing, and they always do.
   */
  lemma AtMostFiveRuns(tr: seq<Step>, k: Key)
    ensures |RunsOf(Exec(tr).log, k)| <= MAX_ATTEMPTS <==> StoredAttempts(Exec(tr), k) + Lag(tr, k) <= MAX_ATTEMPTS
    ensures NeverStale(tr) ==> |RunsOf(Exec(tr).log, k)| == StoredAttempts(Exec(tr), k) <= MAX_ATTEMPTS
  {
    RunsAreAttemptsPlusLag(tr, k);
    EveryRunIsSafe(tr);
    if NeverStale(tr) {
      NeverStaleLosesNothing(tr, k);
    }
  }

  /** The step writes a row that another worker has read but not yet tried to claim. */
  ghost predicate SplitsAClaim(s: State, step: Step) {
    exists v :: v in s.pcs && s.pcs[v].Seen? && !(step.Claim? && step.w == v)
      && Lookup(Next(s, step).rows, s.pcs[v].key) != Lookup(s.rows, s.pcs[v].key)
  }

  ghost predicate NoClaimSplit(tr: seq<Step>) {
    tr == [] || (NoClaimSplit(tr[..|tr| - 1]) && !SplitsAClaim(Exec(tr[..|tr| - 1]), tr[|tr| - 1]))
  }

  ghost predicate ReadsCurrent(s: State) {
    forall v :: v in s.pcs && s.pcs[v].Seen? ==> s.pcs[v].existing == Lookup(s.rows, s.pcs[v].key)
  }

  /** If no worker writes a row between another worker's read and write of it, no claim is stale. */
  lemma {:induction false} UnsplitClaimsAreNeverStale(tr: seq<Step>)
    requires NoClaimSplit(tr)
    ensures NeverStale(tr) && ReadsCurrent(Exec(tr))
  {
    if tr != [] {
      var front, step := tr[..|tr| - 1], tr[|tr| - 1];
      UnsplitClaimsAreNeverStale(front);
      var s, t := Exec(front), Exec(tr);
      forall v | v in t.pcs && t.pcs[v].Seen? ensures t.pcs[v].existing == Lookup(t.rows, t.pcs[v].key) {
        if v in s.pcs && s.pcs[v] == t.pcs[v] {
          assert !(step.Claim? && step.w == v);
          assert Lookup(t.rows, s.pcs[v].key) == Lookup(s.rows, s.pcs[v].key);
        }
      }
    }
  }
}
