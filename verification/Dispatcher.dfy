/**
 `pendingEventsFor`, `claim` and `dispatchEvents` as code over one delivery table
 (packages/core/events/dispatch.ts), tied call by call to the transition system of module Events.
 */
module Dispatcher {
  import opened Wrappers
  import opened Events
  import opened EventTiming

  datatype Event = Event(id: string, name: string, facilityId: string)

  datatype Consumer = Consumer(name: string, events: set<string>)

  datatype DispatchResult = DispatchResult(claimed: nat, succeeded: nat, failed: nat, deadLettered: nat)

  predicate Selected(rows: map<Key, Row>, now: int, consumer: Consumer, facility: Option<string>, e: Event) {
    && e.name in consumer.events
    && (facility.Some? ==> e.facilityId == facility.value)
    && Pending(rows, now, Key(e.id, consumer.name))
  }

  /** The specification: the events of the outbox that are wanted and due, in its order. */
  function Eligible(
    rows: map<Key, Row>, now: int, outbox: seq<Event>, consumer: Consumer, facility: Option<string>
  ): (r: seq<Event>)
    ensures forall e :: e in r <==> e in outbox && Selected(rows, now, consumer, facility, e)
  {
    if outbox == [] then []
    else
      var rest := Eligible(rows, now, outbox[1..], consumer, facility);
      if Selected(rows, now, consumer, facility, outbox[0]) then [outbox[0]] + rest else rest
  }

  /** The outbox holds events oldest first; the query takes the oldest `limit` of the eligible ones, in order. */
  function PendingEventsFor(
    rows: map<Key, Row>, now: int, outbox: seq<Event>, consumer: Consumer, limit: nat, facility: Option<string>
  ): (r: seq<Event>)
    ensures var all := Eligible(rows, now, outbox, consumer, facility); r == all[..Min(limit, |all|)]
    ensures forall e :: e in r ==> e in outbox && Selected(rows, now, consumer, facility, e)
  {
    if limit == 0 || outbox == [] then []
    else if Selected(rows, now, consumer, facility, outbox[0]) then
      [outbox[0]] + PendingEventsFor(rows, now, outbox[1..], consumer, limit - 1, facility)
    else PendingEventsFor(rows, now, outbox[1..], consumer, limit, facility)
  }

  ghost predicate UniqueIds(outbox: seq<Event>) {
    forall i, j :: 0 <= i < j < |outbox| ==> outbox[i].id != outbox[j].id
  }

  function KeysOf(events: seq<Event>, consumer: string): (r: seq<Key>)
    ensures |r| == |events| && forall i :: 0 <= i < |r| ==> r[i] == Key(events[i].id, consumer)
  {
    seq(|events|, i requires 0 <= i < |events| => Key(events[i].id, consumer))
  }

  /** A listing names no delivery twice, so it is a legal `List` step. */
  lemma {:induction false} ListingIsDistinct(
    rows: map<Key, Row>, now: int, outbox: seq<Event>, consumer: Consumer, limit: nat, facility: Option<string>
  )
    requires UniqueIds(outbox)
    ensures UniqueIds(PendingEventsFor(rows, now, outbox, consumer, limit, facility))
  {
    if limit != 0 && outbox != [] {
      var rest := outbox[1..];
      var n := if Selected(rows, now, consumer, facility, outbox[0]) then limit - 1 else limit;
      ListingIsDistinct(rows, now, rest, consumer, n, facility);
      forall e | e in PendingEventsFor(rows, now, rest, consumer, n, facility) ensures e.id != outbox[0].id {
        var j :| 0 <= j < |rest| && rest[j] == e;
        assert outbox[j + 1] == e;
      }
    }
  }

  /** Counts handler runs when `settled` is None, else settlements with that outcome. */
  function Hits(e: Entry, settled: Option<Status>): nat {
    match e
    case Started(_, _, _) => if settled.None? then 1 else 0
    case Settled(_, _, status, _) => if settled == Some(status) then 1 else 0
  }

  function Count(log: seq<Entry>, settled: Option<Status>): nat {
    if log == [] then 0 else Count(log[..|log| - 1], settled) + Hits(log[|log| - 1], settled)
  }

  lemma CountAppend(log: seq<Entry>, e: Entry, settled: Option<Status>)
    ensures Count(log + [e], settled) == Count(log, settled) + Hits(e, settled)
  {
    assert (log + [e])[..|log|] == log;
  }

  /** The counters are the entries logged since `base`, and nothing claimed was left unsettled. */
  ghost predicate Tallies(r: DispatchResult, base: seq<Entry>, log: seq<Entry>) {
    && r.claimed == Count(log, None) - Count(base, None)
    && r.succeeded == Count(log, Some(Succeeded)) - Count(base, Some(Succeeded))
    && r.failed == Count(log, Some(Failed)) - Count(base, Some(Failed))
    && r.deadLettered == Count(log, Some(DeadLetter)) - Count(base, Some(DeadLetter))
    && r.claimed == r.succeeded + r.failed + r.deadLettered
  }

  function Bump(r: DispatchResult, outcome: Status): DispatchResult {
    match outcome
    case Succeeded => r.(claimed := r.claimed + 1, succeeded := r.succeeded + 1)
    case Failed => r.(claimed := r.claimed + 1, failed := r.failed + 1)
    case DeadLetter => r.(claimed := r.claimed + 1, deadLettered := r.deadLettered + 1)
    case Processing => r
  }

  lemma CountTwo(log: seq<Entry>, a: Entry, b: Entry, settled: Option<Status>)
    ensures Count(log + [a] + [b], settled) == Count(log, settled) + Hits(a, settled) + Hits(b, settled)
  {
    CountAppend(log, a, settled);
    CountAppend(log + [a], b, settled);
  }

  lemma TalliesBump(r: DispatchResult, base: seq<Entry>, log: seq<Entry>, started: Entry, settled: Entry)
    requires Tallies(r, base, log) && started.Started? && settled.Settled? && !settled.status.Processing?
    ensures Tallies(Bump(r, settled.status), base, log + [started] + [settled])
  {
    CountTwo(log, started, settled, None);
    CountTwo(log, started, settled, Some(Succeeded));
    CountTwo(log, started, settled, Some(Failed));
    CountTwo(log, started, settled, Some(DeadLetter));
  }

  // ---------------------------------------------------------------- one dispatcher's tick, as a function

  datatype Store = Store(rows: map<Key, Row>, now: int, log: seq<Entry>)

  /** What the handler does with a delivery, and how long it takes. */
  datatype Handler = Handler(succeeds: (Key, Attempt) -> bool, takes: (Key, Attempt) -> nat)

  function ClaimOutcome(rows: map<Key, Row>, k: Key): Option<Attempt> {
    if k !in rows then Some(1) else if rows[k].status.Failed? then Some(rows[k].attempts + 1) else None
  }

  function AfterClaim(s: Store, k: Key, attempt: Attempt): Store {
    s.(rows := s.rows[k := Row(Processing, attempt, None, None)], log := s.log + [Started(k, attempt, s.now)])
  }

  function AfterSettle(s: Store, k: Key, attempt: Attempt, ok: bool): Store {
    s.(rows := if k in s.rows then s.rows[k := SettledRow(s.rows[k], attempt, ok, s.now)] else s.rows,
       log := s.log + [Settled(k, attempt, Outcome(attempt, ok), s.now)])
  }

  function AfterHandler(s: Store, k: Key, attempt: Attempt, h: Handler): Store {
    AfterSettle(s.(now := s.now + h.takes(k, attempt)), k, attempt, h.succeeds(k, attempt))
  }

  /** Claim, handle and settle one listed delivery. */
  function AfterDelivery(s: Store, k: Key, h: Handler): Store {
    var claimed := ClaimOutcome(s.rows, k);
    if claimed.None? then s else AfterHandler(AfterClaim(s, k, claimed.value), k, claimed.value, h)
  }

  function AfterBatch(s: Store, keys: seq<Key>, h: Handler): Store
    decreases |keys|
  {
    if keys == [] then s else AfterBatch(AfterDelivery(s, keys[0], h), keys[1..], h)
  }

  datatype Query = Query(outbox: seq<Event>, limit: nat, facility: Option<string>)

  function Listing(s: Store, q: Query, consumer: Consumer): seq<Key> {
    KeysOf(PendingEventsFor(s.rows, s.now, q.outbox, consumer, q.limit, q.facility), consumer.name)
  }

  function AfterTick(s: Store, q: Query, consumers: seq<Consumer>, h: Handler): Store
    decreases |consumers|
  {
    if consumers == [] then s
    else AfterTick(AfterBatch(s, Listing(s, q, consumers[0]), h), q, consumers[1..], h)
  }

  // ---------------------------------------------------------------- ... is a run of the transition system

  lemma {:induction false} ExecFromAppend(s: State, a: seq<Step>, b: seq<Step>)
    ensures ExecFrom(s, a + b) == ExecFrom(ExecFrom(s, a), b)
  {
    if b == [] {
      assert a + b == a;
    } else {
      var n := |b| - 1;
      ExecFromAppend(s, a, b[..n]);
      ExecFromSnoc(s, a + b[..n], b[n]);
      FrontAndLast(b);
      assert a + b[..n] + [b[n]] == a + b;
    }
  }

  /** The store with this dispatcher as its only worker. */
  function Alone(s: Store, pc: Pc): State {
    State(s.rows, map[0 := pc], s.now, s.log)
  }

  lemma SetPc(a: Pc, b: Pc)
    ensures map[0 := a][0 := b] == map[0 := b]
  {
  }

  lemma ClaimSteps(s: Store, k: Key, todo: seq<Key>)
    ensures var claimed := ClaimOutcome(s.rows, k);
            ExecFrom(Alone(s, Batch([k] + todo)), [Read(0), Claim(0)])
            == if claimed.None? then Alone(s, Batch(todo))
               else Alone(AfterClaim(s, k, claimed.value), Running(k, claimed.value, todo))
  {
    var s0 := Alone(s, Batch([k] + todo));
    var seen := Seen(k, Lookup(s.rows, k), todo);
    SetPc(Batch([k] + todo), seen);
    assert ([k] + todo)[1..] == todo;
    assert Next(s0, Read(0)) == Alone(s, seen);
    ExecFromSnoc(s0, [], Read(0));
    ExecFromSnoc(s0, [] + [Read(0)], Claim(0));
    assert [Read(0), Claim(0)] == [] + [Read(0)] + [Claim(0)];
    var claimed := ClaimOutcome(s.rows, k);
    SetPc(seen, Batch(todo));
    if claimed.Some? {
      SetPc(seen, Running(k, claimed.value, todo));
    }
  }

  lemma HandlerSteps(s: Store, k: Key, attempt: Attempt, h: Handler, todo: seq<Key>)
    ensures ExecFrom(Alone(s, Running(k, attempt, todo)), [Tick(h.takes(k, attempt)), Settle(0, h.succeeds(k, attempt))])
            == Alone(AfterHandler(s, k, attempt, h), Batch(todo))
  {
    var s0 := Alone(s, Running(k, attempt, todo));
    var tick, settle := Tick(h.takes(k, attempt)), Settle(0, h.succeeds(k, attempt));
    ExecFromSnoc(s0, [], tick);
    ExecFromSnoc(s0, [] + [tick], settle);
    assert [tick, settle] == [] + [tick] + [settle];
    SetPc(Running(k, attempt, todo), Batch(todo));
  }

  lemma DeliverySteps(s: Store, k: Key, h: Handler, todo: seq<Key>) returns (steps: seq<Step>)
    ensures OnlyBy(0, steps) && ExecFrom(Alone(s, Batch([k] + todo)), steps) == Alone(AfterDelivery(s, k, h), Batch(todo))
  {
    steps := [Read(0), Claim(0)];
    ClaimSteps(s, k, todo);
    var claimed := ClaimOutcome(s.rows, k);
    if claimed.Some? {
      var more := [Tick(h.takes(k, claimed.value)), Settle(0, h.succeeds(k, claimed.value))];
      HandlerSteps(AfterClaim(s, k, claimed.value), k, claimed.value, h, todo);
      ExecFromAppend(Alone(s, Batch([k] + todo)), steps, more);
      steps := steps + more;
    }
  }

  lemma {:induction false} BatchSteps(s: Store, keys: seq<Key>, h: Handler) returns (steps: seq<Step>)
    ensures OnlyBy(0, steps) && ExecFrom(Alone(s, Batch(keys)), steps) == Alone(AfterBatch(s, keys, h), Batch([]))
    decreases |keys|
  {
    if keys == [] {
      steps := [];
    } else {
      var first := DeliverySteps(s, keys[0], h, keys[1..]);
      var rest := BatchSteps(AfterDelivery(s, keys[0], h), keys[1..], h);
      assert [keys[0]] + keys[1..] == keys;
      ExecFromAppend(Alone(s, Batch(keys)), first, rest);
      steps := first + rest;
    }
  }

  lemma ListStep(s: Store, q: Query, consumer: Consumer, pc: Pc)
    requires UniqueIds(q.outbox) && (pc == Idle || pc == Batch([]))
    ensures Next(Alone(s, pc), List(0, Listing(s, q, consumer))) == Alone(s, Batch(Listing(s, q, consumer)))
  {
    var events := PendingEventsFor(s.rows, s.now, q.outbox, consumer, q.limit, q.facility);
    ListingIsDistinct(s.rows, s.now, q.outbox, consumer, q.limit, q.facility);
    assert forall j :: 0 <= j < |events| ==> events[j] in events;
    SetPc(pc, Batch(Listing(s, q, consumer)));
  }

  lemma {:induction false} ConsumerSteps(s: Store, q: Query, consumers: seq<Consumer>, h: Handler, pc: Pc)
    returns (steps: seq<Step>, last: Pc)
    requires UniqueIds(q.outbox) && (pc == Idle || pc == Batch([]))
    ensures OnlyBy(0, steps) && ExecFrom(Alone(s, pc), steps) == Alone(AfterTick(s, q, consumers, h), last)
    decreases |consumers|
  {
    if consumers == [] {
      steps, last := [], pc;
    } else {
      var keys := Listing(s, q, consumers[0]);
      ListStep(s, q, consumers[0], pc);
      ExecFromSnoc(Alone(s, pc), [], List(0, keys));
      var batch := BatchSteps(s, keys, h);
      ExecFromAppend(Alone(s, pc), [] + [List(0, keys)], batch);
      var rest;
      rest, last := ConsumerSteps(AfterBatch(s, keys, h), q, consumers[1..], h, Batch([]));
      ExecFromAppend(Alone(s, pc), [] + [List(0, keys)] + batch, rest);
      steps := [] + [List(0, keys)] + batch + rest;
    }
  }

  /** A dispatcher tick is a run of the transition system by one worker, so everything proved of runs holds of it. */
  lemma TickIsARun(s: Store, q: Query, consumers: seq<Consumer>, h: Handler) returns (steps: seq<Step>)
    requires UniqueIds(q.outbox)
    ensures OnlyBy(0, steps) && ExecFrom(Alone(s, Idle), steps) == Alone(AfterTick(s, q, consumers, h), Idle)
  {
    var last;
    steps, last := ConsumerSteps(s, q, consumers, h, Idle);
    ExecFromSnoc(Alone(s, Idle), steps, Stop(0));
    SetPc(last, Idle);
    steps := steps + [Stop(0)];
  }

  /** What one dispatcher relies on is kept by every tick: safety, the attempt bounds and the backoff of every retry. */
  lemma TickKeepsInvariant(s: Store, q: Query, consumers: seq<Consumer>, h: Handler)
    requires UniqueIds(q.outbox) && LoneInv(Alone(s, Idle), 0)
    ensures LoneInv(Alone(AfterTick(s, q, consumers, h), Idle), 0)
    ensures RetriesWait(s.log) ==> RetriesWait(AfterTick(s, q, consumers, h).log)
  {
    var steps := TickIsARun(s, q, consumers, h);
    LoneRunFrom(Alone(s, Idle), 0, steps);
  }

  // ---------------------------------------------------------------- what a tick does for a delivery

  /** How a listed delivery ends, in the fields of its row: `a` is the attempt it is on, `at` when the handler was done. */
  ghost predicate Ended(row: Row, a: Attempt, ok: bool, at: int) {
    if ok then row == Row(Succeeded, a, None, Some(at))
    else if a < 5 then row == Row(Failed, a, Some(at + BackoffMs(a)), None)
    else row == Row(DeadLetter, a, None, Some(at))
  }

  /** One delivery: the handler is called on a new event and on a failed one, and its row says how it ended. */
  lemma DeliveryEnds(s: Store, k: Key, h: Handler)
    requires k !in s.rows || (s.rows[k].status.Failed? && s.rows[k].attempts < 5)
    ensures var a := if k in s.rows then s.rows[k].attempts + 1 else 1;
            var t := AfterDelivery(s, k, h);
            && k in t.rows && Ended(t.rows[k], a, h.succeeds(k, a), s.now + h.takes(k, a))
            && t.now == s.now + h.takes(k, a)
            && t.log == s.log + [Started(k, a, s.now)] + [Settled(k, a, t.rows[k].status, t.now)]
            && (forall j :: j != k ==> Lookup(t.rows, j) == Lookup(s.rows, j))
  {
  }

  /** A delivery that is not listed is left alone. */
  lemma {:induction false} OthersAreLeftAlone(s: Store, keys: seq<Key>, h: Handler, k: Key)
    requires k !in keys
    ensures Lookup(AfterBatch(s, keys, h).rows, k) == Lookup(s.rows, k)
    decreases |keys|
  {
    if keys != [] {
      OthersAreLeftAlone(AfterDelivery(s, keys[0], h), keys[1..], h, k);
    }
  }

  /** So is one that has succeeded or is dead, listed or not. */
  ghost predicate IsFinal(s: Store, k: Key) {
    k in s.rows && (s.rows[k].status.Succeeded? || s.rows[k].status.DeadLetter?)
  }

  lemma {:induction false} FinalThroughBatch(s: Store, keys: seq<Key>, h: Handler, k: Key)
    requires IsFinal(s, k)
    ensures IsFinal(AfterBatch(s, keys, h), k) && AfterBatch(s, keys, h).rows[k] == s.rows[k]
    decreases |keys|
  {
    if keys != [] {
      FinalThroughBatch(AfterDelivery(s, keys[0], h), keys[1..], h, k);
    }
  }

  /** ... and it is never listed. */
  lemma FinalIsNotListed(s: Store, q: Query, consumer: Consumer, k: Key)
    requires IsFinal(s, k)
    ensures k !in Listing(s, q, consumer)
  {
    var events := PendingEventsFor(s.rows, s.now, q.outbox, consumer, q.limit, q.facility);
    forall i | 0 <= i < |events| ensures Key(events[i].id, consumer.name) != k {
      assert events[i] in events;
    }
  }

  lemma {:induction false} FinalThroughTick(s: Store, q: Query, consumers: seq<Consumer>, h: Handler, k: Key)
    requires IsFinal(s, k)
    ensures IsFinal(AfterTick(s, q, consumers, h), k) && AfterTick(s, q, consumers, h).rows[k] == s.rows[k]
    decreases |consumers|
  {
    if consumers != [] {
      FinalThroughBatch(s, Listing(s, q, consumers[0]), h, k);
      FinalThroughTick(AfterBatch(s, Listing(s, q, consumers[0]), h), q, consumers[1..], h, k);
    }
  }

  /** Listed deliveries as they stand: new, or failed and short of the last attempt. */
  ghost predicate Ready(s: Store, keys: seq<Key>) {
    && Distinct(keys)
    && forall i :: 0 <= i < |keys| && keys[i] in s.rows ==> s.rows[keys[i]].status.Failed? && s.rows[keys[i]].attempts < 5
  }

  function AttemptOn(s: Store, k: Key): Attempt {
    if k in s.rows then s.rows[k].attempts + 1 else 1
  }

  /** How many of the listed deliveries have a handler that succeeds. */
  ghost function Successes(s: Store, keys: seq<Key>, h: Handler): nat {
    if keys == [] then 0 else (if h.succeeds(keys[0], AttemptOn(s, keys[0])) then 1 else 0) + Successes(s, keys[1..], h)
  }

  lemma {:induction false} SuccessesElsewhere(s: Store, t: Store, keys: seq<Key>, h: Handler)
    requires forall i :: 0 <= i < |keys| ==> Lookup(t.rows, keys[i]) == Lookup(s.rows, keys[i])
    ensures Successes(t, keys, h) == Successes(s, keys, h)
  {
    if keys != [] {
      SuccessesElsewhere(s, t, keys[1..], h);
      assert Lookup(t.rows, keys[0]) == Lookup(s.rows, keys[0]);
    }
  }

  lemma FirstOfBatch(s: Store, keys: seq<Key>, h: Handler)
    requires keys != [] && Ready(s, keys)
    ensures var t := AfterDelivery(s, keys[0], h);
            && Ready(t, keys[1..]) && keys[0] !in keys[1..]
            && (forall i :: 0 <= i < |keys| - 1 ==> Lookup(t.rows, keys[1..][i]) == Lookup(s.rows, keys[1..][i]))
  {
    DeliveryEnds(s, keys[0], h);
    var t := AfterDelivery(s, keys[0], h);
    forall i | 0 <= i < |keys| - 1 ensures Lookup(t.rows, keys[1..][i]) == Lookup(s.rows, keys[1..][i]) {
      assert keys[1..][i] == keys[i + 1] && keys[i + 1] != keys[0];
    }
  }

  /** Every listed delivery of a batch is handled once, on its next attempt, and its row says how it ended. */
  lemma {:induction false} BatchEnds(s: Store, keys: seq<Key>, h: Handler, k: Key)
    requires Ready(s, keys) && k in keys
    ensures var a, t := AttemptOn(s, k), AfterBatch(s, keys, h);
            k in t.rows && exists at :: at >= s.now && Ended(t.rows[k], a, h.succeeds(k, a), at)
    decreases |keys|
  {
    var first := AfterDelivery(s, keys[0], h);
    DeliveryEnds(s, keys[0], h);
    FirstOfBatch(s, keys, h);
    if k == keys[0] {
      OthersAreLeftAlone(first, keys[1..], h, k);
      var t := AfterBatch(s, keys, h);
      assert Lookup(t.rows, k) == Lookup(first.rows, k);
      assert Ended(t.rows[k], AttemptOn(s, k), h.succeeds(k, AttemptOn(s, k)), s.now + h.takes(k, AttemptOn(s, k)));
    } else {
      var i :| 0 <= i < |keys| - 1 && keys[1..][i] == k;
      assert Lookup(first.rows, k) == Lookup(s.rows, k);
      BatchEnds(first, keys[1..], h, k);
      var a, t := AttemptOn(s, k), AfterBatch(s, keys, h);
      var at :| at >= first.now && Ended(t.rows[k], a, h.succeeds(k, a), at);
      assert at >= s.now;
    }
  }

  /** The batch counts as succeeded exactly the deliveries whose handler succeeds. */
  lemma {:induction false} BatchCountsSuccesses(s: Store, keys: seq<Key>, h: Handler)
    requires Ready(s, keys)
    ensures Count(AfterBatch(s, keys, h).log, Some(Succeeded)) == Count(s.log, Some(Succeeded)) + Successes(s, keys, h)
    ensures Count(AfterBatch(s, keys, h).log, None) == Count(s.log, None) + |keys|
    decreases |keys|
  {
    if keys != [] {
      var k, first := keys[0], AfterDelivery(s, keys[0], h);
      var a := AttemptOn(s, k);
      DeliveryEnds(s, k, h);
      FirstOfBatch(s, keys, h);
      CountTwo(s.log, Started(k, a, s.now), Settled(k, a, first.rows[k].status, first.now), Some(Succeeded));
      CountTwo(s.log, Started(k, a, s.now), Settled(k, a, first.rows[k].status, first.now), None);
      BatchCountsSuccesses(first, keys[1..], h);
      SuccessesElsewhere(s, first, keys[1..], h);
    }
  }

  /** Rows as the database keeps them: a failed one is short of the last attempt. */
  ghost predicate RowsOk(s: Store) {
    forall k :: k in s.rows ==> RowOk(s.rows[k])
  }

  lemma ListingIsReady(s: Store, q: Query, consumer: Consumer)
    requires RowsOk(s) && UniqueIds(q.outbox)
    ensures Ready(s, Listing(s, q, consumer))
  {
    var events := PendingEventsFor(s.rows, s.now, q.outbox, consumer, q.limit, q.facility);
    var keys := Listing(s, q, consumer);
    ListingIsDistinct(s.rows, s.now, q.outbox, consumer, q.limit, q.facility);
    forall i | 0 <= i < |keys| && keys[i] in s.rows ensures s.rows[keys[i]].status.Failed? && s.rows[keys[i]].attempts < 5 {
      assert events[i] in events;
    }
  }

  /** An event of the outbox that the consumer wants and has no row for, or a failed row that is due, is listed. */
  lemma NewOrDueIsListed(s: Store, q: Query, consumer: Consumer, e: Event)
    requires |q.outbox| <= q.limit && e in q.outbox && e.name in consumer.events
    requires q.facility.None? || q.facility == Some(e.facilityId)
    requires var k := Key(e.id, consumer.name);
             k !in s.rows
             || (s.rows[k].status.Failed? && s.rows[k].nextAttemptAt.Some? && s.rows[k].nextAttemptAt.value <= s.now)
    ensures Key(e.id, consumer.name) in Listing(s, q, consumer)
  {
    var events := PendingEventsFor(s.rows, s.now, q.outbox, consumer, q.limit, q.facility);
    EligibleIsPart(s.rows, s.now, q.outbox, consumer, q.facility);
    assert e in events;
    var i :| 0 <= i < |events| && events[i] == e;
    assert Listing(s, q, consumer)[i] == Key(e.id, consumer.name);
  }

  /** And nothing else is: a listed delivery is of an event in the outbox that the consumer subscribes to, in the facility asked for. */
  lemma OnlyWantedIsListed(s: Store, q: Query, consumer: Consumer, k: Key)
    requires k in Listing(s, q, consumer)
    ensures k.consumer == consumer.name && |Listing(s, q, consumer)| <= q.limit
    ensures exists e :: e in q.outbox && e.id == k.event && e.name in consumer.events
                        && (q.facility.Some? ==> e.facilityId == q.facility.value)
    ensures k !in s.rows
            || (s.rows[k].status.Failed? && s.rows[k].nextAttemptAt.Some? && s.rows[k].nextAttemptAt.value <= s.now)
  {
    var events := PendingEventsFor(s.rows, s.now, q.outbox, consumer, q.limit, q.facility);
    var i :| 0 <= i < |Listing(s, q, consumer)| && Listing(s, q, consumer)[i] == k;
    assert events[i] in events && Key(events[i].id, consumer.name) == k;
  }

  lemma {:induction false} EligibleIsPart(
    rows: map<Key, Row>, now: int, outbox: seq<Event>, consumer: Consumer, facility: Option<string>
  )
    ensures |Eligible(rows, now, outbox, consumer, facility)| <= |outbox|
  {
    if outbox != [] {
      EligibleIsPart(rows, now, outbox[1..], consumer, facility);
    }
  }

  /**
   A tick, for an event its first consumer has listed: if the handler succeeds the delivery is
   `succeeded` when the tick ends, counted, and in no later listing; if the fifth attempt fails it is
   dead, and in no later listing either.
   */
  lemma ListedDeliveryEnds(s: Store, q: Query, consumers: seq<Consumer>, h: Handler, k: Key)
    requires RowsOk(s) && UniqueIds(q.outbox) && consumers != [] && k in Listing(s, q, consumers[0])
    ensures var a, t := AttemptOn(s, k), AfterTick(s, q, consumers, h);
            && (h.succeeds(k, a) ==> k in t.rows && t.rows[k].status.Succeeded? && t.rows[k].attempts == a)
            && (!h.succeeds(k, a) && a == 5 ==> k in t.rows && t.rows[k].status.DeadLetter?)
            && (h.succeeds(k, a) || a == 5 ==> IsFinal(t, k))
  {
    var keys := Listing(s, q, consumers[0]);
    var batch := AfterBatch(s, keys, h);
    ListingIsReady(s, q, consumers[0]);
    BatchEnds(s, keys, h, k);
    if IsFinal(batch, k) {
      FinalThroughTick(batch, q, consumers[1..], h, k);
    }
  }

  /** The same for a consumer further down the list, from where the consumers before it left the table. */
  lemma {:induction false} TickSplits(s: Store, q: Query, before: seq<Consumer>, after: seq<Consumer>, h: Handler)
    ensures AfterTick(s, q, before + after, h) == AfterTick(AfterTick(s, q, before, h), q, after, h)
    decreases |before|
  {
    if before == [] {
      assert before + after == after;
    } else {
      assert (before + after)[1..] == before[1..] + after;
      TickSplits(AfterBatch(s, Listing(s, q, before[0]), h), q, before[1..], after, h);
    }
  }

  lemma {:induction false} BatchKeepsRowsOk(s: Store, keys: seq<Key>, h: Handler)
    requires RowsOk(s)
    ensures RowsOk(AfterBatch(s, keys, h))
    decreases |keys|
  {
    if keys != [] {
      var claimed := ClaimOutcome(s.rows, keys[0]);
      if claimed.Some? {
        assert keys[0] in s.rows ==> RowOk(s.rows[keys[0]]);
        DeliveryEnds(s, keys[0], h);
        DeliveryKeepsRowsOk(s, keys[0], h);
      }
      BatchKeepsRowsOk(AfterDelivery(s, keys[0], h), keys[1..], h);
    }
  }

  lemma DeliveryKeepsRowsOk(s: Store, k: Key, h: Handler)
    requires RowsOk(s) && (k !in s.rows || (s.rows[k].status.Failed? && s.rows[k].attempts < 5))
    ensures RowsOk(AfterDelivery(s, k, h))
  {
    DeliveryEnds(s, k, h);
    var t := AfterDelivery(s, k, h);
    forall j | j in t.rows ensures RowOk(t.rows[j]) {
      if j != k {
        assert Lookup(t.rows, j) == Lookup(s.rows, j);
      }
    }
  }

  /** Over a whole tick: the listed deliveries of each consumer in turn whose handler succeeds, and all listed ones. */
  ghost function TickSuccesses(s: Store, q: Query, consumers: seq<Consumer>, h: Handler): nat
    decreases |consumers|
  {
    if consumers == [] then 0
    else
      var keys := Listing(s, q, consumers[0]);
      Successes(s, keys, h) + TickSuccesses(AfterBatch(s, keys, h), q, consumers[1..], h)
  }

  lemma {:induction false} TickCountsSuccesses(s: Store, q: Query, consumers: seq<Consumer>, h: Handler)
    requires RowsOk(s) && UniqueIds(q.outbox)
    ensures Count(AfterTick(s, q, consumers, h).log, Some(Succeeded))
         == Count(s.log, Some(Succeeded)) + TickSuccesses(s, q, consumers, h)
    decreases |consumers|
  {
    if consumers != [] {
      var keys := Listing(s, q, consumers[0]);
      ListingIsReady(s, q, consumers[0]);
      BatchCountsSuccesses(s, keys, h);
      BatchKeepsRowsOk(s, keys, h);
      TickCountsSuccesses(AfterBatch(s, keys, h), q, consumers[1..], h);
    }
  }

  /** A later tick: some time passes, then it runs over whatever the outbox and the consumers are by then. */
  datatype Later = Later(idle: nat, q: Query, consumers: seq<Consumer>, h: Handler)

  function AfterTicks(s: Store, ticks: seq<Later>): Store {
    if ticks == [] then s
    else
      var before, tick := AfterTicks(s, ticks[..|ticks| - 1]), ticks[|ticks| - 1];
      AfterTick(before.(now := before.now + tick.idle), tick.q, tick.consumers, tick.h)
  }

  /** Once `succeeded` or dead, a delivery is not listed after any number of ticks, and its row is as it was. */
  lemma {:induction false} FinalForGood(s: Store, ticks: seq<Later>, q: Query, consumer: Consumer, k: Key)
    requires IsFinal(s, k)
    ensures var t := AfterTicks(s, ticks);
            IsFinal(t, k) && t.rows[k] == s.rows[k] && k !in Listing(t, q, consumer)
  {
    if ticks != [] {
      var tick := ticks[|ticks| - 1];
      FinalForGood(s, ticks[..|ticks| - 1], q, consumer, k);
      var before := AfterTicks(s, ticks[..|ticks| - 1]);
      FinalThroughTick(before.(now := before.now + tick.idle), tick.q, tick.consumers, tick.h, k);
    }
    FinalIsNotListed(AfterTicks(s, ticks), q, consumer, k);
  }

  // ---------------------------------------------------------------- dispatchEvents as code

  class EventStore {
    const outbox: seq<Event>
    var rows: map<Key, Row>
    var now: int
    ghost var log: seq<Entry>

    constructor (outbox: seq<Event>)
      ensures this.outbox == outbox && Contents() == Store(map[], 0, [])
    {
      this.outbox := outbox;
      rows, now, log := map[], 0, [];
    }

    ghost function Contents(): Store
      reads this
    {
      Store(rows, now, log)
    }

    /** `claim`: read the row, then create it or conditionally re-claim it. */
    method Claim(k: Key) returns (claimed: Option<Attempt>)
      modifies this
      ensures claimed == ClaimOutcome(old(rows), k)
      ensures Contents() == if claimed.None? then old(Contents()) else AfterClaim(old(Contents()), k, claimed.value)
    {
      var existing := if k in rows then Some(rows[k]) else None;
      if existing.None? {
        rows := rows[k := Row(Processing, 1, None, None)];
        log := log + [Started(k, 1, now)];
        return Some(1);
      }
      if !existing.value.status.Failed? {
        return None;
      }
      rows := rows[k := Row(Processing, existing.value.attempts + 1, None, None)];
      log := log + [Started(k, existing.value.attempts + 1, now)];
      return Some(existing.value.attempts + 1);
    }

    /** The `updateMany` after the handler returned or threw. */
    method SettleDelivery(k: Key, attempt: Attempt, ok: bool)
      modifies this
      ensures Contents() == AfterSettle(old(Contents()), k, attempt, ok)
      ensures k in old(rows) && old(rows)[k] == Row(Processing, attempt, None, None) ==>
                k in rows && Ended(rows[k], attempt, ok, now)
    {
      if k in rows {
        var row := rows[k];
        if ok {
          rows := rows[k := row.(status := Succeeded, completedAt := Some(now), nextAttemptAt := None)];
        } else if attempt >= MAX_ATTEMPTS {
          rows := rows[k := row.(status := DeadLetter, completedAt := Some(now), nextAttemptAt := None)];
        } else {
          rows := rows[k := row.(status := Failed, nextAttemptAt := Some(now + BackoffMs(attempt)))];
        }
      }
      log := log + [Settled(k, attempt, Outcome(attempt, ok), now)];
    }

    /** The body of the inner loop: claim, run the handler, settle, count. */
    method Deliver(k: Key, h: Handler, before: DispatchResult, ghost base: seq<Entry>) returns (result: DispatchResult)
      requires Tallies(before, base, log)
      modifies this
      ensures Contents() == AfterDelivery(old(Contents()), k, h)
      ensures Tallies(result, base, log)
    {
      var claimed := Claim(k);
      if claimed.None? {
        return before;
      }
      var attempt := claimed.value;
      ghost var started := Started(k, attempt, now);
      var ok := h.succeeds(k, attempt);
      now := now + h.takes(k, attempt);
      SettleDelivery(k, attempt, ok);
      result := Bump(before, Outcome(attempt, ok));
      TalliesBump(before, base, old(log), started, Settled(k, attempt, Outcome(attempt, ok), now));
    }

    /** The inner loop over one consumer's listed events. */
    method Drain(keys: seq<Key>, h: Handler, before: DispatchResult, ghost base: seq<Entry>) returns (result: DispatchResult)
      requires Tallies(before, base, log)
      modifies this
      ensures Contents() == AfterBatch(old(Contents()), keys, h)
      ensures Tallies(result, base, log)
    {
      result := before;
      assert keys[0..] == keys;
      for j := 0 to |keys|
        invariant AfterBatch(Contents(), keys[j..], h) == AfterBatch(old(Contents()), keys, h)
        invariant Tallies(result, base, log)
      {
        assert keys[j..][1..] == keys[j + 1..];
        result := Deliver(keys[j], h, result, base);
      }
    }

    /**
     A whole dispatcher tick: its effect is AfterTick, and its counters are the handler runs and
     settlements it logged, with nothing claimed left unsettled.
     */
    method DispatchEvents(consumers: seq<Consumer>, limit: nat, facility: Option<string>, h: Handler)
      returns (result: DispatchResult)
      modifies this
      ensures Contents() == AfterTick(old(Contents()), Query(outbox, limit, facility), consumers, h)
      ensures Tallies(result, old(log), log)
      ensures RowsOk(old(Contents())) && UniqueIds(outbox) ==>
                result.succeeded == TickSuccesses(old(Contents()), Query(outbox, limit, facility), consumers, h)
    {
      result := DispatchResult(0, 0, 0, 0);
      ghost var q := Query(outbox, limit, facility);
      assert consumers[0..] == consumers;
      for i := 0 to |consumers|
        invariant AfterTick(Contents(), q, consumers[i..], h) == AfterTick(old(Contents()), q, consumers, h)
        invariant Tallies(result, old(log), log)
      {
        assert consumers[i..][1..] == consumers[i + 1..];
        var events := PendingEventsFor(rows, now, outbox, consumers[i], limit, facility);
        result := Drain(KeysOf(events, consumers[i].name), h, result, old(log));
      }
      if RowsOk(old(Contents())) && UniqueIds(outbox) {
        TickCountsSuccesses(old(Contents()), q, consumers, h);
      }
    }
  }
}
