/**
 `runJob` without `force` (packages/core/jobs/runner.ts) as a transition system over one row per
 (job, facility, business date), with any number of workers. `startOf` says how often the handler
 was started; a run reports one outcome per item.
 */
module Jobs {
  import opened Wrappers

  datatype Key = Key(job: string, facility: Option<string>, date: int)

  datatype Status = Running | Succeeded | Partial | Failed

  datatype Row = Row(status: Status, itemsOk: nat, itemsFailed: nat)

  /** A worker: outside `runJob`, past the lookup, or inside the handler with the items reported so far. */
  datatype Pc = Idle | Looked(key: Key) | Working(key: Key, items: seq<bool>)

  datatype State = State(rows: map<Key, Row>, pcs: map<nat, Pc>, started: multiset<Key>, reported: map<Key, seq<bool>>)

  datatype Step =
    | Look(w: nat, key: Key)
    | Create(w: nat)
    | Record(w: nat, ok: bool)
    | Finish(w: nat, threw: bool)
    | Die(w: nat)

  const INIT := State(map[], map[], multiset{}, map[])

  function PcOf(s: State, w: nat): Pc {
    if w in s.pcs then s.pcs[w] else Idle
  }

  function FailedItems(items: seq<bool>): (r: nat)
    ensures r <= |items|
  {
    if items == [] then 0 else FailedItems(items[..|items| - 1]) + if items[|items| - 1] then 0 else 1
  }

  /** The row the run leaves behind, whether the handler returned or threw. */
  function FinishedRow(items: seq<bool>, threw: bool): Row {
    var failed := FailedItems(items);
    Row(if threw then Failed else if failed > 0 then Partial else Succeeded, |items| - failed, failed)
  }

  /** One step of one worker; a step the worker is not at changes nothing. */
  function Next(s: State, step: Step): State {
    match step
    case Look(w, key) =>
      if PcOf(s, w) != Idle then s
      else if key in s.rows then s  // skipped
      else s.(pcs := s.pcs[w := Looked(key)])
    case Create(w) =>
      var pc := PcOf(s, w);
      if !pc.Looked? then s
      else if pc.key in s.rows then s.(pcs := s.pcs[w := Idle])  // the unique index refused: skipped
      else State(s.rows[pc.key := Row(Running, 0, 0)], s.pcs[w := Working(pc.key, [])], s.started + multiset{pc.key}, s.reported)
    case Record(w, ok) =>
      var pc := PcOf(s, w);
      if !pc.Working? then s else s.(pcs := s.pcs[w := Working(pc.key, pc.items + [ok])])
    case Finish(w, threw) =>
      var pc := PcOf(s, w);
      if !pc.Working? then s
      else State(s.rows[pc.key := FinishedRow(pc.items, threw)], s.pcs[w := Idle], s.started, s.reported[pc.key := pc.items])
    case Die(w) => s.(pcs := s.pcs[w := Idle])
  }

  function ExecFrom(s: State, tr: seq<Step>): State {
    if tr == [] then s else Next(ExecFrom(s, tr[..|tr| - 1]), tr[|tr| - 1])
  }

  ghost predicate OwnerOk(s: State, w: nat) {
    w in s.pcs && s.pcs[w].Working? ==>
      && s.pcs[w].key in s.rows && s.rows[s.pcs[w].key].status.Running? && s.pcs[w].key !in s.reported
      && forall v :: v in s.pcs && s.pcs[v].Working? && s.pcs[v].key == s.pcs[w].key ==> v == w
  }

  ghost predicate RowOk(s: State, key: Key) {
    if key !in s.rows then s.started[key] == 0 && key !in s.reported
    else
      && s.started[key] == 1
      && (s.rows[key].status.Running? <==> key !in s.reported)
      && (key in s.reported ==> exists threw :: s.rows[key] == FinishedRow(s.reported[key], threw))
  }

  ghost predicate Inv(s: State) {
    (forall w :: OwnerOk(s, w)) && forall key :: RowOk(s, key)
  }

  lemma OwnersStay(s: State, step: Step, w: nat)
    requires Inv(s) && !step.Look?
    ensures OwnerOk(Next(s, step), w)
  {
    var t := Next(s, step);
    assert OwnerOk(s, w) && OwnerOk(s, step.w);
    if step.Create? && PcOf(s, step.w).Looked? {
      assert RowOk(s, PcOf(s, step.w).key);
    }
    if w in t.pcs && t.pcs[w].Working? {
      forall v | v in t.pcs && t.pcs[v].Working? && t.pcs[v].key == t.pcs[w].key ensures v == w {
        assert OwnerOk(s, v);
      }
    }
  }

  lemma RowsStay(s: State, step: Step, key: Key)
    requires Inv(s) && !step.Look?
    ensures RowOk(Next(s, step), key)
  {
    var t := Next(s, step);
    assert RowOk(s, key) && OwnerOk(s, step.w);
    if step.Finish? && PcOf(s, step.w).Working? && PcOf(s, step.w).key == key {
      assert t.rows[key] == FinishedRow(t.reported[key], step.threw);
    }
  }

  lemma InvNext(s: State, step: Step)
    requires Inv(s)
    ensures Inv(Next(s, step))
  {
    var t := Next(s, step);
    if step.Look? {
      assert forall w :: OwnerOk(s, w) ==> OwnerOk(t, w);
      assert forall key :: RowOk(s, key) ==> RowOk(t, key);
    } else {
      forall w ensures OwnerOk(t, w) { OwnersStay(s, step, w); }
      forall key ensures RowOk(t, key) { RowsStay(s, step, key); }
    }
  }

  lemma {:induction false} InvExecFrom(s: State, tr: seq<Step>)
    requires Inv(s)
    ensures Inv(ExecFrom(s, tr))
  {
    if tr != [] {
      InvExecFrom(s, tr[..|tr| - 1]);
      InvNext(ExecFrom(s, tr[..|tr| - 1]), tr[|tr| - 1]);
    }
  }

  /**
   In every interleaving the handler starts at most once per key, even if that run fails or its
   worker dies; a finished row counts exactly the items reported, ok and failed apart; and unless
   the handler threw, it is `partial` exactly when an item failed.
   */
  lemma RunsAtMostOnce(tr: seq<Step>, key: Key)
    ensures var s := ExecFrom(INIT, tr);
            && s.started[key] <= 1
            && (s.started[key] == 1 <==> key in s.rows)
            && (key in s.reported ==>
                  && key in s.rows && s.rows[key].itemsOk + s.rows[key].itemsFailed == |s.reported[key]|
                  && s.rows[key].itemsFailed == FailedItems(s.reported[key])
                  && !s.rows[key].status.Running?
                  && (!s.rows[key].status.Failed? ==>
                        (s.rows[key].status.Partial? <==> false in s.reported[key])))
  {
    InvExecFrom(INIT, tr);
    var s := ExecFrom(INIT, tr);
    assert RowOk(s, key);
    if key in s.reported {
      SomeFailed(s.reported[key]);
    }
  }

  /** A lookup that finds a row goes no further, and neither does a worker that is busy. */
  lemma LookupFindsTheRow(s: State, w: nat, key: Key)
    requires key in s.rows || PcOf(s, w) != Idle
    ensures Next(s, Look(w, key)) == s
  {
  }

  /** What a worker inside the handler leaves: `failed` if it threw, else `partial` iff an item failed; one run, no more. */
  lemma FinishRecordsHowItEnded(s: State, w: nat, threw: bool)
    requires PcOf(s, w).Working?
    ensures var Working(key, items) := PcOf(s, w);
            var t := Next(s, Finish(w, threw));
            && key in t.rows && t.reported == s.reported[key := items] && t.started == s.started
            && (t.rows[key].status.Failed? <==> threw)
            && (t.rows[key].status.Partial? <==> !threw && false in items)
            && (t.rows[key].status.Succeeded? <==> !threw && false !in items)
            && t.rows[key].itemsOk + t.rows[key].itemsFailed == |items| && t.rows[key].itemsFailed == FailedItems(items)
            && (forall k :: k in s.rows && k != key ==> k in t.rows && t.rows[k] == s.rows[k])
  {
    SomeFailed(PcOf(s, w).items);
  }

  /** Failed items are counted one by one: in any two parts of a list, apart. */
  lemma {:induction false} FailedItemsAdd(a: seq<bool>, b: seq<bool>)
    ensures FailedItems(a + b) == FailedItems(a) + FailedItems(b)
    ensures FailedItems([true]) == 0 && FailedItems([false]) == 1
  {
    assert [true][..0] == [] && [false][..0] == [];
    if b == [] {
      assert a + b == a;
    } else {
      FailedItemsAdd(a, b[..|b| - 1]);
      assert (a + b)[..|a + b| - 1] == a + b[..|b| - 1];
    }
  }

  lemma {:induction false} SomeFailed(items: seq<bool>)
    ensures FailedItems(items) > 0 <==> false in items
  {
    if items != [] {
      SomeFailed(items[..|items| - 1]);
      assert forall x :: x in items <==> x in items[..|items| - 1] || x == items[|items| - 1];
    }
  }

  /** Once a row exists no later step starts the handler for it again. */
  lemma {:induction false} NeverStartsAgain(s: State, key: Key, more: seq<Step>)
    requires Inv(s) && key in s.rows
    ensures key in ExecFrom(s, more).rows && ExecFrom(s, more).started[key] == s.started[key]
  {
    InvExecFrom(s, more);
    if more != [] {
      NeverStartsAgain(s, key, more[..|more| - 1]);
    }
    assert RowOk(s, key) && RowOk(ExecFrom(s, more), key);
  }

  // ---------------------------------------------------------------- runJob as code

  datatype RunResult = Skipped(inProgress: bool, row: Row) | Completed(row: Row)

  lemma ExecSnoc(s: State, tr: seq<Step>, step: Step)
    ensures ExecFrom(s, tr + [step]) == Next(ExecFrom(s, tr), step)
  {
    assert (tr + [step])[..|tr|] == tr;
  }

  /** The store with this caller as its only worker. */
  function Alone(rows: map<Key, Row>, started: multiset<Key>, reported: map<Key, seq<bool>>, pc: Pc): State {
    State(rows, map[0 := pc], started, reported)
  }

  lemma BeginAlone(rows: map<Key, Row>, started: multiset<Key>, reported: map<Key, seq<bool>>, key: Key)
    requires key !in rows
    ensures Next(Next(Alone(rows, started, reported, Idle), Look(0, key)), Create(0))
            == Alone(rows[key := Row(Running, 0, 0)], started + multiset{key}, reported, Working(key, []))
  {
    assert map[0 := Idle][0 := Looked(key)] == map[0 := Looked(key)];
    assert map[0 := Looked(key)][0 := Working(key, [])] == map[0 := Working(key, [])];
  }

  lemma RecordAlone(rows: map<Key, Row>, started: multiset<Key>, reported: map<Key, seq<bool>>, key: Key, items: seq<bool>, ok: bool)
    ensures Next(Alone(rows, started, reported, Working(key, items)), Record(0, ok))
            == Alone(rows, started, reported, Working(key, items + [ok]))
  {
    assert map[0 := Working(key, items)][0 := Working(key, items + [ok])] == map[0 := Working(key, items + [ok])];
  }

  lemma FinishAlone(rows: map<Key, Row>, started: multiset<Key>, reported: map<Key, seq<bool>>, key: Key, items: seq<bool>, threw: bool)
    ensures Next(Alone(rows, started, reported, Working(key, items)), Finish(0, threw))
            == Alone(rows[key := FinishedRow(items, threw)], started, reported[key := items], Idle)
  {
    assert map[0 := Working(key, items)][0 := Idle] == map[0 := Idle];
  }

  lemma {:induction false} RecordTrace(
    start: State, before: seq<Step>, rows: map<Key, Row>, started: multiset<Key>, reported: map<Key, seq<bool>>, key: Key,
    outcomes: seq<bool>
  ) returns (steps: seq<Step>)
    requires ExecFrom(start, before) == Alone(rows, started, reported, Working(key, []))
    ensures ExecFrom(start, steps) == Alone(rows, started, reported, Working(key, outcomes))
  {
    if outcomes == [] {
      steps := before;
    } else {
      var n := |outcomes| - 1;
      var earlier := RecordTrace(start, before, rows, started, reported, key, outcomes[..n]);
      steps := earlier + [Record(0, outcomes[n])];
      ExecSnoc(start, earlier, Record(0, outcomes[n]));
      RecordAlone(rows, started, reported, key, outcomes[..n], outcomes[n]);
      FrontAndLast(outcomes);
    }
  }

  lemma BeginTrace(start: State, key: Key) returns (steps: seq<Step>)
    requires start == Alone(start.rows, start.started, start.reported, Idle) && key !in start.rows
    ensures ExecFrom(start, steps)
            == Alone(start.rows[key := Row(Running, 0, 0)], start.started + multiset{key}, start.reported, Working(key, []))
  {
    BeginAlone(start.rows, start.started, start.reported, key);
    ExecSnoc(start, [], Look(0, key));
    ExecSnoc(start, [] + [Look(0, key)], Create(0));
    steps := [] + [Look(0, key)] + [Create(0)];
  }

  /** A fresh key's whole run, as steps of the transition system. */
  lemma RunTrace(start: State, key: Key, outcomes: seq<bool>, threw: bool) returns (steps: seq<Step>)
    requires start == Alone(start.rows, start.started, start.reported, Idle) && key !in start.rows
    ensures ExecFrom(start, steps)
            == Alone(start.rows[key := FinishedRow(outcomes, threw)], start.started + multiset{key},
                     start.reported[key := outcomes], Idle)
  {
    var begun := BeginTrace(start, key);
    var s := ExecFrom(start, begun);
    var recorded := RecordTrace(start, begun, s.rows, s.started, s.reported, key, outcomes);
    ExecSnoc(start, recorded, Finish(0, threw));
    FinishAlone(s.rows, s.started, s.reported, key, outcomes, threw);
    steps := recorded + [Finish(0, threw)];
    assert s.rows[key := FinishedRow(outcomes, threw)] == start.rows[key := FinishedRow(outcomes, threw)];
  }

  class JobStore {
    var rows: map<Key, Row>
    ghost var started: multiset<Key>
    ghost var reported: map<Key, seq<bool>>

    /**
     `outcomes` is what the handler reports item by item, `threw` how it ends. An existing row is
     skipped untouched; otherwise the handler runs once and the row holds its counts. RunTrace
     shows the second case to be a run of the transition system.
     */
    method RunJob(key: Key, outcomes: seq<bool>, threw: bool) returns (r: RunResult)
      modifies this
      ensures key in old(rows) ==>
                && r == Skipped(old(rows)[key].status.Running?, old(rows)[key])
                && rows == old(rows) && started == old(started) && reported == old(reported)
      ensures key !in old(rows) ==>
                && r == Completed(FinishedRow(outcomes, threw)) && rows == old(rows)[key := r.row]
                && started == old(started) + multiset{key} && reported == old(reported)[key := outcomes]
    {
      if key in rows {
        return Skipped(rows[key].status.Running?, rows[key]);
      }
      rows := rows[key := Row(Running, 0, 0)];
      var items: seq<bool> := [];
      for i := 0 to |outcomes|
        invariant items == outcomes[..i]
        invariant rows == old(rows)[key := Row(Running, 0, 0)] && started == old(started) && reported == old(reported)
      {
        items := items + [outcomes[i]];
      }
      assert items == outcomes;
      var failed := FailedItems(items);
      var row := if threw then Row(Failed, |items| - failed, failed)
                 else Row(if failed > 0 then Partial else Succeeded, |items| - failed, failed);
      rows := rows[key := row];
      started, reported := started + multiset{key}, reported[key := items];
      r := Completed(row);
    }
  }
}
