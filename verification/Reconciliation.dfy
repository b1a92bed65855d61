/**
 Expected against actual gate state (diffControllerState in packages/core/access/reconciliation.ts).
 The sentences a drift carries for people are not modelled.
 */
module Reconciliation {
  import opened Wrappers

  datatype Expected = Expected(id: string, codeHash: Option<string>, shouldOpen: bool, window: Option<string>)

  datatype Actual = Actual(
    id: Option<string>, externalId: string, codeHash: Option<string>, opens: bool, window: Option<string>)

  datatype Kind = MissingAtController | UnknownAtController | OpenStateMismatch | CodeMismatch | WindowMismatch

  datatype Drift = Drift(kind: Kind, credentialId: Option<string>, externalId: Option<string>, tooPermissive: bool)

  /** A string that is there and not empty, as a JavaScript condition reads it. */
  predicate Truthy(s: Option<string>) {
    s.Some? && s.value != ""
  }

  // ---------------------------------------------------------------- the specification

  function UnknownDrift(row: Actual): Drift {
    Drift(UnknownAtController, None, Some(row.externalId), row.opens)
  }

  function Unknowns(actual: seq<Actual>): seq<Drift> {
    if actual == [] then []
    else
      var before, row := Unknowns(actual[..|actual| - 1]), actual[|actual| - 1];
      if Truthy(row.id) then before else before + [UnknownDrift(row)]
  }

  /** The row the comparison uses for each credential: of several, the last. */
  function ById(actual: seq<Actual>): map<string, Actual> {
    if actual == [] then map[]
    else
      var before, row := ById(actual[..|actual| - 1]), actual[|actual| - 1];
      if Truthy(row.id) then before[row.id.value := row] else before
  }

  function Lookup(byId: map<string, Actual>, id: string): Option<Actual> {
    if id in byId then Some(byId[id]) else None
  }

  function Held(actual: seq<Actual>, id: string): Option<Actual> {
    Lookup(ById(actual), id)
  }

  predicate CodesDiffer(want: Expected, has: Actual) {
    Truthy(want.codeHash) && Truthy(has.codeHash) && want.codeHash != has.codeHash
  }

  /** The drifts of one expected credential, in the order they are reported. */
  function DriftsOf(want: Expected, held: Option<Actual>): seq<Drift> {
    match held
    case None => if want.shouldOpen then [Drift(MissingAtController, Some(want.id), None, false)] else []
    case Some(has) =>
      var id, at := Some(want.id), Some(has.externalId);
      (if has.opens != want.shouldOpen then [Drift(OpenStateMismatch, id, at, has.opens && !want.shouldOpen)] else [])
      + (if CodesDiffer(want, has) then [Drift(CodeMismatch, id, at, false)] else [])
      + (if want.window != has.window then [Drift(WindowMismatch, id, at, has.window.None?)] else [])
  }

  function DriftsOfAll(expected: seq<Expected>, byId: map<string, Actual>): seq<Drift> {
    if expected == [] then []
    else
      var want := expected[|expected| - 1];
      DriftsOfAll(expected[..|expected| - 1], byId)
      + DriftsOf(want, Lookup(byId, want.id))
  }

  function Diff(expected: seq<Expected>, actual: seq<Actual>): seq<Drift> {
    Unknowns(actual) + DriftsOfAll(expected, ById(actual))
  }

  // ---------------------------------------------------------------- the program

  method IndexActual(actual: seq<Actual>) returns (actualById: map<string, Actual>, drifts: seq<Drift>)
    ensures actualById == ById(actual) && drifts == Unknowns(actual)
  {
    actualById, drifts := map[], [];
    for i := 0 to |actual|
      invariant actualById == ById(actual[..i]) && drifts == Unknowns(actual[..i])
    {
      var row := actual[i];
      assert actual[..i + 1][..i] == actual[..i];
      if Truthy(row.id) {
        actualById := actualById[row.id.value := row];
      } else {
        drifts := drifts + [UnknownDrift(row)];
      }
    }
    TakeAll(actual);
  }

  method Compare(want: Expected, has: Actual) returns (drifts: seq<Drift>)
    ensures drifts == DriftsOf(want, Some(has))
  {
    drifts := [];
    if has.opens != want.shouldOpen {
      drifts := drifts
        + [Drift(OpenStateMismatch, Some(want.id), Some(has.externalId), has.opens && !want.shouldOpen)];
    }
    if CodesDiffer(want, has) {
      drifts := drifts + [Drift(CodeMismatch, Some(want.id), Some(has.externalId), false)];
    }
    if want.window != has.window {
      drifts := drifts
        + [Drift(WindowMismatch, Some(want.id), Some(has.externalId), has.window.None? && want.window.Some?)];
    }
  }

  method DiffControllerState(expected: seq<Expected>, actual: seq<Actual>) returns (drifts: seq<Drift>)
    ensures drifts == Diff(expected, actual)
  {
    var actualById, unknown := IndexActual(actual);
    var known: seq<Drift> := [];
    for i := 0 to |expected|
      invariant known == DriftsOfAll(expected[..i], actualById)
    {
      var want := expected[i];
      assert expected[..i + 1][..i] == expected[..i];
      var found: seq<Drift> := [];
      if want.id !in actualById {
        if want.shouldOpen {
          found := [Drift(MissingAtController, Some(want.id), None, false)];
        }
      } else {
        found := Compare(want, actualById[want.id]);
      }
      known := known + found;
    }
    TakeAll(expected);
    drifts := unknown + known;
  }

  // ---------------------------------------------------------------- what a report means

  /** Row k names a credential and no later row names the same one. */
  ghost predicate LastOfItsId(actual: seq<Actual>, k: nat)
    requires k < |actual|
  {
    Truthy(actual[k].id) && forall j :: k < j < |actual| ==> actual[j].id != actual[k].id
  }

  lemma {:induction false} HeldIsTheLastRow(actual: seq<Actual>, id: string)
    ensures Held(actual, id).Some? ==>
              exists k :: 0 <= k < |actual| && LastOfItsId(actual, k) && actual[k] == Held(actual, id).value && actual[k].id == Some(id)
    ensures forall k :: 0 <= k < |actual| && LastOfItsId(actual, k) && actual[k].id == Some(id) ==>
              Held(actual, id) == Some(actual[k])
  {
    if actual != [] {
      var n := |actual| - 1;
      var front := actual[..n];
      HeldIsTheLastRow(front, id);
      forall k | 0 <= k < n && actual[n].id != Some(id) && actual[k].id == Some(id)
        ensures LastOfItsId(actual, k) <==> LastOfItsId(front, k)
      {
        assert front[k] == actual[k];
      }
      if actual[n].id == Some(id) {
        assert Truthy(actual[n].id) ==> LastOfItsId(actual, n);
      } else if Held(actual, id).Some? {
        assert Held(front, id) == Held(actual, id);
        var k :| 0 <= k < n && LastOfItsId(front, k) && front[k] == Held(front, id).value && front[k].id == Some(id);
        assert LastOfItsId(actual, k);
      }
    }
  }

  predicate Agrees(want: Expected, held: Option<Actual>) {
    match held
    case None => !want.shouldOpen
    case Some(has) => has.opens == want.shouldOpen && !CodesDiffer(want, has) && want.window == has.window
  }

  lemma {:induction false} NoUnknownsIff(actual: seq<Actual>)
    ensures Unknowns(actual) == [] <==> forall k :: 0 <= k < |actual| ==> Truthy(actual[k].id)
  {
    if actual != [] {
      NoUnknownsIff(actual[..|actual| - 1]);
    }
  }

  lemma NoDriftIff(want: Expected, held: Option<Actual>)
    ensures DriftsOf(want, held) == [] <==> Agrees(want, held)
  {
  }

  lemma {:induction false} NoDriftsIff(expected: seq<Expected>, byId: map<string, Actual>)
    ensures DriftsOfAll(expected, byId) == [] <==>
              forall i :: 0 <= i < |expected| ==> Agrees(expected[i], Lookup(byId, expected[i].id))
  {
    if expected != [] {
      var front, want := expected[..|expected| - 1], expected[|expected| - 1];
      NoDriftsIff(front, byId);
      NoDriftIff(want, Lookup(byId, want.id));
      var before, own := DriftsOfAll(front, byId), DriftsOf(want, Lookup(byId, want.id));
      assert before + own == [] <==> before == [] && own == [];
    }
  }

  /** Which drifts an expectation gives, and with whose ids. */
  lemma WhichDrifts(want: Expected, held: Option<Actual>, d: Drift)
    ensures d in DriftsOf(want, held) <==>
              && d.credentialId == Some(want.id)
              && d.externalId == (if held.Some? then Some(held.value.externalId) else None)
              && match d.kind
                 case MissingAtController => held.None? && want.shouldOpen && !d.tooPermissive
                 case UnknownAtController => false
                 case OpenStateMismatch =>
                   held.Some? && held.value.opens != want.shouldOpen && d.tooPermissive == held.value.opens
                 case CodeMismatch =>
                   && held.Some? && want.codeHash.Some? && held.value.codeHash.Some?
                   && want.codeHash.value != "" && held.value.codeHash.value != ""
                   && want.codeHash.value != held.value.codeHash.value && !d.tooPermissive
                 case WindowMismatch =>
                   && held.Some? && want.window != held.value.window
                   && d.tooPermissive == (held.value.window.None? && want.window.Some?)
    ensures |DriftsOf(want, held)| <= 3
  {
  }

  /** An unnamed row is reported as unknown, with the controller's own id. */
  lemma {:induction false} WhichUnknowns(actual: seq<Actual>, d: Drift)
    ensures d in Unknowns(actual) <==>
              exists k :: 0 <= k < |actual| && (actual[k].id.None? || actual[k].id.value == "")
                && d == Drift(UnknownAtController, None, Some(actual[k].externalId), actual[k].opens)
  {
    if actual != [] {
      var front, row := actual[..|actual| - 1], actual[|actual| - 1];
      WhichUnknowns(front, d);
      assert forall k :: 0 <= k < |front| ==> front[k] == actual[k];
    }
  }

  /** Nothing is reported iff every row is of a named credential and every expected credential agrees with its row. */
  lemma NoDriftIffTheyAgree(expected: seq<Expected>, actual: seq<Actual>)
    ensures Diff(expected, actual) == [] <==>
              && (forall k :: 0 <= k < |actual| ==> Truthy(actual[k].id))
              && (forall i :: 0 <= i < |expected| ==> Agrees(expected[i], Held(actual, expected[i].id)))
  {
    NoUnknownsIff(actual);
    NoDriftsIff(expected, ById(actual));
  }

  // ---------------------------------------------------------------- the alarming drifts

  ghost predicate Alarming(drifts: seq<Drift>) {
    exists k :: 0 <= k < |drifts| && drifts[k].tooPermissive
  }

  /** The gate lets in someone this credential should not, or at hours it should not. */
  predicate MorePermissive(want: Expected, held: Option<Actual>) {
    held.Some? && ((held.value.opens && !want.shouldOpen) || (held.value.window.None? && want.window.Some?))
  }

  lemma AlarmingSplits(a: seq<Drift>, b: seq<Drift>)
    ensures Alarming(a + b) <==> Alarming(a) || Alarming(b)
  {
    if Alarming(a) {
      var k :| 0 <= k < |a| && a[k].tooPermissive;
      assert (a + b)[k].tooPermissive;
    }
    if Alarming(b) {
      var k :| 0 <= k < |b| && b[k].tooPermissive;
      assert (a + b)[|a| + k].tooPermissive;
    }
  }

  lemma DriftsOfAlarmIff(want: Expected, held: Option<Actual>)
    ensures Alarming(DriftsOf(want, held)) <==> MorePermissive(want, held)
  {
    if held.Some? {
      var id, at, has := Some(want.id), Some(held.value.externalId), held.value;
      var a := if has.opens != want.shouldOpen then [Drift(OpenStateMismatch, id, at, has.opens && !want.shouldOpen)] else [];
      var b := if CodesDiffer(want, has) then [Drift(CodeMismatch, id, at, false)] else [];
      var c := if want.window != has.window then [Drift(WindowMismatch, id, at, has.window.None?)] else [];
      AlarmingSplits(a + b, c);
      AlarmingSplits(a, b);
      assert a != [] ==> (Alarming(a) <==> a[0].tooPermissive);
      assert b != [] ==> !b[0].tooPermissive;
      assert c != [] ==> (Alarming(c) <==> c[0].tooPermissive);
    }
  }

  lemma {:induction false} UnknownsAlarmIff(actual: seq<Actual>)
    ensures Alarming(Unknowns(actual)) <==> exists k :: 0 <= k < |actual| && !Truthy(actual[k].id) && actual[k].opens
  {
    if actual != [] {
      var front, row := actual[..|actual| - 1], actual[|actual| - 1];
      UnknownsAlarmIff(front);
      AlarmingSplits(Unknowns(front), [UnknownDrift(row)]);
      assert Alarming([UnknownDrift(row)]) <==> row.opens by {
        assert [UnknownDrift(row)][0].tooPermissive == row.opens;
      }
      assert forall k :: 0 <= k < |front| ==> front[k] == actual[k];
    }
  }

  ghost predicate SomeMorePermissive(expected: seq<Expected>, byId: map<string, Actual>) {
    exists i :: 0 <= i < |expected| && MorePermissive(expected[i], Lookup(byId, expected[i].id))
  }

  lemma LastMorePermissive(expected: seq<Expected>, byId: map<string, Actual>)
    requires expected != []
    ensures var front, want := expected[..|expected| - 1], expected[|expected| - 1];
            SomeMorePermissive(expected, byId) <==>
              SomeMorePermissive(front, byId) || MorePermissive(want, Lookup(byId, want.id))
  {
    var front := expected[..|expected| - 1];
    assert forall i :: 0 <= i < |front| ==> front[i] == expected[i];
  }

  lemma {:induction false} KnownAlarmIff(expected: seq<Expected>, byId: map<string, Actual>)
    ensures Alarming(DriftsOfAll(expected, byId)) <==> SomeMorePermissive(expected, byId)
  {
    if expected != [] {
      var front, want := expected[..|expected| - 1], expected[|expected| - 1];
      KnownAlarmIff(front, byId);
      DriftsOfAlarmIff(want, Lookup(byId, want.id));
      AlarmingSplits(DriftsOfAll(front, byId), DriftsOf(want, Lookup(byId, want.id)));
      LastMorePermissive(expected, byId);
    }
  }

  /** An alarm is raised iff an unnamed row opens the gate, or a credential's row is more permissive than intended. */
  lemma AlarmIff(expected: seq<Expected>, actual: seq<Actual>)
    ensures Alarming(Diff(expected, actual)) <==>
              (exists k :: 0 <= k < |actual| && !Truthy(actual[k].id) && actual[k].opens)
              || exists i :: 0 <= i < |expected| && MorePermissive(expected[i], Held(actual, expected[i].id))
  {
    AlarmingSplits(Unknowns(actual), DriftsOfAll(expected, ById(actual)));
    UnknownsAlarmIff(actual);
    KnownAlarmIff(expected, ById(actual));
  }

  ghost predicate IsExpected(expected: seq<Expected>, id: Option<string>) {
    exists i :: 0 <= i < |expected| && Some(expected[i].id) == id
  }

  /** The row is compared: it names no credential, or is the last one for a credential that is expected. */
  ghost predicate Compared(expected: seq<Expected>, actual: seq<Actual>, k: nat)
    requires k < |actual|
  {
    !Truthy(actual[k].id) || (LastOfItsId(actual, k) && IsExpected(expected, actual[k].id))
  }

  /** Without an alarm, a row that was compared and opens the gate is one every expectation of it lets open. */
  lemma NoAlarmMeansWhatOpensMay(expected: seq<Expected>, actual: seq<Actual>, k: nat)
    requires k < |actual| && Compared(expected, actual, k) && actual[k].opens && !Alarming(Diff(expected, actual))
    ensures IsExpected(expected, actual[k].id)
    ensures forall i :: 0 <= i < |expected| && Some(expected[i].id) == actual[k].id ==>
              expected[i].shouldOpen && (expected[i].window.Some? ==> actual[k].window.Some?)
  {
    AlarmIff(expected, actual);
    assert Truthy(actual[k].id);
    HeldIsTheLastRow(actual, actual[k].id.value);
    forall i | 0 <= i < |expected| && Some(expected[i].id) == actual[k].id
      ensures expected[i].shouldOpen && (expected[i].window.Some? ==> actual[k].window.Some?)
    {
      assert !MorePermissive(expected[i], Held(actual, expected[i].id));
    }
  }

  function Without(actual: seq<Actual>, k: nat): seq<Actual>
    requires k < |actual|
  {
    actual[..k] + actual[k + 1..]
  }

  lemma {:induction false} HeldWithout(actual: seq<Actual>, k: nat, id: string)
    requires k < |actual| && Truthy(actual[k].id) && (actual[k].id != Some(id) || !LastOfItsId(actual, k))
    ensures Held(Without(actual, k), id) == Held(actual, id) && Unknowns(Without(actual, k)) == Unknowns(actual)
  {
    var n := |actual| - 1;
    var front := actual[..n];
    if k == n {
      assert Without(actual, k) == front;
    } else {
      assert Without(actual, k) == Without(front, k) + [actual[n]];
      assert (Without(front, k) + [actual[n]])[..n - 1] == Without(front, k);
      if actual[k].id != Some(id) || actual[n].id != actual[k].id {
        assert LastOfItsId(front, k) && actual[n].id != actual[k].id ==> LastOfItsId(actual, k);
        HeldWithout(front, k, id);
      } else {
        UnknownsWithout(front, k);
      }
    }
  }

  lemma {:induction false} UnknownsWithout(actual: seq<Actual>, k: nat)
    requires k < |actual| && Truthy(actual[k].id)
    ensures Unknowns(Without(actual, k)) == Unknowns(actual)
  {
    var n := |actual| - 1;
    var front := actual[..n];
    if k == n {
      assert Without(actual, k) == front;
    } else {
      assert Without(actual, k) == Without(front, k) + [actual[n]];
      assert (Without(front, k) + [actual[n]])[..n - 1] == Without(front, k);
      UnknownsWithout(front, k);
    }
  }

  lemma {:induction false} SameHeldSameDrifts(expected: seq<Expected>, a: seq<Actual>, b: seq<Actual>)
    requires forall i :: 0 <= i < |expected| ==> Held(a, expected[i].id) == Held(b, expected[i].id)
    ensures DriftsOfAll(expected, ById(a)) == DriftsOfAll(expected, ById(b))
  {
    if expected != [] {
      var want := expected[|expected| - 1];
      SameHeldSameDrifts(expected[..|expected| - 1], a, b);
      assert Held(a, want.id) == Held(b, want.id);
    }
  }

  /** And that is as far as a report reaches: a row that is not compared could as well not be there. */
  lemma RowsNotComparedDoNotMatter(expected: seq<Expected>, actual: seq<Actual>, k: nat)
    requires k < |actual| && !Compared(expected, actual, k)
    ensures Diff(expected, Without(actual, k)) == Diff(expected, actual)
  {
    UnknownsWithout(actual, k);
    forall i | 0 <= i < |expected|
      ensures Held(Without(actual, k), expected[i].id) == Held(actual, expected[i].id)
    {
      HeldWithout(actual, k, expected[i].id);
    }
    SameHeldSameDrifts(expected, Without(actual, k), actual);
  }
}
