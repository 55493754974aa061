/** Reporting the outcome of an e-mandate registration and of the penny drop that checks the account. */
module EMandateStatus {
  import opened Tables

  datatype Status = INACTIVE | APPROVED | REJECTED | PENDING

  datatype Mandate = Mandate(pennyDrop: Status, emandate: Status, physical: Status,
                             failures: Option<seq<string>>, pennyFailures: Option<seq<string>>,
                             success: Option<string>, pennySuccess: Option<string>)

  /** A call: the parts it carries. An empty text counts as not given. */
  datatype Report = Report(pennyDrop: Option<Status>, emandate: Option<Status>, failure: Option<string>,
                           pennyFailure: Option<string>, success: Option<string>, pennySuccess: Option<string>)

  /** The mandate of a customer and, if there is a wallet, whether it is active. */
  datatype State = State(mandate: Option<Mandate>, wallet: Option<bool>)

  datatype Outcome = NoMandate | AwaitingApproval | Recorded

  predicate Given(text: Option<string>) {
    text.Some? && text.value != ""
  }

  function ListOf(data: Option<seq<string>>): seq<string> {
    match data
    case None => []
    case Some(list) => list
  }

  function Or<T>(given: Option<T>, kept: T): T {
    match given
    case None => kept
    case Some(v) => v
  }

  predicate BothApproved(m: Mandate) {
    m.emandate == APPROVED && m.pennyDrop == APPROVED
  }

  function Record(m: Mandate, r: Report): Mandate {
    Mandate(
      Or(r.pennyDrop, m.pennyDrop),
      Or(r.emandate, m.emandate),
      if |ListOf(m.failures)| > 1 then PENDING else m.physical,
      Some(ListOf(m.failures) + Reported([r])),
      Some(ListOf(m.pennyFailures) + ReportedPenny([r])),
      if Given(r.success) then r.success else m.success,
      if Given(r.pennySuccess) then r.pennySuccess else m.pennySuccess)
  }

  function Step(s: State, r: Report): (State, Outcome) {
    if s.mandate.None? then (s, NoMandate)
    else if s.mandate.value.physical == PENDING then (s, AwaitingApproval)
    else
      var m := Record(s.mandate.value, r);
      (State(Some(m), if s.wallet.None? then None else Some(BothApproved(m))), Recorded)
  }

  function Exec(s: State, run: seq<Report>): State {
    if run == [] then s else Step(Exec(s, run[..|run| - 1]), run[|run| - 1]).0
  }

  // ---------------------------------------------------------------------------------------
  // The history alone: which failures were reported, and which calls are recorded.
  // ---------------------------------------------------------------------------------------

  function Reported(run: seq<Report>): seq<string> {
    if run == [] then []
    else
      var last, before := run[|run| - 1], Reported(run[..|run| - 1]);
      if Given(last.failure) then before + [last.failure.value] else before
  }

  function ReportedPenny(run: seq<Report>): seq<string> {
    if run == [] then []
    else
      var last, before := run[|run| - 1], ReportedPenny(run[..|run| - 1]);
      if Given(last.pennyFailure) then before + [last.pennyFailure.value] else before
  }

  /** The penny-drop status last reported, or the one before the run. */
  function LastPennyDrop(run: seq<Report>, kept: Status): Status {
    if run == [] then kept
    else if run[|run| - 1].pennyDrop.Some? then run[|run| - 1].pennyDrop.value
    else LastPennyDrop(run[..|run| - 1], kept)
  }

  function LastEMandate(run: seq<Report>, kept: Status): Status {
    if run == [] then kept
    else if run[|run| - 1].emandate.Some? then run[|run| - 1].emandate.value
    else LastEMandate(run[..|run| - 1], kept)
  }

  /** The texts last reported with a success, empty ones not counted. */
  function LastSuccess(run: seq<Report>, kept: Option<string>): Option<string> {
    if run == [] then kept
    else if run[|run| - 1].success.Some? && run[|run| - 1].success.value != "" then run[|run| - 1].success
    else LastSuccess(run[..|run| - 1], kept)
  }

  function LastPennySuccess(run: seq<Report>, kept: Option<string>): Option<string> {
    if run == [] then kept
    else if run[|run| - 1].pennySuccess.Some? && run[|run| - 1].pennySuccess.value != "" then
      run[|run| - 1].pennySuccess
    else LastPennySuccess(run[..|run| - 1], kept)
  }

  /** The first calls are recorded, up to and including the first one made after two reported failures. */
  function RecordedCalls(run: seq<Report>): (n: nat)
    ensures n <= |run|
  {
    if |run| <= 1 then |run|
    else if |Reported(run[..|run| - 2])| < 2 then |run|
    else RecordedCalls(run[..|run| - 1])
  }

  /** A mandate nothing has failed for yet. */
  predicate Untouched(s: State) {
    && s.mandate.Some? && s.mandate.value.physical != PENDING
    && ListOf(s.mandate.value.failures) == [] && ListOf(s.mandate.value.pennyFailures) == []
  }

  lemma {:induction false} ReportedGrows(run: seq<Report>, n: nat)
    requires n <= |run|
    ensures Reported(run[..n]) <= Reported(run) && ReportedPenny(run[..n]) <= ReportedPenny(run)
    ensures |Reported(run)| <= |Reported(run[..n])| + (|run| - n)
  {
    if n < |run| {
      ReportedGrows(run[..|run| - 1], n);
      assert run[..|run| - 1][..n] == run[..n];
    } else {
      assert run[..n] == run;
    }
  }

  lemma OneReport(r: Report)
    ensures Reported([r]) == (if Given(r.failure) then [r.failure.value] else [])
    ensures ReportedPenny([r]) == (if Given(r.pennyFailure) then [r.pennyFailure.value] else [])
  {
    assert [r][..0] == [];
    assert Reported([r][..0]) == [] && ReportedPenny([r][..0]) == [];
  }

  /** What a mandate looks like after a run whose first n calls were recorded. */
  ghost predicate After(s: State, run: seq<Report>, n: nat, t: State)
    requires n <= |run| && s.mandate.Some?
  {
    && t.mandate.Some?
    && t.mandate.value.pennyDrop == LastPennyDrop(run[..n], s.mandate.value.pennyDrop)
    && t.mandate.value.emandate == LastEMandate(run[..n], s.mandate.value.emandate)
    && t.mandate.value.success == LastSuccess(run[..n], s.mandate.value.success)
    && t.mandate.value.pennySuccess == LastPennySuccess(run[..n], s.mandate.value.pennySuccess)
    && ListOf(t.mandate.value.failures) == Reported(run[..n])
    && ListOf(t.mandate.value.pennyFailures) == ReportedPenny(run[..n])
    && t.mandate.value.physical ==
         (if n > 0 && |Reported(run[..n - 1])| >= 2 then PENDING else s.mandate.value.physical)
    && (t.wallet.Some? <==> s.wallet.Some?)
    && (n == 0 ==> t.wallet == s.wallet)
    && (n > 0 && t.wallet.Some? ==>
          (t.wallet.value
           <==> LastEMandate(run[..n], s.mandate.value.emandate) == APPROVED
                && LastPennyDrop(run[..n], s.mandate.value.pennyDrop) == APPROVED))
  }

  lemma RecordedStep(s: State, run: seq<Report>, t: State)
    requires run != [] && s.mandate.Some?
    requires After(s, run[..|run| - 1], |run| - 1, t) && t.mandate.value.physical != PENDING
    ensures After(s, run, |run|, Step(t, run[|run| - 1]).0)
  {
    var before, last := run[..|run| - 1], run[|run| - 1];
    assert before[..|run| - 1] == before && run[..|run|] == run;
    OneReport(last);
  }

  /**
   * In every run the two statuses and success texts are those the recorded calls last carried, and the
   * failure lists are what they reported, in order. Physical verification is pending exactly when one of
   * them came after two failures, and the wallet, if any, is active exactly when the e-mandate and the
   * penny drop were both last reported approved.
   */
  lemma {:induction false} RunIsHistory(s: State, run: seq<Report>)
    requires Untouched(s)
    ensures After(s, run, RecordedCalls(run), Exec(s, run))
  {
    if run == [] {
      assert run[..0] == [];
    } else {
      var before, n := run[..|run| - 1], |run|;
      RunIsHistory(s, before);
      var m := RecordedCalls(before);
      assert before[..m] == run[..m] && (m > 0 ==> before[..m - 1] == run[..m - 1]);
      if n == 1 || |Reported(run[..n - 2])| < 2 {
        AllRecordedSoFar(run);
        RecordedStep(s, run, Exec(s, before));
      } else {
        assert before[..|before| - 1] == run[..n - 2];
        PendingBy(before);
      }
    }
  }

  lemma {:induction false} AllRecordedSoFar(run: seq<Report>)
    requires run != [] && (|run| == 1 || |Reported(run[..|run| - 2])| < 2)
    ensures RecordedCalls(run[..|run| - 1]) == |run| - 1
  {
    if |run| > 2 {
      var before := run[..|run| - 1];
      assert before[..|before| - 2] == run[..|run| - 2][..|run| - 3];
      ReportedGrows(run[..|run| - 2], |run| - 3);
    }
  }

  /** After two failures, one further call is recorded, and it leaves verification pending. */
  lemma {:induction false} PendingBy(run: seq<Report>)
    requires run != [] && |Reported(run[..|run| - 1])| >= 2
    ensures RecordedCalls(run) > 0 && |Reported(run[..RecordedCalls(run) - 1])| >= 2
  {
    if |run| > 1 && |Reported(run[..|run| - 2])| >= 2 {
      var before := run[..|run| - 1];
      assert before[..|before| - 1] == run[..|run| - 2];
      PendingBy(before);
      assert before[..RecordedCalls(before) - 1] == run[..RecordedCalls(before) - 1];
    }
  }

  lemma {:induction false} AtMostThreeReported(run: seq<Report>)
    ensures |Reported(run[..RecordedCalls(run)])| <= 3
  {
    var n := |run|;
    assert run[..n] == run;
    if n <= 1 {
      ReportedGrows(run, 0);
    } else if |Reported(run[..n - 2])| < 2 {
      ReportedGrows(run, n - 2);
    } else {
      AtMostThreeReported(run[..n - 1]);
      assert run[..n - 1][..RecordedCalls(run[..n - 1])] == run[..RecordedCalls(run[..n - 1])];
    }
  }

  /** The e-mandate failure list never exceeds three, however long the run. */
  lemma FailuresNeverExceedThree(s: State, run: seq<Report>)
    requires Untouched(s)
    ensures Exec(s, run).mandate.Some? && |ListOf(Exec(s, run).mandate.value.failures)| <= 3
  {
    RunIsHistory(s, run);
    AtMostThreeReported(run);
  }

  /** A call is recorded exactly when fewer than two failures had been reported before the call before it. */
  lemma RecordedExactly(s: State, run: seq<Report>, r: Report)
    requires Untouched(s)
    ensures Step(Exec(s, run), r).1 == Recorded <==> (run == [] || |Reported(run[..|run| - 1])| < 2)
    ensures Step(Exec(s, run), r).1 != Recorded ==> Step(Exec(s, run), r) == (Exec(s, run), AwaitingApproval)
  {
    RunIsHistory(s, run);
    if run != [] {
      var n := RecordedCalls(run);
      if |Reported(run[..|run| - 1])| >= 2 {
        PendingBy(run);
      } else if n > 0 {
        assert run[..|run| - 1][..n - 1] == run[..n - 1];
        ReportedGrows(run[..|run| - 1], n - 1);
      }
    }
  }

  /** `data ? data : []`, with the text pushed onto it if there is one. */
  method Push(data: Option<seq<string>>, text: Option<string>) returns (list: seq<string>)
    ensures list == ListOf(data) + if Given(text) then [text.value] else []
  {
    list := if data.Some? then data.value else [];
    if Given(text) {
      list := list + [text.value];
    }
  }

  class EMandateService {
    var mandate: Option<Mandate>
    var wallet: Option<bool>

    method EmandateStatusSet(r: Report) returns (o: Outcome)
      modifies this
      ensures (State(mandate, wallet), o) == Step(State(old(mandate), old(wallet)), r)
    {
      OneReport(r);
      hide Reported, ReportedPenny, Given, ListOf, Or;
      if mandate.None? {
        return NoMandate;
      }
      var emandate := mandate.value;
      if emandate.physical == PENDING {
        return AwaitingApproval;
      }
      // Whether the limit is reached is decided on the failures before this call.
      var physicalMandateStatus := if |ListOf(emandate.failures)| > 1 then PENDING else emandate.physical;
      var failureData := Push(emandate.failures, r.failure);
      var pennyFailureData := Push(emandate.pennyFailures, r.pennyFailure);
      var pennySuccess := if Given(r.pennySuccess) then r.pennySuccess else emandate.pennySuccess;
      var success := if Given(r.success) then r.success else emandate.success;
      // A status the report does not carry is left out of the update.
      emandate := Mandate(Or(r.pennyDrop, emandate.pennyDrop), Or(r.emandate, emandate.emandate), physicalMandateStatus,
                          Some(failureData), Some(pennyFailureData), success, pennySuccess);
      mandate := Some(emandate);
      if wallet.Some? {
        wallet := Some(emandate.emandate == APPROVED && emandate.pennyDrop == APPROVED);
      }
      o := Recorded;
    }
  }
}
