/**
 * Who decides a request, what an approval brings about and when an action is accepted: told from the
 * actions and answers of a run, and from the rows that can be seen.
 */
module ApprovalAnswers {
  import opened Tables
  import opened Approvals
  import opened ApprovalPaths

  // ---------------------------------------------------------------------------------------
  // Requests and their authors.
  // ---------------------------------------------------------------------------------------

  lemma RequestIsStored(s: State, a: Action)
    requires Step(s, a).1.Requested?
    ensures var (t, o) := Step(s, a);
      && !a.Decide? && !a.u.superadmin && o.id == |s.requests| && |t.requests| == |s.requests| + 1 && t.live == s.live
      && o.effect.c == a.c == t.requests[o.id].customer
      && t.requests[o.id].author == a.u.id && t.requests[o.id].status == Pending
      && t.requests[o.id].op == OperationOf(a)
  {
  }

  lemma DecisionIsMade(s: State, a: Action, id: RequestId)
    requires Decides(Step(s, a).1, id)
    ensures a.Decide? && a.id == id && id < |s.requests| && s.requests[id].status == Pending
    ensures Step(s, a).1 == if a.approve then RequestApproved(id) else RequestRejected(id)
    ensures a.u.superadmin || a.u.id != s.requests[id].author
    ensures a.approve || a.hasReason
  {
  }

  /** The requests of a run are made one after another, each by the answer that gave it its number. */
  lemma {:induction false} RequestHasAuthor(live: Snapshot, run: seq<Action>, n: nat, id: RequestId) returns (i: nat)
    requires n <= |run| && id < |Exec(live, run[..n]).requests|
    ensures i < n && Events(live, run)[i].Requested? && Events(live, run)[i].id == id
    ensures !run[i].Decide? && !run[i].u.superadmin
    ensures var r := Exec(live, run[..n]).requests[id];
      r.author == run[i].u.id && r.customer == run[i].c == Events(live, run)[i].effect.c && r.op == OperationOf(run[i])
  {
    hide Step;
    EventAt(live, run, n - 1);
    var s, a := Exec(live, run[..n - 1]), run[n - 1];
    StatusSteps(s, a);
    if id < |s.requests| {
      i := RequestHasAuthor(live, run, n - 1, id);
    } else {
      i := n - 1;
      NewRequestIsAnswered(s, a);
      RequestIsStored(s, a);
    }
  }

  lemma NewRequestIsAnswered(s: State, a: Action)
    ensures |Step(s, a).0.requests| > |s.requests| <==> Step(s, a).1.Requested?
  {
  }

  /** Numbers are given out once. */
  lemma RequestedOnce(live: Snapshot, run: seq<Action>, i: nat, j: nat)
    requires i < |run| && j < |run|
    requires Events(live, run)[i].Requested? && Events(live, run)[j].Requested?
    requires Events(live, run)[i].id == Events(live, run)[j].id
    ensures i == j
  {
    hide Step;
    EventAt(live, run, i);
    EventAt(live, run, j);
    RequestIsStored(Exec(live, run[..i]), run[i]);
    RequestIsStored(Exec(live, run[..j]), run[j]);
    var id := Events(live, run)[i].id;
    if i < j {
      RequestKept(live, run, i + 1, j, id);
    } else if j < i {
      RequestKept(live, run, j + 1, i, id);
    }
  }

  /**
   * In every run a request is decided after it was made, by an action that says how, and by somebody
   * other than its author unless that is a superadmin.
   */
  lemma DecidedBySomebodyElse(live: Snapshot, run: seq<Action>, i: nat, j: nat, id: RequestId)
    requires i < |run| && j < |run|
    requires Events(live, run)[i].Requested? && Events(live, run)[i].id == id && Decides(Events(live, run)[j], id)
    ensures i < j && run[j].Decide? && run[j].id == id
    ensures Events(live, run)[j] == if run[j].approve then RequestApproved(id) else RequestRejected(id)
    ensures run[j].u.superadmin || run[j].u.id != run[i].u.id
  {
    hide Step;
    EventAt(live, run, j);
    DecisionIsMade(Exec(live, run[..j]), run[j], id);
    var k := RequestHasAuthor(live, run, j, id);
    RequestedOnce(live, run, i, k);
  }

  lemma LiveKept(s: State, a: Action)
    ensures Step(s, a).0.live == s.live || Step(s, a).1.RequestApproved? || (Step(s, a).1.Direct? && a.u.superadmin)
    ensures Step(s, a).1.Direct? ==> !a.Decide? && a.u.superadmin
    ensures Step(s, a).1.RequestApproved? ==> a.Decide? && a.approve && Step(s, a).1.id == a.id
  {
  }

  /**
   * The live tables change only when a superadmin acts, or when a request made before is approved by
   * somebody else than its author, or by a superadmin. In the second case i is where the request was made.
   */
  lemma LiveChangesOnlySo(live: Snapshot, run: seq<Action>, j: nat) returns (i: nat)
    requires j < |run| && Exec(live, run[..j + 1]).live != Exec(live, run[..j]).live
    ensures
      || (Events(live, run)[j].Direct? && !run[j].Decide? && run[j].u.superadmin)
      || (&& run[j].Decide? && run[j].approve && Events(live, run)[j] == RequestApproved(run[j].id)
          && i < j && Events(live, run)[i].Requested? && Events(live, run)[i].id == run[j].id
          && (run[j].u.superadmin || run[j].u.id != run[i].u.id))
  {
    hide Step;
    i := 0;
    EventAt(live, run, j);
    LiveKept(Exec(live, run[..j]), run[j]);
    if Events(live, run)[j].RequestApproved? {
      DecisionIsMade(Exec(live, run[..j]), run[j], run[j].id);
      i := RequestHasAuthor(live, run, j, run[j].id);
    }
  }

  // ---------------------------------------------------------------------------------------
  // What an action brings about, at once or once approved.
  // ---------------------------------------------------------------------------------------

  ghost predicate SameDevices(before: Snapshot, after: Snapshot) {
    after.devices == before.devices
  }

  ghost predicate SameMandates(before: Snapshot, after: Snapshot) {
    after.mandates == before.mandates
  }

  /** The visible rows before and after the action took effect: all that changed, and how. */
  ghost predicate Did(before: Snapshot, after: Snapshot, a: Action)
    requires !a.Decide?
  {
    var bs, cs := before.customers, after.customers;
    match a
    case AskBlock(c, unblock, _) =>
      && |cs| == |bs|
      && (forall i :: 0 <= i < |bs| ==> cs[i] == if bs[i].id == c then bs[i].(active := unblock) else bs[i])
      && |after.devices| == |before.devices|
      && (forall i :: 0 <= i < |before.devices| ==> var d := before.devices[i];
            after.devices[i] == if unblock && d.customer == c then d.(attempts := 0) else d)
      && SameMandates(before, after)
    case AskLock(c, lock, _) =>
      && |cs| == |bs|
      && (forall i :: 0 <= i < |bs| ==> cs[i] == if bs[i].id == c then bs[i].(txLocked := lock) else bs[i])
      && SameDevices(before, after) && SameMandates(before, after)
    case AskResetPin(c, _) =>
      && |cs| == |bs|
      && (forall i :: 0 <= i < |bs| ==> cs[i] == if bs[i].id == c then bs[i].(mpinSet := false) else bs[i])
      && SameDevices(before, after) && SameMandates(before, after)
    case AskResetDevice(c, _) =>
      && cs == bs && SameMandates(before, after)
      && (forall d :: d in after.devices <==> d in before.devices && d.customer != c)
    case AskDelete(c, _) =>
      && (forall r :: r in cs <==> r in bs && r.id != c)
      && (forall d :: d in after.devices <==> d in before.devices && d.customer != c)
      && (forall m :: m in after.mandates <==> m in before.mandates && m.customer != c)
    case AskUpdate(c, form, _, _, _) =>
      && |cs| == |bs|
      && (forall i :: 0 <= i < |bs| ==>
            if bs[i].id == c then
              && cs[i].(fields := map[], txLocked := false) == bs[i].(fields := map[], txLocked := false)
              && (form.lock.Some? ==> cs[i].txLocked == form.lock.value)
              && Carries(cs[i].fields, form.fields)
            else cs[i] == bs[i])
      && SameDevices(before, after)
      && |after.mandates| == |before.mandates|
      && (forall i :: 0 <= i < |before.mandates| ==>
            var m, n := before.mandates[i], after.mandates[i];
            if m.customer == c then n.customer == c && Carries(n.fields, form.mandate) else n == m)
  }

  /** The row has every value of the form that is not null. */
  predicate Carries(row: Patch, form: Patch) {
    forall k :: k in form && form[k].Some? ==> k in row && row[k] == form[k]
  }

  /** The effect is the one the action is for. */
  ghost predicate Intends(a: Action, e: Effect)
    requires !a.Decide?
  {
    match a
    case AskBlock(c, unblock, _) => e == SetActive(c, unblock)
    case AskLock(c, lock, _) => e == SetTxLock(c, lock)
    case AskResetPin(c, _) => e == ClearMpin(c)
    case AskResetDevice(c, _) => e == DropDevice(c)
    case AskDelete(c, _) => e == Remove(c)
    case AskUpdate(c, form, _, _, _) =>
      && e.Edit? && e.c == c && Carries(e.fields, form.fields) && Carries(e.mandate, form.mandate)
      && (form.lock.Some? ==> e.lock == form.lock)
  }

  lemma IntendedIsDone(live: Snapshot, a: Action, e: Effect)
    requires !a.Decide? && Intends(a, e)
    ensures Did(live, Apply(live, e), a)
  {
    match a
    case AskBlock(c, unblock, _) =>
      OverlayAt(live.customers, HasId(c), PutActive(unblock));
      OverlayAt(live.devices, DeviceOf(c), ClearedAttempts());
    case AskLock(c, lock, _) => OverlayAt(live.customers, HasId(c), PutTxLock(lock));
    case AskResetPin(c, _) => OverlayAt(live.customers, HasId(c), ClearedMpin());
    case AskResetDevice(c, _) => WithoutMembers(live.devices, DeviceOf(c));
    case AskDelete(c, _) =>
      WithoutMembers(live.customers, HasId(c));
      WithoutMembers(live.devices, DeviceOf(c));
      WithoutMembers(live.mandates, MandateOf(c));
    case AskUpdate(c, form, _, _, _) =>
      OverlayAt(live.customers, HasId(c), Patched(e.fields, e.lock));
      OverlayAt(live.mandates, MandateOf(c), PatchedMandate(e.mandate));
  }

  lemma AskedIsIntended(s: State, a: Action)
    ensures Step(s, a).1.Direct? ==>
      !a.Decide? && Intends(a, Step(s, a).1.effect) && Step(s, a).0.live == Apply(s.live, Step(s, a).1.effect)
    ensures Step(s, a).1.Requested? ==> !a.Decide? && Intends(a, Step(s, a).1.effect)
  {
    hide Objection, Apply;
  }

  /** A superadmin's action does what it is for, at once. */
  lemma DirectDoes(live: Snapshot, run: seq<Action>, j: nat)
    requires j < |run| && Events(live, run)[j].Direct?
    ensures !run[j].Decide? && Did(Exec(live, run[..j]).live, Exec(live, run[..j + 1]).live, run[j])
  {
    hide Step, Apply, Did;
    EventAt(live, run, j);
    AskedIsIntended(Exec(live, run[..j]), run[j]);
    IntendedIsDone(Exec(live, run[..j]).live, run[j], Events(live, run)[j].effect);
  }

  /** A superadmin's update writes the columns of its form, nulls included, and no others. */
  lemma DirectUpdateDoes(live: Snapshot, run: seq<Action>, j: nat)
    requires j < |run| && Events(live, run)[j].Direct? && run[j].AskUpdate?
    ensures var before, after := Exec(live, run[..j]).live, Exec(live, run[..j + 1]).live;
      && |after.customers| == |before.customers| && |after.mandates| == |before.mandates|
      && (forall i :: 0 <= i < |before.customers| && before.customers[i].id == run[j].c ==>
            after.customers[i].fields == before.customers[i].fields + run[j].form.fields
            && (run[j].form.lock.None? ==> after.customers[i].txLocked == before.customers[i].txLocked))
      && (forall i :: 0 <= i < |before.mandates| && before.mandates[i].customer == run[j].c ==>
            after.mandates[i].fields == before.mandates[i].fields + run[j].form.mandate)
  {
    EventAt(live, run, j);
    var before, e := Exec(live, run[..j]).live, Events(live, run)[j].effect;
    AskedIsIntended(Exec(live, run[..j]), run[j]);
    DirectUpdateEffect(Exec(live, run[..j]), run[j]);
    hide Step, Exec, Events;
    OverlayAt(before.customers, HasId(e.c), Patched(e.fields, e.lock));
    OverlayAt(before.mandates, MandateOf(e.c), PatchedMandate(e.mandate));
  }

  lemma DirectUpdateEffect(s: State, a: Action)
    requires a.AskUpdate? && Step(s, a).1.Direct?
    ensures Step(s, a).1.effect == Edit(a.c, a.form.fields, a.form.lock, a.form.mandate)
  {
    hide Objection, Apply;
  }

  /** While a request is pending, the book-keeper has it open with the effect first noted. */
  lemma {:induction false} NotedIsKept(live: Snapshot, run: seq<Action>, i: nat, j: nat)
    requires i < j <= |run| && Events(live, run)[i].Requested?
    ensures var (e, b) := (Events(live, run)[i], Replay(live, Events(live, run)[..j]));
      e.id in b.open ==> b.open[e.id] == e.effect
    decreases j
  {
    hide Step;
    var ev := Events(live, run);
    assert ev[..j][..j - 1] == ev[..j - 1];
    if i < j - 1 {
      NotedIsKept(live, run, i, j - 1);
      if ev[j - 1].Requested? && ev[j - 1].id == ev[i].id {
        RequestedOnce(live, run, i, j - 1);
      }
    }
  }

  lemma ApprovalApplies(s: State, a: Action)
    requires Step(s, a).1.RequestApproved?
    ensures a.Decide? && a.id < |s.requests|
    ensures Step(s, a).0.live == Apply(s.live, EffectOf(s.requests[a.id], PendingFields(s, a.id)))
  {
    hide Apply, EffectOf;
  }

  /** An approved request does what the action that made it is for. */
  lemma ApprovalDoes(live: Snapshot, run: seq<Action>, i: nat, j: nat)
    requires i < |run| && j < |run| && Events(live, run)[i].Requested?
    requires Events(live, run)[j] == RequestApproved(Events(live, run)[i].id)
    ensures i < j && !run[i].Decide?
    ensures Did(Exec(live, run[..j]).live, Exec(live, run[..j + 1]).live, run[i])
  {
    hide Step, Apply, Did, EffectOf, Replay;
    var ev, id := Events(live, run), Events(live, run)[i].id;
    DecidedBySomebodyElse(live, run, i, j, id);
    EventAt(live, run, i);
    EventAt(live, run, j);
    var s := Exec(live, run[..j]);
    DecisionIsMade(s, run[j], id);
    ApprovalApplies(s, run[j]);
    LiveIsReplay(live, run[..j]);
    EventsPrefix(live, run, j);
    NotedIsKept(live, run, i, j);
    AskedIsIntended(Exec(live, run[..i]), run[i]);
    IntendedIsDone(s.live, run[i], ev[i].effect);
  }

  // ---------------------------------------------------------------------------------------
  // When an action is accepted.
  // ---------------------------------------------------------------------------------------

  /** The request made at i has not been decided. */
  ghost predicate Undecided(ev: seq<Outcome>, i: nat)
    requires i < |ev|
  {
    ev[i].Requested? && forall j :: i < j < |ev| ==> !Decides(ev[j], ev[i].id)
  }

  ghost predicate PendingBy(ev: seq<Outcome>, c: CustomerId) {
    exists i :: 0 <= i < |ev| && Undecided(ev, i) && ev[i].effect.c == c
  }

  lemma {:induction false} StaysPending(live: Snapshot, run: seq<Action>, i: nat, n: nat)
    requires i < n <= |run| && Events(live, run)[i].Requested?
    requires forall j :: i < j < n ==> !Decides(Events(live, run)[j], Events(live, run)[i].id)
    ensures var id := Events(live, run)[i].id;
      && id < |Exec(live, run[..n]).requests| && Exec(live, run[..n]).requests[id].status == Pending
      && Exec(live, run[..n]).requests[id].customer == Events(live, run)[i].effect.c
  {
    hide Step;
    EventAt(live, run, n - 1);
    if i == n - 1 {
      RequestIsStored(Exec(live, run[..i]), run[i]);
    } else {
      StaysPending(live, run, i, n - 1);
      StatusSteps(Exec(live, run[..n - 1]), run[n - 1]);
    }
  }

  /** A request is pending in the table exactly when the history made it and did not decide it. */
  lemma PendingIsUndecided(live: Snapshot, run: seq<Action>, i: nat)
    requires i < |run| && Events(live, run)[i].Requested?
    ensures var id := Events(live, run)[i].id;
      && id < |Exec(live, run).requests|
      && (Exec(live, run).requests[id].status == Pending <==> Undecided(Events(live, run), i))
  {
    hide Step;
    var ev := Events(live, run);
    assert run[..|run|] == run;
    EventAt(live, run, i);
    RequestIsStored(Exec(live, run[..i]), run[i]);
    RequestKept(live, run, i + 1, |run|, ev[i].id);
    if Undecided(ev, i) {
      StaysPending(live, run, i, |run|);
    } else {
      var j :| i < j < |run| && Decides(ev[j], ev[i].id);
      EventAt(live, run, j);
      DecisionIsMade(Exec(live, run[..j]), run[j], ev[i].id);
      StatusSteps(Exec(live, run[..j]), run[j]);
      StatusIsFinal(live, run, j + 1, |run|, ev[i].id);
    }
  }

  lemma PendingIsHistory(live: Snapshot, run: seq<Action>, c: CustomerId)
    ensures HasPending(Exec(live, run), c) <==> PendingBy(Events(live, run), c)
  {
    hide Step, Exec;
    var s, ev := Exec(live, run), Events(live, run);
    assert run[..|run|] == run;
    if HasPending(s, c) {
      hide Undecided;
      var id: nat :| id < |s.requests| && s.requests[id].customer == c && s.requests[id].status == Pending;
      var i := RequestHasAuthor(live, run, |run|, id);
      PendingIsUndecided(live, run, i);
    }
    if PendingBy(ev, c) {
      var i :| 0 <= i < |ev| && Undecided(ev, i) && ev[i].effect.c == c;
      assert ev[i].Requested?;
      hide Undecided;
      PendingIsUndecided(live, run, i);
      var k := RequestHasAuthor(live, run, |run|, ev[i].id);
      RequestedOnce(live, run, i, k);
    }
  }

  ghost predicate Visible(s: State, c: CustomerId) {
    exists r :: r in s.live.customers && r.id == c
  }

  /** What an action of the back office needs to be accepted. */
  ghost predicate Acceptable(ev: seq<Outcome>, live: Snapshot, a: Action)
    requires !a.Decide?
  {
    match a
    case AskBlock(c, unblock, _) =>
      !PendingBy(ev, c) && exists r :: r in live.customers && r.id == c && r.active != unblock
    case AskLock(c, lock, _) =>
      !PendingBy(ev, c) && exists r :: r in live.customers && r.id == c && r.txLocked != lock
    case AskResetPin(c, _) =>
      !PendingBy(ev, c) && exists r :: r in live.customers && r.id == c && r.mpinSet
    case AskResetDevice(c, _) =>
      && !PendingBy(ev, c) && (exists r :: r in live.customers && r.id == c)
      && (exists d :: d in live.devices && d.customer == c)
    case AskDelete(c, _) => exists r :: r in live.customers && r.id == c
    case AskUpdate(c, form, clashes, _, u) =>
      && (u.superadmin || !PendingBy(ev, c)) && !clashes
      && exists r :: r in live.customers && r.id == c && (form.lock == Some(true) ==> r.txLocked)
  }

  lemma CustomerSeen(s: State, c: CustomerId)
    requires DistinctIds(s.live.customers)
    ensures match CustomerOf(s, c)
      case None => forall r :: r in s.live.customers ==> r.id != c
      case Some(q) => forall r :: r in s.live.customers && r.id == c <==> r == q
  {
    FirstFound(s.live.customers, HasId(c));
    if CustomerOf(s, c).Some? {
      TheCustomer(s, c);
    } else {
      forall r | r in s.live.customers
        ensures r.id != c
      {
        var i :| 0 <= i < |s.live.customers| && s.live.customers[i] == r;
        assert !HasId(c)(s.live.customers[i]);
      }
    }
  }

  lemma DeviceSeen(s: State, c: CustomerId)
    ensures First(s.live.devices, DeviceOf(c)).Some? <==> exists d :: d in s.live.devices && d.customer == c
  {
    FirstFound(s.live.devices, DeviceOf(c));
    if d :| d in s.live.devices && d.customer == c {
      var i :| 0 <= i < |s.live.devices| && s.live.devices[i] == d;
      assert DeviceOf(c)(s.live.devices[i]);
    }
  }

  /** The same, of the state in front of the action. */
  predicate AcceptableIn(s: State, a: Action)
    requires !a.Decide?
  {
    var r := CustomerOf(s, a.c);
    r.Some? &&
    match a
    case AskBlock(c, unblock, _) => !HasPending(s, c) && r.value.active != unblock
    case AskLock(c, lock, _) => !HasPending(s, c) && r.value.txLocked != lock
    case AskResetPin(c, _) => !HasPending(s, c) && r.value.mpinSet
    case AskResetDevice(c, _) => !HasPending(s, c) && First(s.live.devices, DeviceOf(c)).Some?
    case AskDelete(_, _) => true
    case AskUpdate(c, form, clashes, _, u) =>
      (u.superadmin || !HasPending(s, c)) && !clashes && (form.lock == Some(true) ==> r.value.txLocked)
  }

  lemma AskStep(s: State, a: Action)
    requires !a.Decide?
    ensures var o := Step(s, a).1;
      if !AcceptableIn(s, a) then o.Refused? else if a.u.superadmin then o.Direct? else o.Requested?
  {
    hide HasPending, First, Apply, EffectOf, PartFields;
    match a
    case AskBlock(_, _, _) =>
    case AskLock(_, _, _) =>
    case AskResetPin(_, _) =>
    case AskResetDevice(_, _) =>
    case AskDelete(_, _) =>
    case AskUpdate(_, _, _, _, _) =>
  }

  /**
   * An action is accepted exactly when what it asks for is not so already, the customer can be seen and has
   * no undecided request; but a superadmin's update and any deletion may find one. A superadmin's takes effect,
   * anybody else's becomes a request.
   */
  lemma AskAnswer(live: Snapshot, run: seq<Action>, a: Action)
    requires !a.Decide? && DistinctIds(live.customers)
    ensures var s, o := Exec(live, run), Step(Exec(live, run), a).1;
      if !Acceptable(Events(live, run), s.live, a) then o.Refused?
      else if a.u.superadmin then o.Direct?
      else o.Requested?
  {
    var s := Exec(live, run);
    AskStep(s, a);
    hide Step;
    IdsStayDistinct(live, run);
    PendingIsHistory(live, run, a.c);
    CustomerSeen(s, a.c);
    DeviceSeen(s, a.c);
    hide Exec, Events, PendingBy, HasPending, DistinctIds, First, CustomerOf;
    assert AcceptableIn(s, a) <==> Acceptable(Events(live, run), s.live, a);
  }

  /** Deciding on a request may need the customer it is about. */
  ghost predicate NeedsCustomer(a: Action) {
    a.AskDelete? || a.AskUpdate? || (a.AskBlock? && a.unblock)
  }

  predicate NeedsCustomerIn(op: Operation) {
    op == UNBLOCK || op == DELETE || op == UPDATE
  }

  lemma DecideStep(s: State, a: Action)
    requires a.Decide? && Step(s, a).1 != Refused(MandateRequestNotFound)
    ensures var o := Step(s, a).1;
      var accepted := a.id < |s.requests| && s.requests[a.id].status == Pending
        && (a.u.superadmin || a.u.id != s.requests[a.id].author)
        && if a.approve then NeedsCustomerIn(s.requests[a.id].op) ==> CustomerOf(s, s.requests[a.id].customer).Some?
           else a.hasReason;
      if !accepted then o.Refused? else o == if a.approve then RequestApproved(a.id) else RequestRejected(a.id)
  {
    hide First, Apply, EffectOf, Settle;
  }

  /** The request made at i can be decided so by this user. */
  ghost predicate Decidable(live: Snapshot, run: seq<Action>, a: Action, i: nat)
    requires a.Decide? && i < |run|
  {
    && Undecided(Events(live, run), i) && Events(live, run)[i].id == a.id
    && (a.u.superadmin || a.u.id != run[i].u.id)
    && if a.approve then NeedsCustomer(run[i]) ==> Visible(Exec(live, run), run[i].c) else a.hasReason
  }

  /**
   * A decision is accepted exactly on an undecided request made by somebody else, a superadmin being free to
   * decide its own; a rejection needs a reason, and approving may need the customer to be there still.
   */
  lemma DecideAnswer(live: Snapshot, run: seq<Action>, a: Action)
    requires a.Decide?
    ensures var o := Step(Exec(live, run), a).1;
      if exists i :: 0 <= i < |run| && Decidable(live, run, a, i) then
        o == if a.approve then RequestApproved(a.id) else RequestRejected(a.id)
      else o.Refused?
  {
    var s, ev := Exec(live, run), Events(live, run);
    ApprovalFindsItsPart(live, run, a);
    DecideStep(s, a);
    hide Step, Exec;
    assert run[..|run|] == run;
    if a.id < |s.requests| {
      var i := RequestHasAuthor(live, run, |run|, a.id);
      PendingIsUndecided(live, run, i);
      CustomerVisible(s, run[i].c);
      assert NeedsCustomer(run[i]) <==> NeedsCustomerIn(s.requests[a.id].op);
      forall k | 0 <= k < |run| && Undecided(ev, k) && ev[k].id == a.id
        ensures k == i
      {
        RequestedOnce(live, run, i, k);
      }
      hide Undecided, Visible, CustomerOf;
      if k :| 0 <= k < |run| && Decidable(live, run, a, k) {
        assert k == i;
      } else {
        assert !Decidable(live, run, a, i);
      }
    } else {
      forall k | 0 <= k < |run|
        ensures !Decidable(live, run, a, k)
      {
        if Undecided(ev, k) {
          PendingIsUndecided(live, run, k);
        }
      }
    }
  }

  lemma CustomerVisible(s: State, c: CustomerId)
    ensures CustomerOf(s, c).Some? <==> Visible(s, c)
  {
    FirstFound(s.live.customers, HasId(c));
    if Visible(s, c) {
      var r :| r in s.live.customers && r.id == c;
      var i :| 0 <= i < |s.live.customers| && s.live.customers[i] == r;
      assert HasId(c)(s.live.customers[i]);
    }
  }

  // ---------------------------------------------------------------------------------------
  // Why an action is refused.
  // ---------------------------------------------------------------------------------------

  ghost predicate MadeAt(ev: seq<Outcome>, i: nat, id: RequestId)
    requires i < |ev|
  {
    ev[i].Requested? && ev[i].id == id
  }

  /** What must be so for a refusal to say what it says. */
  ghost predicate Cause(live: Snapshot, run: seq<Action>, a: Action, why: Refusal) {
    var ev, now := Events(live, run), Exec(live, run).live;
    match why
    case NotFound => !a.Decide? && !Visible(Exec(live, run), a.c)
    case AlreadySo =>
      || (a.AskBlock? && forall r :: r in now.customers && r.id == a.c ==> r.active == a.unblock)
      || (a.AskLock? && forall r :: r in now.customers && r.id == a.c ==> r.txLocked == a.lock)
    case RequestExists => !a.Decide? && PendingBy(ev, a.c)
    case MpinNotSet => a.AskResetPin? && forall r :: r in now.customers && r.id == a.c ==> !r.mpinSet
    case NoDevice => a.AskResetDevice? && forall d :: d in now.devices ==> d.customer != a.c
    case LockCannotBeAltered =>
      a.AskUpdate? && a.form.lock == Some(true) && forall r :: r in now.customers && r.id == a.c ==> !r.txLocked
    case Clash => a.AskUpdate? && a.clashes
    case AlreadyProcessed => a.Decide? && exists j :: 0 <= j < |run| && Decides(ev[j], a.id)
    case OwnRequest =>
      && a.Decide? && !a.u.superadmin
      && exists i :: 0 <= i < |run| && MadeAt(ev, i, a.id) && run[i].u.id == a.u.id
    case ReasonRequired => a.Decide? && !a.approve && !a.hasReason
    case MandateRequestNotFound => false
    case InternalError =>
      if a.Decide? then
        || (forall i :: 0 <= i < |run| ==> !MadeAt(ev, i, a.id))
        || (a.approve && exists i ::
              0 <= i < |run| && MadeAt(ev, i, a.id) && !run[i].Decide? && !Visible(Exec(live, run), run[i].c))
      else a.AskResetPin? && !Visible(Exec(live, run), a.c)
  }

  /** The same, of the state in front of the action. */
  predicate CauseIn(s: State, a: Action, why: Refusal) {
    match why
    case NotFound => !a.Decide? && CustomerOf(s, a.c).None?
    case AlreadySo =>
      || (a.AskBlock? && CustomerOf(s, a.c).Some? && CustomerOf(s, a.c).value.active == a.unblock)
      || (a.AskLock? && CustomerOf(s, a.c).Some? && CustomerOf(s, a.c).value.txLocked == a.lock)
    case RequestExists => !a.Decide? && HasPending(s, a.c)
    case MpinNotSet => a.AskResetPin? && CustomerOf(s, a.c).Some? && !CustomerOf(s, a.c).value.mpinSet
    case NoDevice => a.AskResetDevice? && First(s.live.devices, DeviceOf(a.c)).None?
    case LockCannotBeAltered =>
      && a.AskUpdate? && a.form.lock == Some(true)
      && CustomerOf(s, a.c).Some? && !CustomerOf(s, a.c).value.txLocked
    case Clash => a.AskUpdate? && a.clashes
    case AlreadyProcessed => a.Decide? && a.id < |s.requests| && s.requests[a.id].status != Pending
    case OwnRequest => a.Decide? && !a.u.superadmin && a.id < |s.requests| && s.requests[a.id].author == a.u.id
    case ReasonRequired => a.Decide? && !a.approve && !a.hasReason
    case MandateRequestNotFound => a.Decide?
    case InternalError =>
      if a.Decide? then
        a.id >= |s.requests| || (a.approve && CustomerOf(s, s.requests[a.id].customer).None?)
      else a.AskResetPin? && CustomerOf(s, a.c).None?
  }

  lemma RefusalIn(s: State, a: Action)
    requires Step(s, a).1.Refused?
    ensures CauseIn(s, a, Step(s, a).1.why)
  {
    hide HasPending, First, Apply, EffectOf, Settle, PartFields;
    match a
    case AskBlock(_, _, _) =>
    case AskLock(_, _, _) =>
    case AskResetPin(_, _) =>
    case AskResetDevice(_, _) =>
    case AskDelete(_, _) =>
    case AskUpdate(_, _, _, _, _) =>
    case Decide(_, _, _, _) =>
  }

  /** Every refusal names a cause that holds. */
  lemma RefusalsAreTrue(live: Snapshot, run: seq<Action>, a: Action)
    requires DistinctIds(live.customers) && Step(Exec(live, run), a).1.Refused?
    ensures Cause(live, run, a, Step(Exec(live, run), a).1.why)
  {
    var s := Exec(live, run);
    RefusalIn(s, a);
    if a.Decide? {
      DecisionRefused(live, run, a);
    } else {
      hide Step;
      IdsStayDistinct(live, run);
      PendingIsHistory(live, run, a.c);
      CustomerSeen(s, a.c);
      CustomerVisible(s, a.c);
      DeviceSeen(s, a.c);
      hide Exec, Events, PendingBy, HasPending, DistinctIds, First, CustomerOf, Visible;
    }
  }

  lemma DecisionRefused(live: Snapshot, run: seq<Action>, a: Action)
    requires a.Decide? && Step(Exec(live, run), a).1.Refused?
    requires CauseIn(Exec(live, run), a, Step(Exec(live, run), a).1.why)
    ensures Cause(live, run, a, Step(Exec(live, run), a).1.why)
  {
    var s, ev := Exec(live, run), Events(live, run);
    ApprovalFindsItsPart(live, run, a);
    hide Step, Exec;
    assert run[..|run|] == run;
    if a.id < |s.requests| {
      var i := RequestHasAuthor(live, run, |run|, a.id);
      assert MadeAt(ev, i, a.id);
      PendingIsUndecided(live, run, i);
      CustomerVisible(s, run[i].c);
      hide Visible, CustomerOf;
    } else {
      forall i | 0 <= i < |run|
        ensures !MadeAt(ev, i, a.id)
      {
        if ev[i].Requested? {
          PendingIsUndecided(live, run, i);
        }
      }
    }
  }
}
