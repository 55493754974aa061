/**
 * What approving a request does, compared with what a superadmin does at once, with the locks customers
 * have, and with what the form asked for.
 */
module ApprovalPaths {
  import opened Tables
  import opened Approvals

  // ---------------------------------------------------------------------------------------
  // The direct path and the approved path.
  // ---------------------------------------------------------------------------------------

  /** The same action, asked by somebody else. */
  function AskedBy(a: Action, u: User): Action
    requires !a.Decide?
  {
    match a
    case AskBlock(c, unblock, _) => AskBlock(c, unblock, u)
    case AskLock(c, lock, _) => AskLock(c, lock, u)
    case AskResetPin(c, _) => AskResetPin(c, u)
    case AskResetDevice(c, _) => AskResetDevice(c, u)
    case AskDelete(c, _) => AskDelete(c, u)
    case AskUpdate(c, form, clashes, at, _) => AskUpdate(c, form, clashes, at, u)
  }

  /** What asking through a clerk and approving by a checker leads to. */
  function ViaApproval(s: State, a: Action, clerk: nat, checker: nat): State
    requires !a.Decide?
  {
    Step(Step(s, AskedBy(a, User(clerk, false))).0, Decide(|s.requests|, true, false, User(checker, false))).0
  }

  lemma ApprovalOfNewRequest(s: State, a: Action, clerk: nat, checker: nat)
    requires !a.Decide? && clerk != checker && PartsFollow(s)
    requires Objection(s, AskedBy(a, User(clerk, false))).None?
    ensures var r := RequestOf(CustomerOf(s, a.c).value, AskedBy(a, User(clerk, false)));
      var part := if a.AskUpdate? then PartFields(s, a.c, a.form) else map[];
      ViaApproval(s, a, clerk, checker).live == Apply(s.live, EffectOf(r, part))
  {
    hide Apply, NonNull;
    var id, asked := |s.requests|, AskedBy(a, User(clerk, false));
    var t := Step(s, asked).0;
    if a.AskUpdate? {
      FirstAfterAppend(s.parts, t.parts[|s.parts|], PendingPartOf(id));
      FirstFound(s.parts, PendingPartOf(id));
    }
    assert t.requests[id].status == Pending;
    assert Objection(t, Decide(id, true, false, User(checker, false))).None?;
  }

  /** Block, unblock, lock, unlock, reset and delete: approving a request does what a superadmin does at once. */
  lemma PathsAgree(s: State, a: Action, clerk: nat, checker: nat)
    requires !a.Decide? && !a.AskUpdate? && a.u.superadmin && clerk != checker && PartsFollow(s)
    requires Objection(s, a).None?
    ensures ViaApproval(s, a, clerk, checker).live == Step(s, a).0.live
  {
    ApprovalOfNewRequest(s, a, clerk, checker);
    hide Apply, ViaApproval;
  }

  /** A form column set to null changes the row only if the column holds something. */
  predicate ErasesNothing(old_: Patch, form: Patch) {
    forall k :: k in form && form[k].None? ==> k in old_ && old_[k].None?
  }

  /** The row still has every value of `base`, the given columns aside. */
  predicate StillHas(row: Patch, base: Patch, but: set<Column>) {
    forall k :: k in base && k !in but && base[k].Some? ==> k in row && row[k] == base[k]
  }

  /**
   * A form laid over a base and written without its nulls does what the form does by itself exactly when
   * its nulls erase nothing and the base brings nothing new.
   */
  lemma PatchesAgree(old_: Patch, base: Patch, form: Patch)
    ensures old_ + NonNull(base + form) == old_ + form <==> ErasesNothing(old_, form) && StillHas(old_, base, form.Keys)
  {
    var approved, direct := old_ + NonNull(base + form), old_ + form;
    if ErasesNothing(old_, form) && StillHas(old_, base, form.Keys) {
      assert approved == direct;
    } else if !ErasesNothing(old_, form) {
      var k :| k in form && form[k].None? && !(k in old_ && old_[k].None?);
      assert k in direct && direct[k].None?;
      assert k !in approved || approved[k].Some?;
    } else {
      var k :| k in base && k !in form.Keys && base[k].Some? && !(k in old_ && old_[k] == base[k]);
      assert k in approved && approved[k] == base[k];
      assert k in direct ==> direct[k] == old_[k];
    }
  }

  lemma OverlaysAgree<T>(rows: seq<T>, where: T -> bool, f: T -> T, g: T -> T)
    ensures Overlay(rows, where, f) == Overlay(rows, where, g) <==> forall r :: r in rows && where(r) ==> f(r) == g(r)
  {
    OverlayAt(rows, where, f);
    OverlayAt(rows, where, g);
    var a, b := Overlay(rows, where, f), Overlay(rows, where, g);
    forall i | 0 <= i < |rows|
      ensures rows[i] in rows && (a[i] == b[i] <==> (where(rows[i]) ==> f(rows[i]) == g(rows[i])))
    {
    }
    if forall r :: r in rows && where(r) ==> f(r) == g(r) {
      assert a == b;
    }
  }

  lemma AcceptedOfAll(s: State, a: Action, clerk: nat)
    requires a.AskUpdate? && a.u.superadmin
    requires Objection(s, AskedBy(a, User(clerk, false))).None?
    ensures Objection(s, a).None? && CustomerOf(s, a.c).Some?
  {
  }

  /** What the two paths leave of the customers and e-mandates. */
  lemma UpdatePaths(s: State, a: Action, clerk: nat, checker: nat)
    requires a.AskUpdate? && a.u.superadmin && clerk != checker && PartsFollow(s)
    requires Objection(s, AskedBy(a, User(clerk, false))).None?
    ensures CustomerOf(s, a.c).Some?
    ensures var r := CustomerOf(s, a.c).value;
      var via, direct := ViaApproval(s, a, clerk, checker).live, Step(s, a).0.live;
      var lock := if a.form.lock.Some? then a.form.lock.value else r.txLocked;
      var requested, bank := NonNull(r.fields + Stamps(a.at) + a.form.fields), NonNull(PartFields(s, a.c, a.form));
      && via.customers == Overlay(s.live.customers, HasId(a.c), Patched(requested, Some(lock)))
      && direct.customers == Overlay(s.live.customers, HasId(a.c), Patched(a.form.fields, a.form.lock))
      && via.mandates == Overlay(s.live.mandates, MandateOf(a.c), PatchedMandate(bank))
      && direct.mandates == Overlay(s.live.mandates, MandateOf(a.c), PatchedMandate(a.form.mandate))
      && via.devices == direct.devices
  {
    AcceptedOfAll(s, a, clerk);
    ApprovalOfNewRequest(s, a, clerk, checker);
    hide Objection, ViaApproval, PartFields, NonNull, CustomerOf, Overlay;
  }

  lemma TheCustomer(s: State, c: CustomerId)
    requires CustomerOf(s, c).Some? && DistinctIds(s.live.customers)
    ensures forall r :: r in s.live.customers && r.id == c <==> r == CustomerOf(s, c).value
  {
    FirstFound(s.live.customers, HasId(c));
    var r := CustomerOf(s, c).value;
    forall q | q in s.live.customers && q.id == c
      ensures q == r
    {
      var i, j :| 0 <= i < |s.live.customers| && 0 <= j < |s.live.customers|
        && s.live.customers[i] == q && s.live.customers[j] == r;
    }
  }

  /**
   * For an update the two paths give the customer the same columns exactly when no null in the form would
   * erase a value, and the customer already has the stamps of the request: a superadmin's null is
   * written and a requested one dropped, and only a request brings its stamps along.
   */
  lemma UpdatePathsAgree(s: State, a: Action, clerk: nat, checker: nat)
    requires a.AskUpdate? && a.u.superadmin && clerk != checker && PartsFollow(s)
    requires Objection(s, AskedBy(a, User(clerk, false))).None?
    requires DistinctIds(s.live.customers)
    ensures CustomerOf(s, a.c).Some?
    ensures ViaApproval(s, a, clerk, checker).live.customers == Step(s, a).0.live.customers
       <==> var old_ := CustomerOf(s, a.c).value.fields;
            ErasesNothing(old_, a.form.fields) && StillHas(old_, Stamps(a.at), a.form.fields.Keys)
  {
    UpdatePaths(s, a, clerk, checker);
    TheCustomer(s, a.c);
    hide Step, Objection, ViaApproval, CustomerOf, Overlay, AskedBy, NonNull, PartsFollow;
    var r := CustomerOf(s, a.c).value;
    var lock := if a.form.lock.Some? then a.form.lock.value else r.txLocked;
    var base := r.fields + Stamps(a.at);
    var approved, direct := Patched(NonNull(base + a.form.fields), Some(lock)), Patched(a.form.fields, a.form.lock);
    OverlaysAgree(s.live.customers, HasId(a.c), approved, direct);
    PatchesAgree(r.fields, base, a.form.fields);
    assert approved(r) == direct(r) <==> r.fields + NonNull(base + a.form.fields) == r.fields + a.form.fields;
    assert StillHas(r.fields, base, a.form.fields.Keys) <==> StillHas(r.fields, Stamps(a.at), a.form.fields.Keys);
  }

  function Plain(p: Patch): Patch {
    p - {"created_on", "modified_on"}
  }

  ghost predicate SameBesidesStamps(a: seq<Customer>, b: seq<Customer>) {
    && |a| == |b|
    && forall i :: 0 <= i < |a| ==> a[i].(fields := Plain(a[i].fields)) == b[i].(fields := Plain(b[i].fields))
  }

  lemma PlainPatches(old_: Patch, stamps: Patch, form: Patch)
    requires stamps.Keys == {"created_on", "modified_on"}
    ensures Plain(old_ + NonNull(old_ + stamps + form)) == Plain(old_) + NonNull(Plain(old_) + Plain(form))
    ensures Plain(old_ + form) == Plain(old_) + Plain(form)
  {
    PlainNonNull(old_ + stamps + form);
    assert Plain(old_ + stamps + form) == Plain(old_) + Plain(form);
    PlainSum(old_, NonNull(old_ + stamps + form));
    PlainSum(old_, form);
  }

  lemma PlainSum(p: Patch, q: Patch)
    ensures Plain(p + q) == Plain(p) + Plain(q)
  {
  }

  lemma PlainNonNull(p: Patch)
    ensures Plain(NonNull(p)) == NonNull(Plain(p))
  {
  }

  lemma SameBesidesStampsWhen(rows: seq<Customer>, r: Customer, requested: Patch, lock: bool, form: Form)
    requires r in rows && DistinctIds(rows)
    requires lock == if form.lock.Some? then form.lock.value else r.txLocked
    ensures SameBesidesStamps(Overlay(rows, HasId(r.id), Patched(NonNull(requested), Some(lock))),
                              Overlay(rows, HasId(r.id), Patched(form.fields, form.lock)))
       <==> Plain(r.fields + NonNull(requested)) == Plain(r.fields + form.fields)
  {
    hide NonNull, Plain, Overlay;
    OverlayAt(rows, HasId(r.id), Patched(NonNull(requested), Some(lock)));
    OverlayAt(rows, HasId(r.id), Patched(form.fields, form.lock));
    var i :| 0 <= i < |rows| && rows[i] == r;
    assert forall j :: 0 <= j < |rows| && j != i ==> rows[j].id != r.id;
  }

  /** Stamps aside, the customer gets the same columns exactly when no null in the form would erase a value. */
  lemma UpdatePathsAgreeBesidesStamps(s: State, a: Action, clerk: nat, checker: nat)
    requires a.AskUpdate? && a.u.superadmin && clerk != checker && PartsFollow(s)
    requires Objection(s, AskedBy(a, User(clerk, false))).None?
    requires DistinctIds(s.live.customers)
    ensures CustomerOf(s, a.c).Some?
    ensures SameBesidesStamps(ViaApproval(s, a, clerk, checker).live.customers, Step(s, a).0.live.customers)
       <==> ErasesNothing(Plain(CustomerOf(s, a.c).value.fields), Plain(a.form.fields))
  {
    UpdatePaths(s, a, clerk, checker);
    TheCustomer(s, a.c);
    hide Step, Objection, ViaApproval, CustomerOf, Overlay, AskedBy, NonNull, PartsFollow, Plain, Stamps;
    hide SameBesidesStamps;
    var r := CustomerOf(s, a.c).value;
    var lock := if a.form.lock.Some? then a.form.lock.value else r.txLocked;
    SameBesidesStampsWhen(s.live.customers, r, r.fields + Stamps(a.at) + a.form.fields, lock, a.form);
    StampKeys(a.at);
    PlainPatches(r.fields, Stamps(a.at), a.form.fields);
    PatchesAgree(Plain(r.fields), Plain(r.fields), Plain(a.form.fields));
  }

  lemma StampKeys(at: string)
    ensures Stamps(at).Keys == {"created_on", "modified_on"}
  {
  }

  /** The e-mandate columns an update request copies from the e-mandate it finds. */
  function FoundMandate(s: State, c: CustomerId): Patch {
    match First(s.live.mandates, MandateOf(c))
    case None => map[]
    case Some(m) => m.fields
  }

  /** The e-mandate gets the same from a request for the form, made on the given columns, as from the form itself. */
  predicate Indifferent(m: Mandate, base: Patch, form: Patch) {
    ErasesNothing(m.fields, form) && StillHas(m.fields, base, form.Keys)
  }

  lemma MandatePatchesAgree(m: Mandate, base: Patch, form: Patch)
    ensures PatchedMandate(NonNull(base + form))(m) == PatchedMandate(form)(m) <==> Indifferent(m, base, form)
  {
    PatchesAgree(m.fields, base, form);
    hide NonNull, ErasesNothing, StillHas;
    assert PatchedMandate(form)(m) == m.(fields := m.fields + form);
  }

  lemma MandatesAgree(rows: seq<Mandate>, c: CustomerId, base: Patch, form: Patch)
    ensures Overlay(rows, MandateOf(c), PatchedMandate(NonNull(base + form)))
         == Overlay(rows, MandateOf(c), PatchedMandate(form))
       <==> forall m :: m in rows && m.customer == c ==> Indifferent(m, base, form)
  {
    hide NonNull, Overlay, Indifferent, PatchedMandate;
    var approved, direct := PatchedMandate(NonNull(base + form)), PatchedMandate(form);
    OverlaysAgree(rows, MandateOf(c), approved, direct);
    forall m | m in rows && m.customer == c
      ensures approved(m) == direct(m) <==> Indifferent(m, base, form)
    {
      MandatePatchesAgree(m, base, form);
    }
  }

  /**
   * The e-mandates come out the same exactly when no null erases a value, and each e-mandate of the
   * customer has the values of the first one found; a customer's only e-mandate has.
   */
  lemma UpdatePathsAgreeOnMandates(s: State, a: Action, clerk: nat, checker: nat)
    requires a.AskUpdate? && a.u.superadmin && clerk != checker && PartsFollow(s)
    requires Objection(s, AskedBy(a, User(clerk, false))).None?
    ensures ViaApproval(s, a, clerk, checker).live.mandates == Step(s, a).0.live.mandates
       <==> forall m :: m in s.live.mandates && m.customer == a.c ==>
              Indifferent(m, FoundMandate(s, a.c), a.form.mandate)
  {
    UpdatePaths(s, a, clerk, checker);
    hide Step, Objection, ViaApproval, CustomerOf, Overlay, AskedBy, NonNull, PartsFollow, First, Indifferent;
    assert PartFields(s, a.c, a.form) == FoundMandate(s, a.c) + a.form.mandate;
    MandatesAgree(s.live.mandates, a.c, FoundMandate(s, a.c), a.form.mandate);
  }

  // ---------------------------------------------------------------------------------------
  // An update and what happened since it was asked for.
  // ---------------------------------------------------------------------------------------

  lemma {:induction false} FirstAfterOverlay<T>(rows: seq<T>, where: T -> bool, set_: T -> T)
    requires forall r :: where(r) ==> where(set_(r))
    ensures First(Overlay(rows, where, set_), where) ==
      match First(rows, where) case None => None case Some(r) => Some(set_(r))
  {
    if rows != [] {
      FirstAfterOverlay(rows[1..], where, set_);
    }
  }

  /** However a run goes on, a request keeps everything but its status. */
  lemma {:induction false} RequestKept(live: Snapshot, run: seq<Action>, i: nat, j: nat, id: RequestId)
    requires i <= j <= |run| && id < |Exec(live, run[..i]).requests|
    ensures id < |Exec(live, run[..j]).requests|
    ensures var r, q := Exec(live, run[..i]).requests[id], Exec(live, run[..j]).requests[id];
      q == r.(status := q.status)
    decreases j
  {
    hide Step;
    if i < j {
      RequestKept(live, run, i, j - 1, id);
      EventAt(live, run, j - 1);
      StatusSteps(Exec(live, run[..j - 1]), run[j - 1]);
    }
  }

  /** A clerk's update request that was accepted. */
  predicate AcceptedUpdate(s: State, a: Action) {
    a.AskUpdate? && !a.u.superadmin && Objection(s, a).None?
  }

  predicate ApprovedUpdate(s: State, d: Action) {
    d.Decide? && d.approve && Objection(s, d).None? && s.requests[d.id].op == UPDATE
  }

  lemma UpdateIsRecorded(s: State, a: Action)
    requires AcceptedUpdate(s, a)
    ensures CustomerOf(s, a.c).Some? && |Step(s, a).0.requests| == |s.requests| + 1
    ensures Step(s, a).0.requests[|s.requests|] == RequestOf(CustomerOf(s, a.c).value, a)
  {
  }

  lemma ApprovalWrites(s: State, d: Action)
    requires ApprovedUpdate(s, d)
    ensures var q := s.requests[d.id];
      && CustomerOf(s, q.customer).Some?
      && CustomerOf(Step(s, d).0, q.customer) ==
           Some(Patched(NonNull(q.fields), Some(q.lock))(CustomerOf(s, q.customer).value))
      && Step(s, d).0.live.customers ==
           Overlay(s.live.customers, HasId(q.customer), Patched(NonNull(q.fields), Some(q.lock)))
  {
    var q := s.requests[d.id];
    FirstAfterOverlay(s.live.customers, HasId(q.customer), Patched(NonNull(q.fields), Some(q.lock)));
    hide First, Overlay, NonNull, Settle;
  }

  /** Columns outside the form, and outside the stamps. */
  predicate Outside(form: Patch, k: Column) {
    k !in form && k != "created_on" && k != "modified_on"
  }

  ghost predicate SameOutside(form: Patch, p: Patch, q: Patch) {
    forall k :: Outside(form, k) ==> (k in p <==> k in q) && (k in p ==> p[k] == q[k])
  }

  lemma WrittenAt(now: Patch, found: Patch, at: string, form: Patch, k: Column)
    requires Outside(form, k)
    ensures var after := now + NonNull(found + Stamps(at) + form);
      if k in found && found[k].Some? then k in after && after[k] == found[k]
      else (k in after <==> k in now) && (k in after ==> after[k] == now[k])
  {
  }

  lemma WrittenOutside(now: Patch, found: Patch, at: string, form: Patch)
    ensures SameOutside(form, now + NonNull(found + Stamps(at) + form), now)
       <==> StillHas(now, found, form.Keys + {"created_on", "modified_on"})
  {
    hide Stamps, NonNull;
    var written := NonNull(found + Stamps(at) + form);
    forall k | Outside(form, k) {
      WrittenAt(now, found, at, form, k);
    }
    if !StillHas(now, found, form.Keys + {"created_on", "modified_on"}) {
      var k :| k in found && k !in form.Keys + {"created_on", "modified_on"} && found[k].Some?
        && !(k in now && now[k] == found[k]);
      assert Outside(form, k);
    }
  }

  /**
   * A request stores the whole customer as found, so its approval writes columns nobody asked to change.
   * Stamps aside, an approval changes only columns its form carried exactly when the customer still has
   * every value it had, outside the form, when the request was made.
   */
  lemma ApprovalChangesOnlyItsForm(live: Snapshot, run: seq<Action>, i: nat, d: Action)
    requires i < |run| && AcceptedUpdate(Exec(live, run[..i]), run[i])
    requires ApprovedUpdate(Exec(live, run), d) && d.id == |Exec(live, run[..i]).requests|
    ensures var (then_, now, after) := (Exec(live, run[..i]), Exec(live, run), Step(Exec(live, run), d).0);
      var (c, form) := (run[i].c, run[i].form.fields);
      && CustomerOf(then_, c).Some? && CustomerOf(now, c).Some? && CustomerOf(after, c).Some?
      && (SameOutside(form, CustomerOf(after, c).value.fields, CustomerOf(now, c).value.fields)
          <==> StillHas(CustomerOf(now, c).value.fields, CustomerOf(then_, c).value.fields,
                        form.Keys + {"created_on", "modified_on"}))
  {
    var s, now, a := Exec(live, run[..i]), Exec(live, run), run[i];
    UpdateIsRecorded(s, a);
    EventAt(live, run, i);
    RequestKept(live, run, i + 1, |run|, d.id);
    assert run[..|run|] == run;
    ApprovalWrites(now, d);
    hide Step, CustomerOf, AcceptedUpdate, ApprovedUpdate, NonNull;
    WrittenOutside(CustomerOf(now, a.c).value.fields, CustomerOf(s, a.c).value.fields, a.at, a.form.fields);
  }

  function OnlyCustomer(r: Customer): Snapshot {
    Snapshot([r], [], [])
  }

  function RequestOfOnly(r: Customer, form: Form, at: string, clerk: nat): State {
    var request := RequestOf(r, AskUpdate(r.id, form, false, at, User(clerk, false)));
    State(OnlyCustomer(r), [request], [Part(0, Pending, form.mandate)])
  }

  lemma AskForOnly(r: Customer, form: Form, at: string, clerk: nat)
    requires form.lock.None?
    ensures Step(State(OnlyCustomer(r), [], []), AskUpdate(r.id, form, false, at, User(clerk, false))).0
         == RequestOfOnly(r, form, at, clerk)
  {
    assert First([r], HasId(r.id)) == Some(r);
  }

  lemma EditOnly(r: Customer, form: Form, at: string, clerk: nat, k: Column)
    ensures var edit := AskUpdate(r.id, Form(map[k := None], None, map[]), false, at, User(0, true));
      Step(RequestOfOnly(r, form, at, clerk), edit).0
         == RequestOfOnly(r, form, at, clerk).(live := OnlyCustomer(r.(fields := r.fields[k := None])))
  {
    assert First([r], HasId(r.id)) == Some(r);
    var set_ := Patched(map[k := None], None);
    assert Overlay([r], HasId(r.id), set_) == [set_(r)];
    assert set_(r) == r.(fields := r.fields[k := None]);
  }

  lemma ApprovalOfOnly(r: Customer, form: Form, at: string, clerk: nat, k: Column, checker: nat)
    requires clerk != checker
    ensures ApprovedUpdate(RequestOfOnly(r, form, at, clerk).(live := OnlyCustomer(r.(fields := r.fields[k := None]))),
                           Decide(0, true, false, User(checker, false)))
  {
  }

  /** A superadmin's edit made meanwhile is lost: the approval of an empty form puts the old value back. */
  lemma ApprovalUndoesEdit(r: Customer, k: Column, at: string, clerk: nat, checker: nat)
    requires clerk != checker && k in r.fields && r.fields[k].Some? && k != "created_on" && k != "modified_on"
    ensures var ask := AskUpdate(r.id, Form(map[], None, map[]), false, at, User(clerk, false));
      var edit := AskUpdate(r.id, Form(map[k := None], None, map[]), false, at, User(0, true));
      var edited := Exec(OnlyCustomer(r), [ask, edit]);
      var after := CustomerOf(Step(edited, Decide(0, true, false, User(checker, false))).0, r.id);
      && edited.live == OnlyCustomer(r.(fields := r.fields[k := None]))
      && after.Some? && k in after.value.fields && after.value.fields[k] == r.fields[k]
  {
    var form := Form(map[], None, map[]);
    var ask := AskUpdate(r.id, form, false, at, User(clerk, false));
    var edit := AskUpdate(r.id, Form(map[k := None], None, map[]), false, at, User(0, true));
    assert [ask][..0] == [] && [ask, edit][..1] == [ask];
    assert Exec(OnlyCustomer(r), [ask]) == Step(Exec(OnlyCustomer(r), []), ask).0;
    assert Exec(OnlyCustomer(r), [ask, edit]) == Step(Exec(OnlyCustomer(r), [ask]), edit).0;
    hide Step;
    AskForOnly(r, form, at, clerk);
    EditOnly(r, form, at, clerk, k);
    var edited := RequestOfOnly(r, form, at, clerk).(live := OnlyCustomer(r.(fields := r.fields[k := None])));
    var d := Decide(0, true, false, User(checker, false));
    ApprovalOfOnly(r, form, at, clerk, k, checker);
    ApprovalWrites(edited, d);
    hide Step, CustomerOf, ApprovedUpdate, Exec;
    assert edited.requests[0].fields[k] == r.fields[k];
  }

  // ---------------------------------------------------------------------------------------
  // The transaction lock and the update form.
  // ---------------------------------------------------------------------------------------

  ghost predicate SameLocks(before: seq<Customer>, after: seq<Customer>) {
    |before| == |after|
    && forall i :: 0 <= i < |before| ==> before[i].id == after[i].id && before[i].txLocked == after[i].txLocked
  }

  lemma LocksAfterPatch(rows: seq<Customer>, r: Customer, fields: Patch, lock: bool)
    requires r in rows && DistinctIds(rows)
    ensures SameLocks(rows, Overlay(rows, HasId(r.id), Patched(fields, Some(lock)))) <==> r.txLocked == lock
  {
    hide Overlay;
    OverlayAt(rows, HasId(r.id), Patched(fields, Some(lock)));
    var i :| 0 <= i < |rows| && rows[i] == r;
    assert forall j :: 0 <= j < |rows| && j != i ==> rows[j].id != r.id;
  }

  /** Approving an update leaves all transaction locks alone exactly when the request carries its customer's lock. */
  lemma ApprovalKeepsLocks(s: State, d: Action)
    requires ApprovedUpdate(s, d) && DistinctIds(s.live.customers)
    ensures var q := s.requests[d.id];
      && CustomerOf(s, q.customer).Some?
      && (SameLocks(s.live.customers, Step(s, d).0.live.customers)
          <==> CustomerOf(s, q.customer).value.txLocked == q.lock)
  {
    ApprovalWrites(s, d);
    var q := s.requests[d.id];
    TheCustomer(s, q.customer);
    hide Step, CustomerOf, NonNull, ApprovedUpdate, DistinctIds, SameLocks;
    LocksAfterPatch(s.live.customers, CustomerOf(s, q.customer).value, NonNull(q.fields), q.lock);
  }

  /** Every pending update request carries the lock its customer has now. */
  ghost predicate LocksFollow(s: State) {
    forall i :: 0 <= i < |s.requests| && s.requests[i].op == UPDATE && s.requests[i].status == Pending ==>
      forall r :: r in s.live.customers && r.id == s.requests[i].customer ==> r.txLocked == s.requests[i].lock
  }

  predicate HasPendingUpdate(s: State, c: CustomerId) {
    exists i :: 0 <= i < |s.requests|
      && s.requests[i].customer == c && s.requests[i].status == Pending && s.requests[i].op == UPDATE
  }

  /**
   * An accepted form that says "not locked" for a locked customer: a clerk's, or a superadmin's made while
   * an update of the customer is pending.
   */
  predicate Unlocks(s: State, a: Action) {
    && a.AskUpdate? && Objection(s, a).None?
    && a.form.lock == Some(false) && CustomerOf(s, a.c).value.txLocked
    && (a.u.superadmin ==> HasPendingUpdate(s, a.c))
  }

  function LockAfter(e: Effect, q: Customer): bool {
    if q.id != e.c then q.txLocked
    else if e.SetTxLock? then e.on
    else if e.Edit? && e.lock.Some? then e.lock.value
    else q.txLocked
  }

  lemma EffectOnLocks(live: Snapshot, e: Effect, r: Customer)
    requires r in Apply(live, e).customers
    ensures exists q :: q in live.customers && q.id == r.id && r.txLocked == LockAfter(e, q)
  {
    var rows, where := live.customers, HasId(e.c);
    var set_ := match e
      case SetActive(_, on) => PutActive(on)
      case SetTxLock(_, on) => PutTxLock(on)
      case Edit(_, fields, lock, _) => Patched(fields, lock)
      case _ => ClearedMpin();
    if e.Remove? {
      WithoutMembers(rows, where);
    } else if !e.DropDevice? {
      OverlayAt(rows, where, set_);
      var i :| 0 <= i < |rows| && Overlay(rows, where, set_)[i] == r;
      assert rows[i] in rows;
    }
  }

  lemma RequestKeepsLocksFollowing(s: State, a: Action)
    requires LocksFollow(s) && DistinctIds(s.live.customers)
    requires !a.Decide? && !a.u.superadmin && Objection(s, a).None?
    ensures LocksFollow(Step(s, a).0) <==> !Unlocks(s, a)
  {
    var t, r := Step(s, a).0, CustomerOf(s, a.c).value;
    TheCustomer(s, a.c);
    var q := RequestOf(r, a);
    assert t.live == s.live && t.requests == s.requests + [q];
    assert q.op == UPDATE ==> (q.lock == r.txLocked <==> !Unlocks(s, a));
    hide Step, Objection, CustomerOf, RequestOf;
    assert t.requests[|s.requests|] == q;
    if Unlocks(s, a) {
      assert r in t.live.customers && r.id == q.customer;
    }
  }

  /** Locking at once is refused while anything is pending, and a deletion leaves no customer to disagree with. */
  lemma DirectKeepsLocksFollowing(s: State, a: Action)
    requires LocksFollow(s) && DistinctIds(s.live.customers)
    requires !a.Decide? && a.u.superadmin && Objection(s, a).None?
    ensures LocksFollow(Step(s, a).0) <==> !Unlocks(s, a)
  {
    var t, r, e := Step(s, a).0, CustomerOf(s, a.c).value, DirectEffect(a);
    TheCustomer(s, a.c);
    assert t.requests == s.requests && t.live == Apply(s.live, e) && e.c == a.c;
    assert e.SetTxLock? ==> !HasPending(s, a.c);
    assert e.Edit? ==> e.lock == a.form.lock && (e.lock == Some(true) ==> r.txLocked);
    if Unlocks(s, a) {
      var set_ := Patched(a.form.fields, a.form.lock);
      OverlayAt(s.live.customers, HasId(a.c), set_);
      var k :| 0 <= k < |s.live.customers| && s.live.customers[k] == r;
      assert t.live.customers[k] == set_(r) && set_(r) in t.live.customers;
      assert set_(r).id == a.c && !set_(r).txLocked;
      hide Step, Objection, CustomerOf, Apply;
      var i :| 0 <= i < |s.requests|
        && s.requests[i].customer == a.c && s.requests[i].status == Pending && s.requests[i].op == UPDATE;
      assert s.requests[i].lock;
    } else {
      assert e.Edit? && e.lock == Some(false) ==> !r.txLocked || !HasPendingUpdate(s, a.c);
      hide Step, Objection, CustomerOf, Apply, Unlocks;
      forall i, q | 0 <= i < |t.requests| && t.requests[i].op == UPDATE && t.requests[i].status == Pending
                 && q in t.live.customers && q.id == t.requests[i].customer
        ensures q.txLocked == t.requests[i].lock
      {
        EffectOnLocks(s.live, e, q);
      }
    }
  }

  lemma DecisionKeepsLocksFollowing(s: State, d: Action)
    requires LocksFollow(s) && OnlyDeletionsFollow(s.requests)
    requires d.Decide? && Objection(s, d).None?
    ensures LocksFollow(Step(s, d).0)
  {
    var t := Step(s, d).0;
    StatusSteps(s, d);
    var e := EffectOf(s.requests[d.id], PendingFields(s, d.id));
    assert e.c == s.requests[d.id].customer;
    assert t.live == if d.approve then Apply(s.live, e) else s.live;
    assert t.requests[d.id].status != Pending && |t.requests| == |s.requests|;
    assert e.SetTxLock? || e.Edit? ==> s.requests[d.id].op != DELETE;
    hide Step, Objection, Apply;
    forall i, q | 0 <= i < |t.requests| && t.requests[i].op == UPDATE && t.requests[i].status == Pending
               && q in t.live.customers && q.id == t.requests[i].customer
      ensures q.txLocked == t.requests[i].lock
    {
      assert i != d.id && t.requests[i] == s.requests[i];
      if d.approve {
        EffectOnLocks(s.live, e, q);
      }
    }
  }

  /** A step makes a pending update disagree with its customer's lock exactly when it is such a form. */
  lemma StepKeepsLocksFollowing(s: State, a: Action)
    requires LocksFollow(s) && DistinctIds(s.live.customers) && OnlyDeletionsFollow(s.requests)
    ensures LocksFollow(Step(s, a).0) <==> !Unlocks(s, a)
  {
    if Objection(s, a).None? {
      if a.Decide? {
        DecisionKeepsLocksFollowing(s, a);
      } else if a.u.superadmin {
        DirectKeepsLocksFollowing(s, a);
      } else {
        RequestKeepsLocksFollowing(s, a);
      }
    }
  }

  lemma ApplyKeepsIds(live: Snapshot, e: Effect)
    requires DistinctIds(live.customers)
    ensures DistinctIds(Apply(live, e).customers)
  {
    match e
    case SetActive(c, on) => OverlayAt(live.customers, HasId(c), PutActive(on));
    case SetTxLock(c, on) => OverlayAt(live.customers, HasId(c), PutTxLock(on));
    case ClearMpin(c) => OverlayAt(live.customers, HasId(c), ClearedMpin());
    case DropDevice(c) =>
    case Remove(c) => WithoutKeepsIds(live.customers, c);
    case Edit(c, fields, lock, _) => OverlayAt(live.customers, HasId(c), Patched(fields, lock));
  }

  lemma {:induction false} WithoutKeepsIds(rows: seq<Customer>, c: CustomerId)
    requires DistinctIds(rows)
    ensures DistinctIds(Without(rows, HasId(c)))
  {
    if rows != [] {
      WithoutKeepsIds(rows[1..], c);
      WithoutMembers(rows[1..], HasId(c));
      var rest := Without(rows[1..], HasId(c));
      forall i | 0 <= i < |rest|
        ensures rest[i].id != rows[0].id
      {
        assert rest[i] in rows[1..];
      }
    }
  }

  lemma {:induction false} IdsStayDistinct(live: Snapshot, run: seq<Action>)
    requires DistinctIds(live.customers)
    ensures DistinctIds(Exec(live, run).live.customers)
  {
    if run != [] {
      var before, last := run[..|run| - 1], run[|run| - 1];
      IdsStayDistinct(live, before);
      var s := Exec(live, before);
      if Objection(s, last).None? {
        if last.Decide? && last.approve {
          ApplyKeepsIds(s.live, EffectOf(s.requests[last.id], PendingFields(s, last.id)));
        } else if !last.Decide? && last.u.superadmin {
          ApplyKeepsIds(s.live, DirectEffect(last));
        }
      }
    }
  }

  lemma {:induction false} LocksFollowUpTo(live: Snapshot, run: seq<Action>, n: nat)
    requires n <= |run| && DistinctIds(live.customers)
    requires forall m :: 0 <= m < n ==> !Unlocks(Exec(live, run[..m]), run[m])
    ensures LocksFollow(Exec(live, run[..n]))
  {
    hide Step, Unlocks, DistinctIds, OnlyDeletionsFollow;
    if n > 0 {
      LocksFollowUpTo(live, run, n - 1);
      StepAlongRun(live, run, n - 1);
    }
  }

  lemma StepAlongRun(live: Snapshot, run: seq<Action>, n: nat)
    requires n < |run| && DistinctIds(live.customers) && LocksFollow(Exec(live, run[..n]))
    ensures LocksFollow(Exec(live, run[..n + 1])) <==> !Unlocks(Exec(live, run[..n]), run[n])
  {
    EventAt(live, run, n);
    IdsStayDistinct(live, run[..n]);
    OnlyDeletionsPileUp(live, run[..n]);
    StepKeepsLocksFollowing(Exec(live, run[..n]), run[n]);
  }

  /**
   * In every state of a run, deletions included, all pending updates carry their customers' locks, exactly
   * when no accepted form unlocks a locked customer as `Unlocks` says.
   */
  lemma LocksFollowExactly(live: Snapshot, run: seq<Action>)
    requires DistinctIds(live.customers)
    ensures (forall n :: 0 <= n <= |run| ==> LocksFollow(Exec(live, run[..n])))
       <==> (forall n :: 0 <= n < |run| ==> !Unlocks(Exec(live, run[..n]), run[n]))
  {
    hide LocksFollow, Unlocks, DistinctIds;
    if forall n :: 0 <= n <= |run| ==> LocksFollow(Exec(live, run[..n])) {
      forall n | 0 <= n < |run|
        ensures !Unlocks(Exec(live, run[..n]), run[n])
      {
        assert LocksFollow(Exec(live, run[..n + 1]));
        StepAlongRun(live, run, n);
      }
    }
    if forall n :: 0 <= n < |run| ==> !Unlocks(Exec(live, run[..n]), run[n]) {
      forall n | 0 <= n <= |run|
        ensures LocksFollow(Exec(live, run[..n]))
      {
        LocksFollowUpTo(live, run, n);
      }
    }
  }

  /** While no form has done so, approving an update leaves the lock of every visible customer as it is. */
  lemma UpdatesLeaveLocksAlone(live: Snapshot, run: seq<Action>, d: Action)
    requires DistinctIds(live.customers)
    requires forall n :: 0 <= n < |run| ==> !Unlocks(Exec(live, run[..n]), run[n])
    requires ApprovedUpdate(Exec(live, run), d)
    ensures SameLocks(Exec(live, run).live.customers, Step(Exec(live, run), d).0.live.customers)
  {
    var s := Exec(live, run);
    LocksFollowUpTo(live, run, |run|);
    assert run[..|run|] == run;
    IdsStayDistinct(live, run);
    ApprovalKeepsLocks(s, d);
    FirstFound(s.live.customers, HasId(s.requests[d.id].customer));
  }

  /** A form that says "not locked" is let through for a locked customer, and its approval unlocks it. */
  lemma FormCanUnlock(r: Customer, form: Form, at: string, clerk: nat, checker: nat)
    requires form.lock == Some(false) && r.txLocked && clerk != checker
    ensures var s := State(Snapshot([r], [], []), [], []);
      var after := ViaApproval(s, AskUpdate(r.id, form, false, at, User(0, true)), clerk, checker).live.customers;
      |after| == 1 && !after[0].txLocked
  {
    var s := State(Snapshot([r], [], []), [], []);
    var a := AskUpdate(r.id, form, false, at, User(0, true));
    assert First([r], HasId(r.id)) == Some(r);
    UpdatePaths(s, a, clerk, checker);
    OverlayAt([r], HasId(r.id), Patched(NonNull(r.fields + Stamps(at) + form.fields), Some(false)));
  }
}
