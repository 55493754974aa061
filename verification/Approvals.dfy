/**
 * Maker and checker: a back-office user asks for a change, another one approves or rejects it;
 * a superadmin makes the change at once.
 *
 * The machine here works on the visible rows. Class ApprovalService (ApprovalTables.dfy) carries
 * it out on the tables, where the direct and the approved path issue different updates.
 */
module Approvals {
  import opened Tables

  type CustomerId = nat
  type RequestId = nat
  type Column = string

  /** A nullable column. */
  type Cell = Option<string>
  type Patch = map<Column, Cell>

  datatype Customer = Customer(id: CustomerId, active: bool, txLocked: bool, mpinSet: bool, fields: Patch)
  datatype Device = Device(customer: CustomerId, attempts: nat)
  datatype Mandate = Mandate(customer: CustomerId, fields: Patch)

  /** The visible rows of the three live tables. */
  datatype Snapshot = Snapshot(customers: seq<Customer>, devices: seq<Device>, mandates: seq<Mandate>)

  // ---------------------------------------------------------------------------------------
  // What a change does to the live tables.
  // ---------------------------------------------------------------------------------------

  datatype Effect =
    | SetActive(c: CustomerId, on: bool)
    | SetTxLock(c: CustomerId, on: bool)
    | ClearMpin(c: CustomerId)
    | DropDevice(c: CustomerId)
    | Remove(c: CustomerId)
    | Edit(c: CustomerId, fields: Patch, lock: Option<bool>, mandate: Patch)

  function HasId(c: CustomerId): Customer -> bool {
    (r: Customer) => r.id == c
  }

  function DeviceOf(c: CustomerId): Device -> bool {
    (d: Device) => d.customer == c
  }

  function MandateOf(c: CustomerId): Mandate -> bool {
    (m: Mandate) => m.customer == c
  }

  function PutActive(on: bool): Customer -> Customer {
    (r: Customer) => r.(active := on)
  }

  function PutTxLock(on: bool): Customer -> Customer {
    (r: Customer) => r.(txLocked := on)
  }

  function ClearedMpin(): Customer -> Customer {
    (r: Customer) => r.(mpinSet := false)
  }

  function ClearedAttempts(): Device -> Device {
    (d: Device) => d.(attempts := 0)
  }

  function Patched(fields: Patch, lock: Option<bool>): Customer -> Customer {
    (r: Customer) => r.(fields := r.fields + fields, txLocked := if lock.Some? then lock.value else r.txLocked)
  }

  function PatchedMandate(fields: Patch): Mandate -> Mandate {
    (m: Mandate) => m.(fields := m.fields + fields)
  }

  function Apply(live: Snapshot, e: Effect): Snapshot {
    match e
    case SetActive(c, on) =>
      live.(customers := Overlay(live.customers, HasId(c), PutActive(on)),
            devices := if on then Overlay(live.devices, DeviceOf(c), ClearedAttempts()) else live.devices)
    case SetTxLock(c, on) => live.(customers := Overlay(live.customers, HasId(c), PutTxLock(on)))
    case ClearMpin(c) => live.(customers := Overlay(live.customers, HasId(c), ClearedMpin()))
    case DropDevice(c) => live.(devices := Without(live.devices, DeviceOf(c)))
    case Remove(c) =>
      Snapshot(Without(live.customers, HasId(c)), Without(live.devices, DeviceOf(c)),
               Without(live.mandates, MandateOf(c)))
    case Edit(c, fields, lock, mandate) =>
      live.(customers := Overlay(live.customers, HasId(c), Patched(fields, lock)),
            mandates := Overlay(live.mandates, MandateOf(c), PatchedMandate(mandate)))
  }

  lemma {:induction false} OthersUntouched<T>(rows: seq<T>, where: T -> bool, set_: T -> T)
    requires forall r :: where(r) ==> where(set_(r))
    ensures Without(Overlay(rows, where, set_), where) == Without(rows, where)
    ensures Without(Without(rows, where), where) == Without(rows, where)
  {
    if rows != [] {
      OthersUntouched(rows[1..], where, set_);
    }
  }

  /** A change to one customer leaves the customers, devices and e-mandates of all others as they are, in order. */
  lemma ApplyTouchesOneCustomer(live: Snapshot, e: Effect)
    ensures var after := Apply(live, e);
      && Without(after.customers, HasId(e.c)) == Without(live.customers, HasId(e.c))
      && Without(after.devices, DeviceOf(e.c)) == Without(live.devices, DeviceOf(e.c))
      && Without(after.mandates, MandateOf(e.c)) == Without(live.mandates, MandateOf(e.c))
  {
    var set_ := match e
      case SetActive(_, on) => PutActive(on)
      case SetTxLock(_, on) => PutTxLock(on)
      case Edit(_, fields, lock, _) => Patched(fields, lock)
      case _ => ClearedMpin();
    OthersUntouched(live.customers, HasId(e.c), set_);
    OthersUntouched(live.devices, DeviceOf(e.c), ClearedAttempts());
    OthersUntouched(live.mandates, MandateOf(e.c), PatchedMandate(if e.Edit? then e.mandate else map[]));
  }

  /** What holds of the customer's own rows once the change is made. */
  ghost predicate Achieved(after: Snapshot, e: Effect) {
    match e
    case SetActive(c, on) =>
      && (forall r :: r in after.customers && r.id == c ==> r.active == on)
      && (on ==> forall d :: d in after.devices && d.customer == c ==> d.attempts == 0)
    case SetTxLock(c, on) => forall r :: r in after.customers && r.id == c ==> r.txLocked == on
    case ClearMpin(c) => forall r :: r in after.customers && r.id == c ==> !r.mpinSet
    case DropDevice(c) => forall d :: d in after.devices ==> d.customer != c
    case Remove(c) =>
      && (forall r :: r in after.customers ==> r.id != c)
      && (forall d :: d in after.devices ==> d.customer != c)
      && (forall m :: m in after.mandates ==> m.customer != c)
    case Edit(c, fields, lock, mandate) =>
      && (forall r, k :: r in after.customers && r.id == c && k in fields ==> k in r.fields && r.fields[k] == fields[k])
      && (forall r :: r in after.customers && r.id == c && lock.Some? ==> r.txLocked == lock.value)
      && (forall m, k :: m in after.mandates && m.customer == c && k in mandate ==>
            k in m.fields && m.fields[k] == mandate[k])
  }

  lemma {:induction false} OverlayGives<T>(rows: seq<T>, where: T -> bool, set_: T -> T)
    ensures forall r :: r in Overlay(rows, where, set_) ==>
      exists q :: q in rows && r == if where(q) then set_(q) else q
  {
    OverlayAt(rows, where, set_);
    forall r | r in Overlay(rows, where, set_)
      ensures exists q :: q in rows && r == if where(q) then set_(q) else q
    {
      var i :| 0 <= i < |rows| && Overlay(rows, where, set_)[i] == r;
      assert rows[i] in rows;
    }
  }

  lemma ApplyAchieves(live: Snapshot, e: Effect)
    ensures Achieved(Apply(live, e), e)
  {
    match e
    case SetActive(c, on) =>
      OverlayGives(live.customers, HasId(c), PutActive(on));
      OverlayGives(live.devices, DeviceOf(c), ClearedAttempts());
    case SetTxLock(c, on) => OverlayGives(live.customers, HasId(c), PutTxLock(on));
    case ClearMpin(c) => OverlayGives(live.customers, HasId(c), ClearedMpin());
    case DropDevice(c) => WithoutMembers(live.devices, DeviceOf(c));
    case Remove(c) =>
      WithoutMembers(live.customers, HasId(c));
      WithoutMembers(live.devices, DeviceOf(c));
      WithoutMembers(live.mandates, MandateOf(c));
    case Edit(c, fields, lock, mandate) =>
      OverlayGives(live.customers, HasId(c), Patched(fields, lock));
      OverlayGives(live.mandates, MandateOf(c), PatchedMandate(mandate));
  }

  // ---------------------------------------------------------------------------------------
  // Requests.
  // ---------------------------------------------------------------------------------------

  datatype Status = Pending | Approved | Rejected
  datatype Operation = BLOCK | UNBLOCK | BLOCK_RL | UNBLOCK_RL | RESET_PIN | RESET_DEVICE | DELETE | UPDATE

  /** A CustomerTemp row; its id is its place. `fields` and `lock` are the customer as it is to become. */
  datatype Request = Request(customer: CustomerId, op: Operation, author: nat, status: Status,
                             fields: Patch, lock: bool)

  /** An EMandateTemp row: the e-mandate part of an UPDATE request. */
  datatype Part = Part(request: RequestId, status: Status, fields: Patch)

  datatype State = State(live: Snapshot, requests: seq<Request>, parts: seq<Part>)

  /** removeEmpty: columns that are null are dropped. */
  function NonNull(p: Patch): Patch {
    map k | k in p && p[k].Some? :: p[k]
  }

  function PartOf(id: RequestId): Part -> bool {
    (p: Part) => p.request == id
  }

  function PendingPartOf(id: RequestId): Part -> bool {
    (p: Part) => p.request == id && p.status == Pending
  }

  function Decided(status: Status): Part -> Part {
    (p: Part) => p.(status := status)
  }

  function EffectOf(r: Request, part: Patch): Effect {
    match r.op
    case BLOCK => SetActive(r.customer, false)
    case UNBLOCK => SetActive(r.customer, true)
    case BLOCK_RL => SetTxLock(r.customer, true)
    case UNBLOCK_RL => SetTxLock(r.customer, false)
    case RESET_PIN => ClearMpin(r.customer)
    case RESET_DEVICE => DropDevice(r.customer)
    case DELETE => Remove(r.customer)
    case UPDATE => Edit(r.customer, NonNull(r.fields), Some(r.lock), NonNull(part))
  }

  datatype User = User(id: nat, superadmin: bool)

  /** The update form: columns present in it, the transaction lock if it carries one, and the bank part. */
  datatype Form = Form(fields: Patch, lock: Option<bool>, mandate: Patch)

  /** `at` is the moment an update request would be stored. */
  datatype Action =
    | AskBlock(c: CustomerId, unblock: bool, u: User)
    | AskLock(c: CustomerId, lock: bool, u: User)
    | AskResetPin(c: CustomerId, u: User)
    | AskResetDevice(c: CustomerId, u: User)
    | AskDelete(c: CustomerId, u: User)
    | AskUpdate(c: CustomerId, form: Form, clashes: bool, at: string, u: User)
    | Decide(id: RequestId, approve: bool, hasReason: bool, u: User)

  datatype Refusal =
    | NotFound | AlreadySo | RequestExists | MpinNotSet | NoDevice | LockCannotBeAltered | Clash
    | AlreadyProcessed | OwnRequest | ReasonRequired | MandateRequestNotFound | InternalError

  datatype Outcome =
    | Refused(why: Refusal)
    | Direct(effect: Effect)
    | Requested(id: RequestId, effect: Effect)
    | RequestApproved(id: RequestId)
    | RequestRejected(id: RequestId)

  predicate HasPending(s: State, c: CustomerId) {
    exists i :: 0 <= i < |s.requests| && s.requests[i].customer == c && s.requests[i].status == Pending
  }

  function CustomerOf(s: State, c: CustomerId): Option<Customer> {
    First(s.live.customers, HasId(c))
  }

  /** Why an action is turned away before anything is written, if it is. */
  function Objection(s: State, a: Action): Option<Refusal> {
    match a
    case AskBlock(c, unblock, _) =>
      var r := CustomerOf(s, c);
      if r.None? then Some(NotFound)
      else if r.value.active == unblock then Some(AlreadySo)
      else if HasPending(s, c) then Some(RequestExists)
      else None
    case AskLock(c, lock, _) =>
      var r := CustomerOf(s, c);
      if r.None? then Some(NotFound)
      else if HasPending(s, c) then Some(RequestExists)
      else if r.value.txLocked == lock then Some(AlreadySo)
      else None
    case AskResetPin(c, _) =>
      var r := CustomerOf(s, c);
      // The id of a missing customer is read before its absence is noticed.
      if r.None? then Some(InternalError)
      else if HasPending(s, c) then Some(RequestExists)
      else if !r.value.mpinSet then Some(MpinNotSet)
      else None
    case AskResetDevice(c, _) =>
      if CustomerOf(s, c).None? then Some(NotFound)
      else if HasPending(s, c) then Some(RequestExists)
      else if First(s.live.devices, DeviceOf(c)).None? then Some(NoDevice)
      else None
    case AskDelete(c, _) =>
      if CustomerOf(s, c).None? then Some(NotFound) else None
    case AskUpdate(c, form, clashes, _, u) =>
      var r := CustomerOf(s, c);
      if r.None? then Some(NotFound)
      else if !u.superadmin && HasPending(s, c) then Some(RequestExists)
      // A form that says "not locked" passes even when the customer is locked.
      else if form.lock == Some(true) && !r.value.txLocked then Some(LockCannotBeAltered)
      else if clashes then Some(Clash)
      else None
    case Decide(id, approve, hasReason, u) =>
      if id >= |s.requests| then Some(InternalError)
      else
        var r := s.requests[id];
        if r.status != Pending then Some(AlreadyProcessed)
        else if r.author == u.id && !u.superadmin then Some(OwnRequest)
        else if !approve then (if hasReason then None else Some(ReasonRequired))
        else if r.op == UPDATE && First(s.parts, PendingPartOf(id)).None? then Some(MandateRequestNotFound)
        else if (r.op == UNBLOCK || r.op == DELETE || r.op == UPDATE) && CustomerOf(s, r.customer).None? then
          Some(InternalError)
        else None
  }

  /** What a superadmin's action does at once. */
  function DirectEffect(a: Action): Effect
    requires !a.Decide?
  {
    match a
    case AskBlock(c, unblock, _) => SetActive(c, unblock)
    case AskLock(c, lock, _) => SetTxLock(c, lock)
    case AskResetPin(c, _) => ClearMpin(c)
    case AskResetDevice(c, _) => DropDevice(c)
    case AskDelete(c, _) => Remove(c)
    case AskUpdate(c, form, _, _, _) => Edit(c, form.fields, form.lock, form.mandate)
  }

  function OperationOf(a: Action): Operation
    requires !a.Decide?
  {
    match a
    case AskBlock(_, unblock, _) => if unblock then UNBLOCK else BLOCK
    case AskLock(_, lock, _) => if lock then BLOCK_RL else UNBLOCK_RL
    case AskResetPin(_, _) => RESET_PIN
    case AskResetDevice(_, _) => RESET_DEVICE
    case AskDelete(_, _) => DELETE
    case AskUpdate(_, _, _, _, _) => UPDATE
  }

  /** The columns a request row does not copy: the database fills in when the row was stored. */
  function Stamps(at: string): Patch {
    map["created_on" := Some(at), "modified_on" := Some(at)]
  }

  /**
   * The request row an action leaves behind: the customer as found, with the form laid over it. An
   * approval writes the stamps of the request over those of the customer.
   */
  function RequestOf(r: Customer, a: Action): Request
    requires !a.Decide?
  {
    var fields := if a.AskUpdate? then r.fields + Stamps(a.at) + a.form.fields else r.fields;
    var lock := if a.AskUpdate? && a.form.lock.Some? then a.form.lock.value else r.txLocked;
    Request(a.c, OperationOf(a), a.u.id, Pending, fields, lock)
  }

  /** The e-mandate part of an UPDATE request: the bank details as found, with the form laid over them. */
  function PartFields(s: State, c: CustomerId, form: Form): Patch {
    match First(s.live.mandates, MandateOf(c))
    case None => form.mandate
    case Some(m) => m.fields + form.mandate
  }

  /** The e-mandate columns an approval would write. */
  function PendingFields(s: State, id: RequestId): Patch {
    match First(s.parts, PendingPartOf(id))
    case None => map[]
    case Some(p) => p.fields
  }

  function Ask(s: State, a: Action): (State, Outcome)
    requires !a.Decide? && CustomerOf(s, a.c).Some?
  {
    if a.u.superadmin then (s.(live := Apply(s.live, DirectEffect(a))), Direct(DirectEffect(a)))
    else
      var id, r := |s.requests|, RequestOf(CustomerOf(s, a.c).value, a);
      if a.AskUpdate? then
        var fields := PartFields(s, a.c, a.form);
        (State(s.live, s.requests + [r], s.parts + [Part(id, Pending, fields)]), Requested(id, EffectOf(r, fields)))
      else (s.(requests := s.requests + [r]), Requested(id, EffectOf(r, map[])))
  }

  function Settle(s: State, id: RequestId, status: Status): State
    requires id < |s.requests|
  {
    var r := s.requests[id];
    s.(requests := s.requests[id := r.(status := status)],
       parts := if r.op == UPDATE then Overlay(s.parts, PartOf(id), Decided(status)) else s.parts)
  }

  function Step(s: State, a: Action): (State, Outcome) {
    var why := Objection(s, a);
    if why.Some? then (s, Refused(why.value))
    else if !a.Decide? then Ask(s, a)
    else if a.approve then
      var live := Apply(s.live, EffectOf(s.requests[a.id], PendingFields(s, a.id)));
      (Settle(s, a.id, Approved).(live := live), RequestApproved(a.id))
    else (Settle(s, a.id, Rejected), RequestRejected(a.id))
  }

  // ---------------------------------------------------------------------------------------
  // Runs, and their replay from the history alone.
  // ---------------------------------------------------------------------------------------

  function Exec(live: Snapshot, run: seq<Action>): State {
    if run == [] then State(live, [], [])
    else Step(Exec(live, run[..|run| - 1]), run[|run| - 1]).0
  }

  function Events(live: Snapshot, run: seq<Action>): (ev: seq<Outcome>)
    ensures |ev| == |run|
  {
    if run == [] then []
    else
      var before := run[..|run| - 1];
      Events(live, before) + [Step(Exec(live, before), run[|run| - 1]).1]
  }

  datatype Book = Book(live: Snapshot, open: map<RequestId, Effect>)

  /**
   * The book-keeper never sees a table: it notes the effect of each request when it is made, applies
   * direct effects and approved requests in order, and strikes out what has been decided.
   */
  function Note(b: Book, o: Outcome): Book {
    match o
    case Refused(_) => b
    case Direct(e) => b.(live := Apply(b.live, e))
    case Requested(id, e) => b.(open := b.open[id := e])
    case RequestApproved(id) => if id in b.open then Book(Apply(b.live, b.open[id]), b.open - {id}) else b
    case RequestRejected(id) => b.(open := b.open - {id})
  }

  function Replay(live: Snapshot, events: seq<Outcome>): Book {
    if events == [] then Book(live, map[])
    else Note(Replay(live, events[..|events| - 1]), events[|events| - 1])
  }

  // ---------------------------------------------------------------------------------------
  // What every step keeps.
  // ---------------------------------------------------------------------------------------

  /** Every part has the status of its request, and every UPDATE request has a part. */
  ghost predicate PartsFollow(s: State) {
    && (forall p :: p in s.parts ==>
          p.request < |s.requests| && s.requests[p.request].op == UPDATE && p.status == s.requests[p.request].status)
    && (forall id :: 0 <= id < |s.requests| && s.requests[id].op == UPDATE ==> First(s.parts, PartOf(id)).Some?)
  }

  lemma {:induction false} PartsAfterDecision(parts: seq<Part>, id: RequestId, status: Status, o: RequestId)
    requires status != Pending
    ensures var after := Overlay(parts, PartOf(id), Decided(status));
      && (First(after, PartOf(o)).Some? <==> First(parts, PartOf(o)).Some?)
      && First(after, PendingPartOf(o)) == (if o == id then None else First(parts, PendingPartOf(o)))
      && forall p :: p in after ==> exists q :: q in parts && p == (if q.request == id then q.(status := status) else q)
  {
    if parts != [] {
      PartsAfterDecision(parts[1..], id, status, o);
      var after, rest := Overlay(parts, PartOf(id), Decided(status)), Overlay(parts[1..], PartOf(id), Decided(status));
      forall p | p in after
        ensures exists q :: q in parts && p == (if q.request == id then q.(status := status) else q)
      {
        if p == after[0] {
          assert parts[0] in parts;
        } else {
          assert p in rest;
          var q :| q in parts[1..] && p == (if q.request == id then q.(status := status) else q);
          assert q in parts;
        }
      }
    }
  }

  lemma AskKeepsPartsFollowing(s: State, a: Action)
    requires PartsFollow(s) && !a.Decide? && CustomerOf(s, a.c).Some?
    ensures PartsFollow(Ask(s, a).0)
  {
    hide EffectOf, Apply, CustomerOf, DirectEffect;
    var t := Ask(s, a).0;
    forall id | 0 <= id < |t.requests| && t.requests[id].op == UPDATE
      ensures First(t.parts, PartOf(id)).Some?
    {
      if |t.parts| > |s.parts| {
        FirstAfterAppend(s.parts, t.parts[|s.parts|], PartOf(id));
      }
    }
  }

  lemma StepKeepsPartsFollowing(s: State, a: Action)
    requires PartsFollow(s)
    ensures PartsFollow(Step(s, a).0)
  {
    hide Ask, Settle, EffectOf, Apply;
    if Objection(s, a).None? {
      hide First;
      if a.Decide? {
        DecisionKeepsPartsFollowing(s, a.id, if a.approve then Approved else Rejected);
      } else {
        AskKeepsPartsFollowing(s, a);
      }
    }
  }

  lemma DecisionKeepsPartsFollowing(s: State, id: RequestId, status: Status)
    requires PartsFollow(s) && id < |s.requests| && status != Pending
    ensures PartsFollow(Settle(s, id, status))
  {
    var t := Settle(s, id, status);
    forall o | 0 <= o < |t.requests| && t.requests[o].op == UPDATE
      ensures First(t.parts, PartOf(o)).Some?
    {
      PartsAfterDecision(s.parts, id, status, o);
    }
    forall p | p in t.parts
      ensures p.request < |t.requests| && t.requests[p.request].op == UPDATE && p.status == t.requests[p.request].status
    {
      PartsAfterDecision(s.parts, id, status, id);
    }
  }

  lemma {:induction false} PartsAlwaysFollow(live: Snapshot, run: seq<Action>)
    ensures PartsFollow(Exec(live, run))
  {
    if run != [] {
      PartsAlwaysFollow(live, run[..|run| - 1]);
      StepKeepsPartsFollowing(Exec(live, run[..|run| - 1]), run[|run| - 1]);
    }
  }

  lemma {:induction false} FirstPendingPart(parts: seq<Part>, id: RequestId)
    requires forall p :: p in parts && p.request == id ==> p.status == Pending
    ensures First(parts, PendingPartOf(id)) == First(parts, PartOf(id))
  {
    if parts != [] {
      FirstPendingPart(parts[1..], id);
    }
  }

  /** Approving a pending request is never refused for want of its e-mandate part. */
  lemma ApprovalFindsItsPart(live: Snapshot, run: seq<Action>, a: Action)
    requires a.Decide?
    ensures Step(Exec(live, run), a).1 != Refused(MandateRequestNotFound)
  {
    PartsAlwaysFollow(live, run);
    var s := Exec(live, run);
    if a.id < |s.requests| && s.requests[a.id].status == Pending && s.requests[a.id].op == UPDATE {
      FirstPendingPart(s.parts, a.id);
    }
  }

  /** The open entries of the book are the pending requests, each with the effect its approval would have. */
  ghost predicate BookMatches(b: Book, s: State) {
    && b.live == s.live
    && (forall id: RequestId :: id in b.open <==> id < |s.requests| && s.requests[id].status == Pending)
    && (forall id: RequestId :: id in b.open ==> b.open[id] == EffectOf(s.requests[id], PendingFields(s, id)))
  }

  lemma AskMatchesBook(b: Book, s: State, a: Action)
    requires BookMatches(b, s) && PartsFollow(s)
    requires !a.Decide? && CustomerOf(s, a.c).Some?
    ensures BookMatches(Note(b, Ask(s, a).1), Ask(s, a).0)
  {
    hide EffectOf, Apply, NonNull;
    var t := Ask(s, a).0;
    if !a.u.superadmin {
      forall id: RequestId
        ensures id < |s.requests| ==> PendingFields(t, id) == PendingFields(s, id)
        ensures id == |s.requests| ==>
          PendingFields(t, id) == if a.AskUpdate? then PartFields(s, a.c, a.form) else map[]
      {
        if a.AskUpdate? {
          FirstAfterAppend(s.parts, t.parts[|s.parts|], PendingPartOf(id));
        }
        FirstFound(s.parts, PendingPartOf(id));
      }
    }
  }

  lemma DecisionMatchesBook(b: Book, s: State, id: RequestId, status: Status)
    requires BookMatches(b, s)
    requires id < |s.requests| && s.requests[id].status == Pending && status != Pending
    ensures BookMatches(Book(s.live, b.open - {id}), Settle(s, id, status))
  {
    var t := Settle(s, id, status);
    forall o: RequestId | o != id
      ensures PendingFields(t, o) == PendingFields(s, o)
    {
      PartsAfterDecision(s.parts, id, status, o);
    }
  }

  lemma StepMatchesBook(b: Book, s: State, a: Action)
    requires BookMatches(b, s) && PartsFollow(s)
    ensures BookMatches(Note(b, Step(s, a).1), Step(s, a).0)
  {
    hide EffectOf, Apply, Ask, PartsFollow, First;
    if Objection(s, a).None? {
      if a.Decide? {
        DecisionMatchesBook(b, s, a.id, if a.approve then Approved else Rejected);
      } else {
        AskMatchesBook(b, s, a);
      }
    }
  }

  /**
   * In every run the live tables are the replay, in order, of the direct operations and of the
   * approved requests with the effect they had when they were made.
   */
  lemma {:induction false} LiveIsReplay(live: Snapshot, run: seq<Action>)
    ensures BookMatches(Replay(live, Events(live, run)), Exec(live, run))
  {
    if run != [] {
      var before, last := run[..|run| - 1], run[|run| - 1];
      LiveIsReplay(live, before);
      PartsAlwaysFollow(live, before);
      StepMatchesBook(Replay(live, Events(live, before)), Exec(live, before), last);
      assert Events(live, run)[..|run| - 1] == Events(live, before);
    }
  }

  // ---------------------------------------------------------------------------------------
  // Decisions are final, and come one at a time.
  // ---------------------------------------------------------------------------------------

  lemma EventsPrefix(live: Snapshot, run: seq<Action>, n: nat)
    requires n <= |run|
    ensures Events(live, run)[..n] == Events(live, run[..n])
    decreases |run|
  {
    if n < |run| {
      EventsPrefix(live, run[..|run| - 1], n);
      assert run[..|run| - 1][..n] == run[..n];
    } else {
      assert run[..n] == run;
    }
  }

  lemma EventAt(live: Snapshot, run: seq<Action>, i: nat)
    requires i < |run|
    ensures Events(live, run)[i] == Step(Exec(live, run[..i]), run[i]).1
    ensures Exec(live, run[..i + 1]) == Step(Exec(live, run[..i]), run[i]).0
  {
    EventsPrefix(live, run, i + 1);
    assert run[..i + 1][..i] == run[..i];
  }

  predicate Decides(o: Outcome, id: RequestId) {
    o == RequestApproved(id) || o == RequestRejected(id)
  }

  ghost predicate DistinctIds(rows: seq<Customer>) {
    forall i, j :: 0 <= i < j < |rows| ==> rows[i].id != rows[j].id
  }

  ghost predicate OnePendingEach(rs: seq<Request>) {
    forall i, j :: 0 <= i < j < |rs| && rs[i].status == Pending && rs[j].status == Pending ==>
      rs[i].customer != rs[j].customer
  }

  /** A step appends at most one request and decides at most one pending one; nothing else moves. */
  lemma StatusSteps(s: State, a: Action)
    ensures var (t, o) := Step(s, a);
      && |s.requests| <= |t.requests| <= |s.requests| + 1
      && (|t.requests| > |s.requests| ==> !a.Decide? && !a.u.superadmin && Objection(s, a).None?)
      && forall i: nat :: i < |s.requests| ==>
           if Decides(o, i) then
             && s.requests[i].status == Pending
             && t.requests[i] == s.requests[i].(status := if o.RequestApproved? then Approved else Rejected)
           else t.requests[i] == s.requests[i]
  {
  }

  lemma DecisionIsOfRequest(s: State, a: Action, id: RequestId)
    requires Decides(Step(s, a).1, id)
    ensures id < |s.requests|
  {
  }

  lemma {:induction false} StatusIsFinal(live: Snapshot, run: seq<Action>, i: nat, j: nat, id: RequestId)
    requires i <= j <= |run|
    requires id < |Exec(live, run[..i]).requests| && Exec(live, run[..i]).requests[id].status != Pending
    ensures id < |Exec(live, run[..j]).requests|
    ensures Exec(live, run[..j]).requests[id] == Exec(live, run[..i]).requests[id]
    decreases j
  {
    hide Step;
    if i < j {
      StatusIsFinal(live, run, i, j - 1, id);
      EventAt(live, run, j - 1);
      StatusSteps(Exec(live, run[..j - 1]), run[j - 1]);
    }
  }

  /** In every run each request is decided at most once, and its status never changes again. */
  lemma DecidedOnce(live: Snapshot, run: seq<Action>, i: nat, j: nat, id: RequestId)
    requires i < j < |run| && Decides(Events(live, run)[i], id)
    ensures !Decides(Events(live, run)[j], id)
    ensures id < |Exec(live, run).requests|
    ensures Exec(live, run).requests[id].status ==
      if Events(live, run)[i] == RequestApproved(id) then Approved else Rejected
  {
    EventAt(live, run, i);
    EventAt(live, run, j);
    DecisionIsOfRequest(Exec(live, run[..i]), run[i], id);
    StatusSteps(Exec(live, run[..i]), run[i]);
    StatusIsFinal(live, run, i + 1, j, id);
    StatusSteps(Exec(live, run[..j]), run[j]);
    StatusIsFinal(live, run, i + 1, |run|, id);
    assert run[..|run|] == run;
  }

  // ---------------------------------------------------------------------------------------
  // Pending requests of one customer.
  // ---------------------------------------------------------------------------------------

  /** A deletion asked for by a clerk while the customer has a pending request. */
  predicate PilesUp(s: State, a: Action) {
    a.AskDelete? && !a.u.superadmin && CustomerOf(s, a.c).Some? && HasPending(s, a.c)
  }

  lemma NewRequestIsAlone(s: State, a: Action)
    requires |Step(s, a).0.requests| > |s.requests|
    ensures var r := Step(s, a).0.requests[|s.requests|];
      && !a.Decide? && r.customer == a.c && r.status == Pending && (r.op == DELETE <==> a.AskDelete?)
      && (PilesUp(s, a) <==> HasPending(s, a.c))
      && (PilesUp(s, a) ==> a.AskDelete?)
  {
  }

  lemma PilingUpIsAccepted(s: State, a: Action)
    requires PilesUp(s, a)
    ensures |Step(s, a).0.requests| > |s.requests|
  {
  }

  /** A step gives a customer a second pending request exactly when it is such a deletion. */
  lemma StepKeepsOnePending(s: State, a: Action)
    requires OnePendingEach(s.requests)
    ensures OnePendingEach(Step(s, a).0.requests) <==> !PilesUp(s, a)
  {
    var t := Step(s, a).0;
    StatusSteps(s, a);
    if PilesUp(s, a) {
      PilingUpIsAccepted(s, a);
    }
    hide Step, PilesUp;
    if |t.requests| > |s.requests| {
      NewRequestIsAlone(s, a);
      if PilesUp(s, a) {
        var i :| 0 <= i < |s.requests| && s.requests[i].customer == a.c && s.requests[i].status == Pending;
        assert t.requests[i] == s.requests[i];
      }
    }
  }

  /** In every state of a run no customer has two pending requests, exactly when no such deletion is asked for. */
  lemma OnePendingRequest(live: Snapshot, run: seq<Action>)
    ensures (forall n :: 0 <= n <= |run| ==> OnePendingEach(Exec(live, run[..n]).requests))
       <==> (forall n :: 0 <= n < |run| ==> !PilesUp(Exec(live, run[..n]), run[n]))
  {
    hide OnePendingEach, PilesUp, Step;
    if forall n :: 0 <= n <= |run| ==> OnePendingEach(Exec(live, run[..n]).requests) {
      forall n | 0 <= n < |run|
        ensures !PilesUp(Exec(live, run[..n]), run[n])
      {
        EventAt(live, run, n);
        assert OnePendingEach(Exec(live, run[..n + 1]).requests);
        StepKeepsOnePending(Exec(live, run[..n]), run[n]);
      }
    }
    if forall n :: 0 <= n < |run| ==> !PilesUp(Exec(live, run[..n]), run[n]) {
      forall n | 0 <= n <= |run|
        ensures OnePendingEach(Exec(live, run[..n]).requests)
      {
        OnePendingUpTo(live, run, n);
      }
    }
  }

  lemma {:induction false} OnePendingUpTo(live: Snapshot, run: seq<Action>, n: nat)
    requires n <= |run|
    requires forall m :: 0 <= m < n ==> !PilesUp(Exec(live, run[..m]), run[m])
    ensures OnePendingEach(Exec(live, run[..n]).requests)
  {
    if n > 0 {
      OnePendingUpTo(live, run, n - 1);
      EventAt(live, run, n - 1);
      StepKeepsOnePending(Exec(live, run[..n - 1]), run[n - 1]);
    }
  }

  /** Of two pending requests of one customer, the later is a deletion. */
  ghost predicate OnlyDeletionsFollow(rs: seq<Request>) {
    forall i, j :: 0 <= i < j < |rs| && rs[i].status == Pending && rs[j].status == Pending && rs[j].op != DELETE ==>
      rs[i].customer != rs[j].customer
  }

  lemma StepKeepsDeletionsFollowing(s: State, a: Action)
    requires OnlyDeletionsFollow(s.requests)
    ensures OnlyDeletionsFollow(Step(s, a).0.requests)
  {
    StatusSteps(s, a);
    hide Step;
    if |Step(s, a).0.requests| > |s.requests| {
      NewRequestIsAlone(s, a);
    }
  }

  /** In every run, deletions included, a pending request that is not a deletion is its customer's first. */
  lemma {:induction false} OnlyDeletionsPileUp(live: Snapshot, run: seq<Action>)
    ensures OnlyDeletionsFollow(Exec(live, run).requests)
  {
    if run != [] {
      OnlyDeletionsPileUp(live, run[..|run| - 1]);
      StepKeepsDeletionsFollowing(Exec(live, run[..|run| - 1]), run[|run| - 1]);
    }
  }

  /** Two deletions asked for one customer are both pending: the delete guard compares an id it no longer has. */
  lemma DeletionsPileUp(r: Customer, u: User)
    requires !u.superadmin
    ensures var run := [AskDelete(r.id, u), AskDelete(r.id, u)];
      var rs := Exec(Snapshot([r], [], []), run).requests;
      |rs| == 2 && rs[0].status == Pending && rs[1].status == Pending && rs[0].customer == rs[1].customer
  {
    var live := Snapshot([r], [], []);
    var one, two := [AskDelete(r.id, u)], [AskDelete(r.id, u), AskDelete(r.id, u)];
    assert one[..0] == [] && two[..1] == one;
    assert Exec(live, []) == State(live, [], []);
    assert First([r], HasId(r.id)) == Some(r);
    assert Exec(live, one) == Step(Exec(live, []), AskDelete(r.id, u)).0;
    assert Exec(live, two) == Step(Exec(live, one), AskDelete(r.id, u)).0;
  }
}
