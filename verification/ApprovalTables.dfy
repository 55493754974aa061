/** The tables behind the back office, updated in place by the direct and by the approved path. */
module ApprovalTables {
  import opened Tables
  import opened Approvals

  class ApprovalService {
    var customers: seq<Row<Customer>>
    var devices: seq<Row<Device>>
    var mandates: seq<Row<Mandate>>
    var requests: seq<Request>
    var parts: seq<Part>

    ghost function View(): State
      reads this
    {
      State(Snapshot(Live(customers), Live(devices), Live(mandates)), requests, parts)
    }

    constructor (customers: seq<Row<Customer>>, devices: seq<Row<Device>>, mandates: seq<Row<Mandate>>)
      ensures View() == Exec(Snapshot(Live(customers), Live(devices), Live(mandates)), [])
    {
      this.customers, this.devices, this.mandates := customers, devices, mandates;
      this.requests, this.parts := [], [];
    }

    method FindCustomer(c: CustomerId) returns (found: Option<Customer>)
      ensures found == CustomerOf(View(), c)
    {
      LiveFind(customers, HasId(c));
      found := FindLive(customers, HasId(c));
    }

    method PendingRequestExists(c: CustomerId) returns (found: bool)
      ensures found <==> HasPending(View(), c)
    {
      found := exists i :: 0 <= i < |requests| && requests[i].customer == c && requests[i].status == Pending;
    }

    method SaveRequest(r: Customer, a: Action)
      requires !a.Decide? && !a.AskUpdate? && !a.u.superadmin && CustomerOf(View(), a.c) == Some(r)
      modifies this`requests
      ensures View() == Ask(old(View()), a).0
    {
      requests := requests + [RequestOf(r, a)];
    }

    // The single-column updates both paths issue; the direct path does not look at is_obsolete.

    method SetActiveEverywhere(c: CustomerId, on: bool)
      modifies this`customers, this`devices
      ensures View() == old(View()).(live := Apply(old(View()).live, SetActive(c, on)))
    {
      LiveUpdate(customers, HasId(c), PutActive(on));
      customers := UpdateAll(customers, HasId(c), PutActive(on));
      if on {
        LiveUpdate(devices, DeviceOf(c), ClearedAttempts());
        devices := UpdateLive(devices, DeviceOf(c), ClearedAttempts());
      }
    }

    method SetActiveLive(c: CustomerId, on: bool)
      modifies this`customers, this`devices
      ensures View() == old(View()).(live := Apply(old(View()).live, SetActive(c, on)))
    {
      LiveUpdate(customers, HasId(c), PutActive(on));
      customers := UpdateLive(customers, HasId(c), PutActive(on));
      if on {
        LiveUpdate(devices, DeviceOf(c), ClearedAttempts());
        devices := UpdateLive(devices, DeviceOf(c), ClearedAttempts());
      }
    }

    method BlockUnblockCustomer(c: CustomerId, unblock: bool, u: User) returns (o: Outcome)
      modifies this
      ensures (View(), o) == Step(old(View()), AskBlock(c, unblock, u))
    {
      var a := AskBlock(c, unblock, u);
      var customer := FindCustomer(c);
      if customer.None? {
        return Refused(NotFound);
      }
      if customer.value.active == unblock {
        return Refused(AlreadySo);
      }
      var pending := PendingRequestExists(c);
      if pending {
        return Refused(RequestExists);
      }
      if u.superadmin {
        SetActiveEverywhere(c, unblock);
        return Direct(SetActive(c, unblock));
      }
      SaveRequest(customer.value, a);
      o := Requested(|requests| - 1, SetActive(c, unblock));
    }

    method LockTransaction(c: CustomerId, lock: bool, u: User) returns (o: Outcome)
      modifies this
      ensures (View(), o) == Step(old(View()), AskLock(c, lock, u))
    {
      var customer := FindCustomer(c);
      if customer.None? {
        return Refused(NotFound);
      }
      var pending := PendingRequestExists(c);
      if pending {
        return Refused(RequestExists);
      }
      if customer.value.txLocked == lock {
        return Refused(AlreadySo);
      }
      if u.superadmin {
        LiveUpdate(customers, HasId(c), PutTxLock(lock));
        customers := UpdateLive(customers, HasId(c), PutTxLock(lock));
        return Direct(SetTxLock(c, lock));
      }
      SaveRequest(customer.value, AskLock(c, lock, u));
      o := Requested(|requests| - 1, SetTxLock(c, lock));
    }

    method ResetCustomerMpin(c: CustomerId, u: User) returns (o: Outcome)
      modifies this
      ensures (View(), o) == Step(old(View()), AskResetPin(c, u))
    {
      var customer := FindCustomer(c);
      if customer.None? {
        return Refused(InternalError);
      }
      var pending := PendingRequestExists(c);
      if pending {
        return Refused(RequestExists);
      }
      if !customer.value.mpinSet {
        return Refused(MpinNotSet);
      }
      if u.superadmin {
        LiveUpdate(customers, HasId(c), ClearedMpin());
        customers := UpdateAll(customers, HasId(c), ClearedMpin());
        return Direct(ClearMpin(c));
      }
      SaveRequest(customer.value, AskResetPin(c, u));
      o := Requested(|requests| - 1, ClearMpin(c));
    }

    method ResetDeviceId(c: CustomerId, u: User) returns (o: Outcome)
      modifies this
      ensures (View(), o) == Step(old(View()), AskResetDevice(c, u))
    {
      var customer := FindCustomer(c);
      if customer.None? {
        return Refused(NotFound);
      }
      var pending := PendingRequestExists(c);
      if pending {
        return Refused(RequestExists);
      }
      var device := FindLive(devices, DeviceOf(c));
      LiveFind(devices, DeviceOf(c));
      if device.None? {
        return Refused(NoDevice);
      }
      if u.superadmin {
        LiveRetire(devices, DeviceOf(c));
        devices := RetireLive(devices, DeviceOf(c));
        return Direct(DropDevice(c));
      }
      SaveRequest(customer.value, AskResetDevice(c, u));
      o := Requested(|requests| - 1, DropDevice(c));
    }

    method DeleteCustomer(c: CustomerId, u: User) returns (o: Outcome)
      modifies this
      ensures (View(), o) == Step(old(View()), AskDelete(c, u))
    {
      var customer := FindCustomer(c);
      if customer.None? {
        return Refused(NotFound);
      }
      if u.superadmin {
        LiveRetire(devices, DeviceOf(c));
        devices := Retire(devices, DeviceOf(c));
        LiveRetire(customers, HasId(c));
        customers := Retire(customers, HasId(c));
        LiveRetire(mandates, MandateOf(c));
        mandates := Retire(mandates, MandateOf(c));
        return Direct(Remove(c));
      }
      SaveRequest(customer.value, AskDelete(c, u));
      o := Requested(|requests| - 1, Remove(c));
    }

    method UpdateCustomer(c: CustomerId, form: Form, clashes: bool, at: string, u: User) returns (o: Outcome)
      modifies this
      ensures (View(), o) == Step(old(View()), AskUpdate(c, form, clashes, at, u))
    {
      var customer := FindCustomer(c);
      if customer.None? {
        return Refused(NotFound);
      }
      if !u.superadmin {
        var pending := PendingRequestExists(c);
        if pending {
          return Refused(RequestExists);
        }
      }
      if form.lock == Some(true) && !customer.value.txLocked {
        return Refused(LockCannotBeAltered);
      }
      if clashes {
        return Refused(Clash);
      }
      var mandate := FindLive(mandates, MandateOf(c));
      LiveFind(mandates, MandateOf(c));
      if u.superadmin {
        LiveUpdate(mandates, MandateOf(c), PatchedMandate(form.mandate));
        mandates := UpdateAll(mandates, MandateOf(c), PatchedMandate(form.mandate));
        LiveUpdate(customers, HasId(c), Patched(form.fields, form.lock));
        customers := UpdateAll(customers, HasId(c), Patched(form.fields, form.lock));
        return Direct(Edit(c, form.fields, form.lock, form.mandate));
      }
      var id, r := |requests|, RequestOf(customer.value, AskUpdate(c, form, clashes, at, u));
      requests := requests + [r];
      var fields := if mandate.Some? then mandate.value.fields + form.mandate else form.mandate;
      parts := parts + [Part(id, Pending, fields)];
      o := Requested(id, EffectOf(r, fields));
    }

    /** Marks a request, and the e-mandate part an UPDATE request has. */
    method Mark(id: RequestId, status: Status)
      requires id < |requests|
      modifies this`requests, this`parts
      ensures View() == Settle(old(View()), id, status)
    {
      var r := requests[id];
      requests := requests[id := r.(status := status)];
      if r.op == UPDATE {
        parts := Overlay(parts, PartOf(id), Decided(status));
      }
    }

    method RemoveLive(c: CustomerId)
      modifies this`customers, this`devices, this`mandates
      ensures View() == old(View()).(live := Apply(old(View()).live, Remove(c)))
    {
      LiveRetire(customers, HasId(c));
      customers := RetireLive(customers, HasId(c));
      LiveRetire(devices, DeviceOf(c));
      devices := RetireLive(devices, DeviceOf(c));
      LiveRetire(mandates, MandateOf(c));
      mandates := RetireLive(mandates, MandateOf(c));
    }

    method EditLive(c: CustomerId, fields: Patch, lock: bool, mandate: Patch)
      modifies this`customers, this`mandates
      ensures View() == old(View()).(live := Apply(old(View()).live, Edit(c, fields, Some(lock), mandate)))
    {
      LiveUpdate(customers, HasId(c), Patched(fields, Some(lock)));
      customers := UpdateLive(customers, HasId(c), Patched(fields, Some(lock)));
      LiveUpdate(mandates, MandateOf(c), PatchedMandate(mandate));
      mandates := UpdateLive(mandates, MandateOf(c), PatchedMandate(mandate));
    }

    /** The table updates an approval issues; each looks at visible rows only. */
    method CarryOut(r: Request, part: Patch)
      modifies this`customers, this`devices, this`mandates
      ensures View() == old(View()).(live := Apply(old(View()).live, EffectOf(r, part)))
    {
      var c := r.customer;
      match r.op {
        case BLOCK => SetActiveLive(c, false);
        case UNBLOCK => SetActiveLive(c, true);
        case BLOCK_RL =>
          LiveUpdate(customers, HasId(c), PutTxLock(true));
          customers := UpdateLive(customers, HasId(c), PutTxLock(true));
        case UNBLOCK_RL =>
          LiveUpdate(customers, HasId(c), PutTxLock(false));
          customers := UpdateLive(customers, HasId(c), PutTxLock(false));
        case RESET_PIN =>
          LiveUpdate(customers, HasId(c), ClearedMpin());
          customers := UpdateLive(customers, HasId(c), ClearedMpin());
        case RESET_DEVICE =>
          LiveRetire(devices, DeviceOf(c));
          devices := RetireLive(devices, DeviceOf(c));
        case DELETE =>
          RemoveLive(c);
        case UPDATE =>
          EditLive(c, NonNull(r.fields), r.lock, NonNull(part));
      }
    }

    method VerifyCustomer(id: RequestId, approve: bool, hasReason: bool, u: User) returns (o: Outcome)
      modifies this
      ensures (View(), o) == Step(old(View()), Decide(id, approve, hasReason, u))
    {
      if id >= |requests| {
        return Refused(InternalError);
      }
      var r := requests[id];
      if r.status != Pending {
        return Refused(AlreadyProcessed);
      }
      if r.author == u.id && !u.superadmin {
        return Refused(OwnRequest);
      }
      var customer := FindCustomer(r.customer);
      if !approve {
        if !hasReason {
          return Refused(ReasonRequired);
        }
        Mark(id, Rejected);
        return RequestRejected(id);
      }
      var part := First(parts, PendingPartOf(id));
      if r.op == UPDATE && part.None? {
        return Refused(MandateRequestNotFound);
      }
      if (r.op == UNBLOCK || r.op == DELETE || r.op == UPDATE) && customer.None? {
        return Refused(InternalError);
      }
      CarryOut(r, if part.Some? then part.value.fields else map[]);
      Mark(id, Approved);
      o := RequestApproved(id);
    }
  }
}
