/** The Customer and CustomerDevice tables behind the login service, updated in place. */
module LoginTables {
  import opened Tables
  import opened DeviceLogin

  datatype Device = Device(customer: CustomerId, slot: Slot)

  // The queries and column assignments the service issues.

  function OfCustomer(c: CustomerId): Device -> bool {
    (d: Device) => d.customer == c
  }

  function OnDevice(device: DeviceId): Device -> bool {
    (d: Device) => d.slot.device == device
  }

  function OnDeviceOfOther(c: CustomerId, device: DeviceId): Device -> bool {
    (d: Device) => d.slot.device == device && d.customer != c
  }

  function StoreCode(device: DeviceId, code: Code): Device -> Device {
    (d: Device) => d.(slot := Slot(device, code, Login, false, 0))
  }

  function StoreResetCode(code: Code): Device -> Device {
    (d: Device) => d.(slot := Slot(d.slot.device, code, Reset, false, 0))
  }

  function SetAttempts(n: nat): Device -> Device {
    (d: Device) => d.(slot := d.slot.(attempts := n))
  }

  function ConsumeLoginCode(): Device -> Device {
    (d: Device) => d.(slot := d.slot.(used := true, attempts := 0))
  }

  function ConsumeResetCode(): Device -> Device {
    (d: Device) => d.(slot := d.slot.(used := true))
  }

  // ---------------------------------------------------------------------------------------
  // The visible rows read as one slot per customer.
  // ---------------------------------------------------------------------------------------

  ghost function SlotMap(live: seq<Device>): map<CustomerId, Slot> {
    if live == [] then map[]
    else SlotMap(live[1..])[live[0].customer := live[0].slot]
  }

  ghost predicate OneRowEach(live: seq<Device>) {
    forall i, j :: 0 <= i < j < |live| ==> live[i].customer != live[j].customer
  }

  lemma {:induction false} SlotLookup(live: seq<Device>, c: CustomerId)
    ensures First(live, OfCustomer(c)) == if c in SlotMap(live) then Some(Device(c, SlotMap(live)[c])) else None
  {
    if live != [] {
      SlotLookup(live[1..], c);
    }
  }

  lemma {:induction false} SlotsAfterOverlay(live: seq<Device>, c: CustomerId, set_: Device -> Device)
    requires forall d :: set_(d).customer == d.customer
    ensures var slots := SlotMap(live);
      SlotMap(Overlay(live, OfCustomer(c), set_))
        == if c in slots then slots[c := set_(Device(c, slots[c])).slot] else slots
  {
    if live != [] {
      SlotsAfterOverlay(live[1..], c, set_);
      assert live[0] == Device(live[0].customer, live[0].slot);
    }
  }

  lemma OverlayKeepsOneRowEach(live: seq<Device>, c: CustomerId, set_: Device -> Device)
    requires forall d :: set_(d).customer == d.customer
    requires OneRowEach(live)
    ensures OneRowEach(Overlay(live, OfCustomer(c), set_))
  {
    OverlayAt(live, OfCustomer(c), set_);
  }

  lemma {:induction false} WithoutKeepsOneRowEach(live: seq<Device>, c: CustomerId)
    requires OneRowEach(live)
    ensures OneRowEach(Without(live, OfCustomer(c)))
  {
    if live != [] {
      WithoutKeepsOneRowEach(live[1..], c);
      var rest := Without(live[1..], OfCustomer(c));
      WithoutMembers(live[1..], OfCustomer(c));
      forall i | 0 <= i < |rest|
        ensures rest[i].customer != live[0].customer
      {
        assert rest[i] in live[1..];
      }
    }
  }

  lemma {:induction false} SlotsAfterWithout(live: seq<Device>, c: CustomerId)
    ensures SlotMap(Without(live, OfCustomer(c))) == SlotMap(live) - {c}
  {
    if live != [] {
      SlotsAfterWithout(live[1..], c);
    }
  }

  lemma {:induction false} SlotsAfterInsert(live: seq<Device>, d: Device)
    requires d.customer !in SlotMap(live)
    ensures SlotMap(live + [d]) == SlotMap(live)[d.customer := d.slot]
  {
    if live != [] {
      assert (live + [d])[1..] == live[1..] + [d];
      SlotsAfterInsert(live[1..], d);
    } else {
      assert live + [d] == [d];
    }
  }

  lemma {:induction false} SlotMapKeys(live: seq<Device>)
    ensures forall d :: d in live ==> d.customer in SlotMap(live)
    ensures forall c :: c in SlotMap(live) ==> Device(c, SlotMap(live)[c]) in live
    ensures OneRowEach(live) ==> forall d :: d in live ==> SlotMap(live)[d.customer] == d.slot
  {
    if live != [] {
      var rest := live[1..];
      SlotMapKeys(rest);
      forall c | c in SlotMap(live)
        ensures Device(c, SlotMap(live)[c]) in live
      {
        assert if c == live[0].customer then Device(c, SlotMap(live)[c]) == live[0]
               else Device(c, SlotMap(rest)[c]) in rest;
      }
      if OneRowEach(live) {
        forall d | d in rest
          ensures d.customer != live[0].customer
        {
          var i :| 0 <= i < |rest| && rest[i] == d;
          assert live[i + 1] == d;
        }
      }
    }
  }

  /** With one visible row each, another customer's row on the device is another customer's slot. */
  lemma HolderHasSlot(accounts: map<CustomerId, Account>, live: seq<Device>, c: CustomerId, device: DeviceId)
    requires OneRowEach(live)
    ensures First(live, OnDeviceOfOther(c, device)).Some? <==> DeviceTaken(State(accounts, SlotMap(live)), c, device)
    ensures c !in SlotMap(live) ==>
      (First(live, OnDevice(device)).Some? <==> DeviceTaken(State(accounts, SlotMap(live)), c, device))
  {
    SlotMapKeys(live);
    FirstFound(live, OnDeviceOfOther(c, device));
    FirstFound(live, OnDevice(device));
    var s := State(accounts, SlotMap(live));
    if DeviceTaken(s, c, device) {
      var o :| o in s.slots && o != c && s.slots[o].device == device;
      var i :| 0 <= i < |live| && live[i] == Device(o, s.slots[o]);
      assert OnDeviceOfOther(c, device)(live[i]) && OnDevice(device)(live[i]);
    }
    if First(live, OnDevice(device)).Some? && c !in SlotMap(live) {
      var d := First(live, OnDevice(device)).value;
      assert s.slots[d.customer] == d.slot;
    }
    if First(live, OnDeviceOfOther(c, device)).Some? {
      var d := First(live, OnDeviceOfOther(c, device)).value;
      assert s.slots[d.customer] == d.slot;
    }
  }

  /** An update of all rows of a customer, obsolete ones included, that leaves the customer column alone. */
  lemma Shown(rows: seq<Row<Device>>, c: CustomerId, set_: Device -> Device)
    requires forall d :: set_(d).customer == d.customer
    requires OneRowEach(Live(rows))
    ensures var slots := SlotMap(Live(rows));
      SlotMap(Live(UpdateAll(rows, OfCustomer(c), set_))) == SlotMap(Live(UpdateLive(rows, OfCustomer(c), set_)))
        == if c in slots then slots[c := set_(Device(c, slots[c])).slot] else slots
    ensures OneRowEach(Live(UpdateAll(rows, OfCustomer(c), set_)))
    ensures OneRowEach(Live(UpdateLive(rows, OfCustomer(c), set_)))
  {
    LiveUpdate(rows, OfCustomer(c), set_);
    SlotsAfterOverlay(Live(rows), c, set_);
    OverlayKeepsOneRowEach(Live(rows), c, set_);
  }

  class LoginService {
    var accounts: map<CustomerId, Account>
    var devices: seq<Row<Device>>

    ghost function View(): State
      reads this
    {
      State(accounts, SlotMap(Live(devices)))
    }

    /** At most one visible row per customer and per device, and only for customers that exist. */
    ghost predicate Valid()
      reads this
    {
      OneRowEach(Live(devices)) && Paired(View())
    }

    constructor (accounts: map<CustomerId, Account>)
      ensures Valid() && View() == Exec(accounts, [])
    {
      this.accounts := accounts;
      this.devices := [];
    }

    method FindDevice(c: CustomerId) returns (found: Option<Device>)
      requires Valid()
      ensures found == if c in View().slots then Some(Device(c, View().slots[c])) else None
    {
      found := FindLive(devices, OfCustomer(c));
      LiveFind(devices, OfCustomer(c));
      SlotLookup(Live(devices), c);
    }

    /** Nobody else holds the device of a customer that has a visible row. */
    method FindOtherHolder(c: CustomerId) returns (usedByOther: Option<Device>)
      requires Valid() && c in View().slots
      ensures usedByOther == FindLive(devices, OnDeviceOfOther(c, View().slots[c].device))
      ensures usedByOther.None?
    {
      var customer := FindDevice(c);
      var device := customer.value.slot.device;
      LiveFind(devices, OnDeviceOfOther(c, device));
      HolderHasSlot(accounts, Live(devices), c, device);
      usedByOther := FindLive(devices, OnDeviceOfOther(c, device));
    }

    method Unlock(c: CustomerId)
      requires c in accounts
      modifies this`accounts
      ensures accounts == old(accounts)[c := old(accounts)[c].(otpLocked := false)]
    {
      accounts := accounts[c := accounts[c].(otpLocked := false)];
    }

    /** getOtp for a customer that has a visible row. */
    method GetOtpOnKnownDevice(c: CustomerId, held: DeviceId, device: DeviceId, code: Code, lockHolds: bool)
      returns (o: Outcome)
      requires Valid()
      requires Known(View(), c) && accounts[c].active && c in View().slots && View().slots[c].device == held
      modifies this
      ensures OneRowEach(Live(devices))
      ensures (View(), o) == GetOtpStep(old(View()), c, device, code, lockHolds)
    {
      hide Paired, SlotMap, OneRowEach;
      if held != device {
        return Refused(DeviceIdMismatch);
      }
      // The service refuses here if another customer holds the device; none does.
      var usedByOther := FindOtherHolder(c);
      assert usedByOther.None?;
      if accounts[c].otpLocked {
        if lockHolds {
          return Refused(TemporarilyBlocked);
        }
        Unlock(c);
        Shown(devices, c, SetAttempts(0));
        devices := UpdateLive(devices, OfCustomer(c), SetAttempts(0));
      }
      Shown(devices, c, StoreCode(device, code));
      devices := UpdateAll(devices, OfCustomer(c), StoreCode(device, code));
      assert View().slots == old(View()).slots[c := Slot(device, code, Login, false, 0)];
      assert accounts == WithLock(old(View()), c, false).accounts;
      o := Issued(Login, code);
    }

    /** getOtp for a customer without a visible row. */
    method GetOtpOnNewDevice(c: CustomerId, device: DeviceId, code: Code, lockHolds: bool) returns (o: Outcome)
      requires Valid()
      requires Known(View(), c) && accounts[c].active && c !in View().slots
      modifies this
      ensures OneRowEach(Live(devices))
      ensures (View(), o) == GetOtpStep(old(View()), c, device, code, lockHolds)
    {
      hide Paired, SlotMap;
      if accounts[c].otpLocked {
        if lockHolds {
          return Refused(TemporarilyBlocked);
        }
        Unlock(c);
      }
      assert accounts == WithLock(old(View()), c, false).accounts;
      var holder := FindLive(devices, OnDevice(device));
      LiveFind(devices, OnDevice(device));
      HolderHasSlot(old(accounts), Live(devices), c, device);
      if holder.Some? {
        return Refused(DeviceExists);
      }
      var row := Device(c, Slot(device, code, Login, false, 0));
      LiveInsert(devices, row);
      SlotsAfterInsert(Live(devices), row);
      SlotMapKeys(Live(devices));
      devices := Insert(devices, row);
      o := Issued(Login, code);
    }

    method GetOtp(c: CustomerId, device: DeviceId, code: Code, lockHolds: bool) returns (o: Outcome)
      requires Valid()
      modifies this
      ensures Valid()
      ensures (View(), o) == Step(old(View()), Request.GetOtp(c, device, code, lockHolds))
    {
      hide Paired, SlotMap;
      StepKeepsPairing(View(), Request.GetOtp(c, device, code, lockHolds));
      if c !in accounts || accounts[c].obsolete {
        return Refused(CustomerNotFound);
      }
      if !accounts[c].active {
        return Refused(CustomerBlocked);
      }
      var customer := FindDevice(c);
      if customer.Some? {
        o := GetOtpOnKnownDevice(c, customer.value.slot.device, device, code, lockHolds);
      } else {
        o := GetOtpOnNewDevice(c, device, code, lockHolds);
      }
    }

    method CountWrongCode(c: CustomerId, attempt: nat)
      requires OneRowEach(Live(devices)) && c in accounts && c in View().slots
      modifies this
      ensures OneRowEach(Live(devices))
      ensures View().slots == old(View()).slots[c := old(View()).slots[c].(attempts := attempt)]
      ensures accounts == if attempt >= MAX_ATTEMPTS then old(accounts)[c := old(accounts)[c].(otpLocked := true)]
                          else old(accounts)
    {
      Shown(devices, c, SetAttempts(attempt));
      devices := UpdateLive(devices, OfCustomer(c), SetAttempts(attempt));
      if attempt >= MAX_ATTEMPTS {
        accounts := accounts[c := accounts[c].(otpLocked := true)];
      }
    }

    method ValidateOtp(c: CustomerId, header: Option<DeviceId>, code: Code, expired: bool) returns (o: Outcome)
      requires Valid()
      modifies this
      ensures Valid()
      ensures (View(), o) == Step(old(View()), Request.ValidateOtp(c, header, code, expired))
    {
      hide Paired, SlotMap;
      StepKeepsPairing(View(), Request.ValidateOtp(c, header, code, expired));
      if c !in accounts || accounts[c].obsolete {
        return Refused(CustomerNotFound);
      }
      if !accounts[c].active {
        return Refused(CustomerBlocked);
      }
      if accounts[c].otpLocked {
        return Refused(TemporarilyBlocked);
      }
      var customer := FindDevice(c);
      if customer.None? {
        return Refused(DeviceDetailNotFound);
      }
      if header.None? {
        return Refused(DeviceIdMissing);
      }
      var slot := customer.value.slot;
      if slot.device != header.value {
        return Refused(DeviceIdMismatch);
      }
      if slot.kind != Login {
        return Refused(WrongOtpType);
      }
      if slot.used {
        return Refused(OtpAlreadyUsed);
      }
      if slot.attempts >= MAX_ATTEMPTS {
        return Refused(CustomerBlocked);
      }
      if slot.otp != code {
        CountWrongCode(c, slot.attempts + 1);
        return WrongCode(Login);
      }
      if expired {
        return Refused(OtpExpired);
      }
      Shown(devices, c, ConsumeLoginCode());
      devices := UpdateLive(devices, OfCustomer(c), ConsumeLoginCode());
      o := Accepted(Login, code);
    }

    method LoginWithPassword(c: CustomerId, header: Option<DeviceId>, matches_: bool) returns (o: Outcome)
      requires Valid()
      modifies this
      ensures Valid()
      ensures (View(), o) == Step(old(View()), PasswordLogin(c, header, matches_))
    {
      hide Paired, SlotMap;
      StepKeepsPairing(View(), PasswordLogin(c, header, matches_));
      if header.None? {
        return Refused(DeviceIdMissing);
      }
      if c !in accounts || accounts[c].obsolete {
        return Refused(CustomerNotFound);
      }
      var customer := FindDevice(c);
      if customer.None? {
        return Refused(DeviceDetailNotFound);
      }
      if !accounts[c].active {
        return Refused(CustomerBlocked);
      }
      var slot := customer.value.slot;
      if slot.device != header.value {
        return Refused(DeviceIdMismatch);
      }
      if slot.attempts >= MAX_ATTEMPTS {
        return Refused(CustomerBlocked);
      }
      if !matches_ {
        Shown(devices, c, SetAttempts(slot.attempts + 1));
        devices := UpdateAll(devices, OfCustomer(c), SetAttempts(slot.attempts + 1));
        return WrongPassword;
      }
      Shown(devices, c, SetAttempts(0));
      devices := UpdateAll(devices, OfCustomer(c), SetAttempts(0));
      o := PasswordAccepted;
    }

    method CheckDeviceId(c: CustomerId, header: Option<DeviceId>) returns (why: Option<Refusal>)
      requires Valid()
      ensures why == Guard(View(), c, header)
      ensures why.None? ==> c in View().slots && c in accounts
    {
      if header.None? {
        return Some(DeviceIdMissing);
      }
      if c !in accounts || accounts[c].obsolete {
        return Some(CustomerNotFound);
      }
      if !accounts[c].active {
        return Some(CustomerBlocked);
      }
      if accounts[c].otpLocked {
        return Some(TemporarilyBlocked);
      }
      var customer := FindDevice(c);
      if customer.None? {
        return Some(DeviceDetailNotFound);
      }
      why := if customer.value.slot.device != header.value then Some(DeviceIdMismatch) else None;
    }

    /** The branch that would insert a row without a device is never taken: the guard found one. */
    method ForgetMpin(c: CustomerId, header: Option<DeviceId>, code: Code) returns (o: Outcome)
      requires Valid()
      modifies this
      ensures Valid()
      ensures (View(), o) == Step(old(View()), Request.ForgetMpin(c, header, code))
    {
      hide Paired, SlotMap;
      StepKeepsPairing(View(), Request.ForgetMpin(c, header, code));
      var why := CheckDeviceId(c, header);
      if why.Some? {
        return Refused(why.value);
      }
      if !accounts[c].mpinSet {
        return Refused(MpinNotSet);
      }
      Shown(devices, c, StoreResetCode(code));
      devices := UpdateAll(devices, OfCustomer(c), StoreResetCode(code));
      o := Issued(Reset, code);
    }

    method VerifyForgetMpinOtp(c: CustomerId, header: Option<DeviceId>, code: Code) returns (o: Outcome)
      requires Valid()
      modifies this
      ensures Valid()
      ensures (View(), o) == Step(old(View()), Request.VerifyForgetMpinOtp(c, header, code))
    {
      hide Paired, SlotMap;
      StepKeepsPairing(View(), Request.VerifyForgetMpinOtp(c, header, code));
      var why := CheckDeviceId(c, header);
      if why.Some? {
        return Refused(why.value);
      }
      if !accounts[c].mpinSet {
        return Refused(MpinNotSet);
      }
      var customer := FindDevice(c);
      var slot := customer.value.slot;
      if slot.kind != Reset {
        return Refused(WrongOtpType);
      }
      if slot.used {
        return Refused(OtpAlreadyUsed);
      }
      if slot.otp != code {
        return WrongCode(Reset);
      }
      Shown(devices, c, ConsumeResetCode());
      devices := UpdateLive(devices, OfCustomer(c), ConsumeResetCode());
      o := Accepted(Reset, code);
    }

    method SetMpin(c: CustomerId, header: Option<DeviceId>) returns (o: Outcome)
      requires Valid()
      modifies this`accounts
      ensures Valid()
      ensures (View(), o) == Step(old(View()), Request.SetMpin(c, header))
    {
      hide Paired, SlotMap;
      StepKeepsPairing(View(), Request.SetMpin(c, header));
      var why := CheckDeviceId(c, header);
      if why.Some? {
        return Refused(why.value);
      }
      accounts := accounts[c := accounts[c].(mpinSet := true)];
      o := Done;
    }

    method ResetMpin(c: CustomerId) returns (o: Outcome)
      requires Valid()
      modifies this`accounts
      ensures Valid()
      ensures (View(), o) == Step(old(View()), Request.ResetMpin(c))
    {
      hide Paired, SlotMap;
      StepKeepsPairing(View(), Request.ResetMpin(c));
      if c !in accounts || accounts[c].obsolete {
        return Refused(CustomerNotFound);
      }
      accounts := accounts[c := accounts[c].(mpinSet := false)];
      o := Done;
    }

    method ResetDevice(c: CustomerId) returns (o: Outcome)
      requires Valid()
      modifies this`devices
      ensures Valid()
      ensures (View(), o) == Step(old(View()), Request.ResetDevice(c))
    {
      hide Paired, SlotMap;
      StepKeepsPairing(View(), Request.ResetDevice(c));
      if c !in accounts || accounts[c].obsolete {
        return Refused(CustomerNotFound);
      }
      LiveRetire(devices, OfCustomer(c));
      SlotsAfterWithout(Live(devices), c);
      WithoutKeepsOneRowEach(Live(devices), c);
      devices := RetireLive(devices, OfCustomer(c));
      o := Done;
    }

    method Delete(c: CustomerId) returns (o: Outcome)
      requires Valid()
      modifies this
      ensures Valid()
      ensures (View(), o) == Step(old(View()), Request.Delete(c))
    {
      hide Paired, SlotMap;
      StepKeepsPairing(View(), Request.Delete(c));
      if c !in accounts || accounts[c].obsolete {
        return Refused(CustomerNotFound);
      }
      LiveRetire(devices, OfCustomer(c));
      SlotsAfterWithout(Live(devices), c);
      WithoutKeepsOneRowEach(Live(devices), c);
      devices := Retire(devices, OfCustomer(c));
      accounts := accounts[c := accounts[c].(obsolete := true)];
      o := Done;
    }

    method BlockUnblock(c: CustomerId, unblock: bool) returns (o: Outcome)
      requires Valid()
      modifies this
      ensures Valid()
      ensures (View(), o) == Step(old(View()), if unblock then Unblock(c) else Block(c))
    {
      hide Paired, SlotMap;
      StepKeepsPairing(View(), if unblock then Unblock(c) else Block(c));
      if c !in accounts || accounts[c].obsolete {
        return Refused(CustomerNotFound);
      }
      accounts := accounts[c := accounts[c].(active := unblock)];
      if unblock {
        Shown(devices, c, SetAttempts(0));
        devices := UpdateLive(devices, OfCustomer(c), SetAttempts(0));
      }
      o := Done;
    }
  }
}
