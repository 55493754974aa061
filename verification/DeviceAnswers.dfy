/** What each answer of the login endpoints means, in terms of the requests and answers before it alone. */
module DeviceAnswers {
  import opened Tables
  import opened DeviceLogin

  // Readings of the history, beside those of DeviceLogin.

  predicate ExistsBy(accounts: map<CustomerId, Account>, ev: seq<Event>, c: CustomerId) {
    if ev == [] then c in accounts && !accounts[c].obsolete
    else ExistsBy(accounts, ev[..|ev| - 1], c) && ev[|ev| - 1] != Event(Delete(c), Done)
  }

  /** Not blocked: the last switch by the back office decides. */
  predicate ActiveBy(accounts: map<CustomerId, Account>, ev: seq<Event>, c: CustomerId) {
    if ev == [] then c in accounts && accounts[c].active
    else if ev[|ev| - 1] == Event(Block(c), Done) then false
    else if ev[|ev| - 1] == Event(Unblock(c), Done) then true
    else ActiveBy(accounts, ev[..|ev| - 1], c)
  }

  predicate MpinSetBy(accounts: map<CustomerId, Account>, ev: seq<Event>, c: CustomerId) {
    if ev == [] then c in accounts && accounts[c].mpinSet
    else
      var last := ev[|ev| - 1];
      if last == Event(ResetMpin(c), Done) then false
      else if last.By(c) && last.req.SetMpin? && last.out == Done then true
      else MpinSetBy(accounts, ev[..|ev| - 1], c)
  }

  /** The device a customer was last given a login code on, until it is taken away. */
  function DeviceBy(ev: seq<Event>, c: CustomerId): Option<DeviceId> {
    if ev == [] then None
    else
      var last := ev[|ev| - 1];
      if last.By(c) && last.req.GetOtp? && last.out.Issued? then Some(last.req.device)
      else if last == Event(ResetDevice(c), Done) || last == Event(Delete(c), Done) then None
      else DeviceBy(ev[..|ev| - 1], c)
  }

  /** The kind of the code last issued to c. */
  function KindBy(ev: seq<Event>, c: CustomerId): Option<OtpKind> {
    if ev == [] then None
    else if ev[|ev| - 1].By(c) && ev[|ev| - 1].out.Issued? then Some(ev[|ev| - 1].out.kind)
    else KindBy(ev[..|ev| - 1], c)
  }

  /** The state shows these readings. */
  ghost predicate Shows(accounts: map<CustomerId, Account>, ev: seq<Event>, c: CustomerId, s: State) {
    && (Known(s, c) <==> ExistsBy(accounts, ev, c))
    && (c in s.accounts <==> c in accounts)
    && (c in s.accounts ==> s.accounts[c].active == ActiveBy(accounts, ev, c))
    && (c in s.accounts ==> s.accounts[c].mpinSet == MpinSetBy(accounts, ev, c))
    && DeviceBy(ev, c) == (if c in s.slots then Some(s.slots[c].device) else None)
    && (c in s.slots ==> KindBy(ev, c) == Some(s.slots[c].kind))
  }

  lemma StandingAfter(s: State, r: Request)
    ensures var (t, o) := Step(s, r);
      && (Known(t, r.c) <==> Known(s, r.c) && !(r.Delete? && o == Done))
      && (r.c in t.accounts <==> r.c in s.accounts)
      && (r.c in t.accounts ==>
           && t.accounts[r.c].active ==
                (if r.Block? && o == Done then false
                 else if r.Unblock? && o == Done then true
                 else s.accounts[r.c].active)
           && t.accounts[r.c].mpinSet ==
                (if r.ResetMpin? && o == Done then false
                 else if r.SetMpin? && o == Done then true
                 else s.accounts[r.c].mpinSet))
  {
    match r
    case GetOtp(_, _, _, _) =>
    case ValidateOtp(_, _, _, _) =>
    case PasswordLogin(_, _, _) =>
    case ForgetMpin(_, _, _) =>
    case VerifyForgetMpinOtp(_, _, _) =>
    case SetMpin(_, _) =>
    case _ =>
  }

  lemma DeviceAfter(s: State, r: Request)
    ensures var (t, o) := Step(s, r);
      if r.GetOtp? && o.Issued? then r.c in t.slots && t.slots[r.c].device == r.device
      else if (r.ResetDevice? || r.Delete?) && o == Done then r.c !in t.slots
      else (r.c in t.slots <==> r.c in s.slots) && (r.c in s.slots ==> t.slots[r.c].device == s.slots[r.c].device)
    ensures var (t, o) := Step(s, r);
      r.c in t.slots ==>
        if o.Issued? then t.slots[r.c].kind == o.kind else r.c in s.slots && t.slots[r.c].kind == s.slots[r.c].kind
  {
    match r
    case GetOtp(_, _, _, _) =>
    case ValidateOtp(_, _, _, _) =>
    case PasswordLogin(_, _, _) =>
    case ForgetMpin(_, _, _) =>
    case VerifyForgetMpinOtp(_, _, _) =>
    case SetMpin(_, _) =>
    case _ =>
  }

  /** What one more event does to the readings. */
  lemma ReadingsAfter(accounts: map<CustomerId, Account>, ev: seq<Event>, e: Event, c: CustomerId)
    ensures var all := ev + [e];
      && ExistsBy(accounts, all, c) == (ExistsBy(accounts, ev, c) && e != Event(Delete(c), Done))
      && ActiveBy(accounts, all, c) ==
           (if e == Event(Block(c), Done) then false
            else if e == Event(Unblock(c), Done) then true
            else ActiveBy(accounts, ev, c))
      && MpinSetBy(accounts, all, c) ==
           (if e == Event(ResetMpin(c), Done) then false
            else if e.By(c) && e.req.SetMpin? && e.out == Done then true
            else MpinSetBy(accounts, ev, c))
      && DeviceBy(all, c) ==
           (if e.By(c) && e.req.GetOtp? && e.out.Issued? then Some(e.req.device)
            else if e == Event(ResetDevice(c), Done) || e == Event(Delete(c), Done) then None
            else DeviceBy(ev, c))
      && KindBy(all, c) == (if e.By(c) && e.out.Issued? then Some(e.out.kind) else KindBy(ev, c))
  {
    assert (ev + [e])[..|ev|] == ev;
  }

  lemma ShowsAfter(accounts: map<CustomerId, Account>, ev: seq<Event>, s: State, r: Request)
    requires Shows(accounts, ev, r.c, s)
    ensures var (t, o) := Step(s, r); Shows(accounts, ev + [Event(r, o)], r.c, t)
  {
    StandingAfter(s, r);
    DeviceAfter(s, r);
    ReadingsAfter(accounts, ev, Event(r, Step(s, r).1), r.c);
    hide Step, ExistsBy, ActiveBy, MpinSetBy, DeviceBy, KindBy;
  }

  lemma ShowsAfterOther(accounts: map<CustomerId, Account>, ev: seq<Event>, s: State, r: Request, c: CustomerId)
    requires Shows(accounts, ev, c, s) && c != r.c
    ensures var (t, o) := Step(s, r); Shows(accounts, ev + [Event(r, o)], c, t)
  {
    StepIsLocal(s, r, c);
    ReadingsAfter(accounts, ev, Event(r, Step(s, r).1), c);
    hide Step, ExistsBy, ActiveBy, MpinSetBy, DeviceBy, KindBy;
  }

  /** In every run a customer's existence, block, MPIN, device and kind of code are what the history says. */
  lemma {:induction false} StandingIsHistory(accounts: map<CustomerId, Account>, run: Run, c: CustomerId)
    ensures Shows(accounts, Events(accounts, run), c, Exec(accounts, run))
  {
    if run != [] {
      var before, r := run[..|run| - 1], run[|run| - 1];
      StandingIsHistory(accounts, before, c);
      hide Step, Shows;
      if r.c == c {
        ShowsAfter(accounts, Events(accounts, before), Exec(accounts, before), r);
      } else {
        ShowsAfterOther(accounts, Events(accounts, before), Exec(accounts, before), r, c);
      }
    }
  }

  /** The state in front of request j, with all readings. */
  lemma InFrontOf(accounts: map<CustomerId, Account>, run: Run, j: nat, c: CustomerId)
    requires j < |run|
    ensures var ev, s := Events(accounts, run), Exec(accounts, run[..j]);
      && ev[j].out == Step(s, run[j]).1
      && Shows(accounts, ev[..j], c, s)
      && (Locked(s, c) <==> LockedBy(accounts, ev[..j], c))
      && (c in s.slots ==>
           && FailuresSince(ev[..j], c) == s.slots[c].attempts <= MAX_ATTEMPTS
           && Outstanding(ev[..j], c) == (if s.slots[c].used then None else Some((s.slots[c].kind, s.slots[c].otp))))
  {
    EventAt(accounts, run, j);
    EventsPrefix(accounts, run, j);
    StandingIsHistory(accounts, run[..j], c);
    LockIsHistory(accounts, run[..j], c);
    hide Step;
    if c in Exec(accounts, run[..j]).slots {
      SlotIsHistory(accounts, run[..j], c);
    }
  }

  // ---------------------------------------------------------------------------------------
  // The answers.
  // ---------------------------------------------------------------------------------------

  /** The customer exists, is not blocked, and the request comes from its device. */
  predicate OnOwnDevice(accounts: map<CustomerId, Account>, ev: seq<Event>, c: CustomerId, header: Option<DeviceId>) {
    ExistsBy(accounts, ev, c) && ActiveBy(accounts, ev, c) && header.Some? && DeviceBy(ev, c) == header
  }

  /**
   * A password is compared exactly when it comes from the device of an unblocked customer that has made
   * fewer than three failures since its last refill; then the answer says whether it was right.
   */
  lemma PasswordAnswer(accounts: map<CustomerId, Account>, run: Run, j: nat)
    requires j < |run| && run[j].PasswordLogin?
    ensures var ev, r := Events(accounts, run), run[j];
      var compared := OnOwnDevice(accounts, ev[..j], r.c, r.header) && FailuresSince(ev[..j], r.c) < 3;
      && (ev[j].out == PasswordAccepted <==> compared && r.passwordMatches)
      && (ev[j].out == WrongPassword <==> compared && !r.passwordMatches)
      && (ev[j].out.Refused? <==> !compared)
  {
    hide ExistsBy, ActiveBy, MpinSetBy, DeviceBy, KindBy, LockedBy, Outstanding, FailuresSince, Exec, Events;
    InFrontOf(accounts, run, j, run[j].c);
  }

  /**
   * A login code is compared under the same condition, when the customer is not locked and a login code
   * is outstanding. It is accepted exactly when it is that code and has not expired.
   */
  lemma LoginCodeAnswer(accounts: map<CustomerId, Account>, run: Run, j: nat)
    requires j < |run| && run[j].ValidateOtp?
    ensures var ev, r := Events(accounts, run), run[j];
      var held := Outstanding(ev[..j], r.c);
      var compared := OnOwnDevice(accounts, ev[..j], r.c, r.header) && FailuresSince(ev[..j], r.c) < 3
        && !LockedBy(accounts, ev[..j], r.c) && held.Some? && held.value.0 == Login;
      && (ev[j].out == Accepted(Login, r.code) <==> compared && held.value.1 == r.code && !r.expired)
      && (ev[j].out == WrongCode(Login) <==> compared && held.value.1 != r.code)
      && (ev[j].out == Refused(OtpExpired) <==> compared && held.value.1 == r.code && r.expired)
      && (ev[j].out.Refused? || ev[j].out == Accepted(Login, r.code) || ev[j].out == WrongCode(Login))
  {
    hide ExistsBy, ActiveBy, MpinSetBy, DeviceBy, KindBy, LockedBy, Outstanding, FailuresSince, Exec, Events;
    InFrontOf(accounts, run, j, run[j].c);
  }

  /** A reset code is compared when the customer has an MPIN and a reset code is outstanding; failures do not count. */
  lemma ResetCodeAnswer(accounts: map<CustomerId, Account>, run: Run, j: nat)
    requires j < |run| && run[j].VerifyForgetMpinOtp?
    ensures var ev, r := Events(accounts, run), run[j];
      var held := Outstanding(ev[..j], r.c);
      var compared := OnOwnDevice(accounts, ev[..j], r.c, r.header) && !LockedBy(accounts, ev[..j], r.c)
        && MpinSetBy(accounts, ev[..j], r.c) && held.Some? && held.value.0 == Reset;
      && (ev[j].out == Accepted(Reset, r.code) <==> compared && held.value.1 == r.code)
      && (ev[j].out == WrongCode(Reset) <==> compared && held.value.1 != r.code)
      && (ev[j].out.Refused? <==> !compared)
  {
    hide ExistsBy, ActiveBy, MpinSetBy, DeviceBy, KindBy, LockedBy, Outstanding, FailuresSince, Exec, Events;
    InFrontOf(accounts, run, j, run[j].c);
  }

  /** Somebody other than c was last given a login code on the device. */
  ghost predicate HeldByOther(ev: seq<Event>, c: CustomerId, device: DeviceId) {
    exists o: CustomerId :: o != c && DeviceBy(ev, o) == Some(device)
  }

  lemma HoldersAreHistory(accounts: map<CustomerId, Account>, run: Run, c: CustomerId, device: DeviceId)
    ensures DeviceTaken(Exec(accounts, run), c, device) <==> HeldByOther(Events(accounts, run), c, device)
  {
    var s, ev := Exec(accounts, run), Events(accounts, run);
    forall o: CustomerId
      ensures DeviceBy(ev, o) == if o in s.slots then Some(s.slots[o].device) else None
    {
      StandingIsHistory(accounts, run, o);
    }
    hide DeviceBy;
    if DeviceTaken(s, c, device) {
      var o :| o in s.slots && o != c && s.slots[o].device == device;
      assert DeviceBy(ev, o) == Some(device);
    }
    if HeldByOther(ev, c, device) {
      var o: CustomerId :| o != c && DeviceBy(ev, o) == Some(device);
      assert o in s.slots;
    }
  }

  /**
   * getOtp issues the code exactly to an unblocked customer whose lock does not hold, on its own device
   * or, if it has none, on a device nobody else has.
   */
  lemma GetOtpAnswer(accounts: map<CustomerId, Account>, run: Run, j: nat)
    requires j < |run| && run[j].GetOtp?
    ensures var ev, r := Events(accounts, run), run[j];
      var own := DeviceBy(ev[..j], r.c);
      && (ev[j].out == Issued(Login, r.code) <==>
           && ExistsBy(accounts, ev[..j], r.c) && ActiveBy(accounts, ev[..j], r.c)
           && !(LockedBy(accounts, ev[..j], r.c) && r.lockHolds)
           && (if own.Some? then own.value == r.device else !HeldByOther(ev[..j], r.c, r.device)))
      && (ev[j].out.Refused? || ev[j].out == Issued(Login, r.code))
  {
    hide ExistsBy, ActiveBy, MpinSetBy, DeviceBy, KindBy, LockedBy, Outstanding, FailuresSince, Exec, Events;
    InFrontOf(accounts, run, j, run[j].c);
    EventsPrefix(accounts, run, j);
    HoldersAreHistory(accounts, run[..j], run[j].c, run[j].device);
    hide DeviceTaken, HeldByOther;
  }

  /** Authenticated endpoints let an unlocked customer through on its own device; one of them needs an MPIN, too. */
  lemma AuthenticatedAnswer(accounts: map<CustomerId, Account>, run: Run, j: nat)
    requires j < |run| && (run[j].ForgetMpin? || run[j].SetMpin?)
    ensures var ev, r := Events(accounts, run), run[j];
      var through := OnOwnDevice(accounts, ev[..j], r.c, r.header) && !LockedBy(accounts, ev[..j], r.c);
      if r.ForgetMpin? then
        && (ev[j].out == Issued(Reset, r.code) <==> through && MpinSetBy(accounts, ev[..j], r.c))
        && (ev[j].out.Refused? || ev[j].out == Issued(Reset, r.code))
      else (ev[j].out == Done <==> through) && (ev[j].out.Refused? || ev[j].out == Done)
  {
    hide ExistsBy, ActiveBy, MpinSetBy, DeviceBy, KindBy, LockedBy, Outstanding, FailuresSince, Exec, Events;
    InFrontOf(accounts, run, j, run[j].c);
  }

  /** The back office is refused exactly for a customer that does not exist. */
  lemma BackOfficeAnswer(accounts: map<CustomerId, Account>, run: Run, j: nat)
    requires j < |run| && !ByCustomer(run[j])
    ensures var ev, r := Events(accounts, run), run[j];
      ev[j].out == if ExistsBy(accounts, ev[..j], r.c) then Done else Refused(CustomerNotFound)
  {
    hide ExistsBy, ActiveBy, MpinSetBy, DeviceBy, KindBy, LockedBy, Outstanding, FailuresSince, Exec, Events;
    InFrontOf(accounts, run, j, run[j].c);
  }

  function HeaderOf(r: Request): Option<DeviceId> {
    match r
    case GetOtp(_, device, _, _) => Some(device)
    case ValidateOtp(_, header, _, _) => header
    case PasswordLogin(_, header, _) => header
    case ForgetMpin(_, header, _) => header
    case VerifyForgetMpinOtp(_, header, _) => header
    case SetMpin(_, header) => header
    case _ => None
  }

  /** What must be so for a refusal to say what it says. */
  ghost predicate Cause(accounts: map<CustomerId, Account>, ev: seq<Event>, r: Request, why: Refusal) {
    match why
    case CustomerNotFound => !ExistsBy(accounts, ev, r.c)
    case CustomerBlocked => !ActiveBy(accounts, ev, r.c) || FailuresSince(ev, r.c) == 3
    case TemporarilyBlocked => LockedBy(accounts, ev, r.c)
    case DeviceIdMissing => HeaderOf(r) == None
    case DeviceDetailNotFound => DeviceBy(ev, r.c) == None
    case DeviceIdMismatch => DeviceBy(ev, r.c).Some? && HeaderOf(r).Some? && DeviceBy(ev, r.c) != HeaderOf(r)
    case DeviceExists => r.GetOtp? && DeviceBy(ev, r.c) == None && HeldByOther(ev, r.c, r.device)
    case WrongOtpType => KindBy(ev, r.c) == Some(if r.ValidateOtp? then Reset else Login)
    case OtpAlreadyUsed => Outstanding(ev, r.c) == None
    case OtpExpired => r.ValidateOtp? && r.expired && Outstanding(ev, r.c) == Some((Login, r.code))
    case MpinNotSet => !MpinSetBy(accounts, ev, r.c)
  }

  /** The same, of the state in front of the request. */
  ghost predicate CauseIn(s: State, r: Request, why: Refusal) {
    match why
    case CustomerNotFound => !Known(s, r.c)
    case CustomerBlocked =>
      r.c in s.accounts && (!s.accounts[r.c].active || (r.c in s.slots && s.slots[r.c].attempts >= MAX_ATTEMPTS))
    case TemporarilyBlocked => Locked(s, r.c)
    case DeviceIdMissing => HeaderOf(r) == None
    case DeviceDetailNotFound => r.c !in s.slots
    case DeviceIdMismatch => r.c in s.slots && HeaderOf(r).Some? && HeaderOf(r).value != s.slots[r.c].device
    case DeviceExists => r.GetOtp? && r.c !in s.slots && DeviceTaken(s, r.c, r.device)
    case WrongOtpType => r.c in s.slots && s.slots[r.c].kind == if r.ValidateOtp? then Reset else Login
    case OtpAlreadyUsed => r.c in s.slots && s.slots[r.c].used
    case OtpExpired =>
      && r.ValidateOtp? && r.expired && r.c in s.slots
      && !s.slots[r.c].used && s.slots[r.c].kind == Login && s.slots[r.c].otp == r.code
    case MpinNotSet => r.c in s.accounts && !s.accounts[r.c].mpinSet
  }

  lemma RefusalIn(s: State, r: Request)
    requires Step(s, r).1.Refused?
    ensures CauseIn(s, r, Step(s, r).1.why)
  {
    match r
    case GetOtp(_, _, _, _) =>
    case ValidateOtp(_, _, _, _) =>
    case PasswordLogin(_, _, _) =>
    case ForgetMpin(_, _, _) =>
    case VerifyForgetMpinOtp(_, _, _) =>
    case SetMpin(_, _) =>
    case _ =>
  }

  /** Every refusal names a cause that holds. */
  lemma RefusalsAreTrue(accounts: map<CustomerId, Account>, run: Run, j: nat)
    requires j < |run| && Events(accounts, run)[j].out.Refused?
    ensures Cause(accounts, Events(accounts, run)[..j], run[j], Events(accounts, run)[j].out.why)
  {
    hide ExistsBy, ActiveBy, MpinSetBy, DeviceBy, KindBy, LockedBy, Outstanding, FailuresSince, Exec, Events;
    var s, r := Exec(accounts, run[..j]), run[j];
    InFrontOf(accounts, run, j, r.c);
    RefusalIn(s, r);
    hide Step, DeviceTaken, HeldByOther;
    if r.GetOtp? {
      EventsPrefix(accounts, run, j);
      HoldersAreHistory(accounts, run[..j], r.c, r.device);
    }
  }
}
