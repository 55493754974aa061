/**
 * One-time codes, device binding and the shared attempt counter.
 *
 * The specification keeps one slot per customer; the tables keep rows that are only ever
 * marked obsolete. Class LoginService (LoginTables.dfy) refines the machine defined here.
 */
module DeviceLogin {
  import opened Tables

  type CustomerId = nat
  type DeviceId = string
  type Code = string

  /** `otp_type`: LOGIN codes come from getOtp, RESET codes from ForgetMpinService. */
  datatype OtpKind = Login | Reset

  datatype Account = Account(active: bool, otpLocked: bool, mpinSet: bool, obsolete: bool)

  /** The visible CustomerDevice row of a customer. */
  datatype Slot = Slot(device: DeviceId, otp: Code, kind: OtpKind, used: bool, attempts: nat)

  datatype State = State(accounts: map<CustomerId, Account>, slots: map<CustomerId, Slot>)

  /** `header` is the device id the request carries, if it carries one. */
  datatype Request =
    | GetOtp(c: CustomerId, device: DeviceId, code: Code, lockHolds: bool)
    | ValidateOtp(c: CustomerId, header: Option<DeviceId>, code: Code, expired: bool)
    | PasswordLogin(c: CustomerId, header: Option<DeviceId>, passwordMatches: bool)
    | ForgetMpin(c: CustomerId, header: Option<DeviceId>, code: Code)
    | VerifyForgetMpinOtp(c: CustomerId, header: Option<DeviceId>, code: Code)
    | SetMpin(c: CustomerId, header: Option<DeviceId>)
    | ResetMpin(c: CustomerId)
    | Block(c: CustomerId)
    | Unblock(c: CustomerId)
    | ResetDevice(c: CustomerId)
    | Delete(c: CustomerId)

  datatype Refusal =
    | CustomerNotFound | CustomerBlocked | TemporarilyBlocked | DeviceIdMissing | DeviceDetailNotFound
    | DeviceIdMismatch | DeviceExists | WrongOtpType | OtpAlreadyUsed | OtpExpired | MpinNotSet

  datatype Outcome =
    | Refused(why: Refusal)
    | Issued(kind: OtpKind, code: Code)
    | Accepted(kind: OtpKind, code: Code)
    | WrongCode(kind: OtpKind)
    | WrongPassword
    | PasswordAccepted
    | Done

  const MAX_ATTEMPTS: nat := 3

  predicate Known(s: State, c: CustomerId) {
    c in s.accounts && !s.accounts[c].obsolete
  }

  predicate Locked(s: State, c: CustomerId) {
    c in s.accounts && s.accounts[c].otpLocked
  }

  function WithLock(s: State, c: CustomerId, locked: bool): State
    requires c in s.accounts
  {
    s.(accounts := s.accounts[c := s.accounts[c].(otpLocked := locked)])
  }

  function WithSlot(s: State, c: CustomerId, slot: Slot): State {
    s.(slots := s.slots[c := slot])
  }

  ghost predicate DeviceTaken(s: State, c: CustomerId, device: DeviceId) {
    exists o :: o in s.slots && o != c && s.slots[o].device == device
  }

  ghost function GetOtpStep(s: State, c: CustomerId, device: DeviceId, code: Code, lockHolds: bool): (State, Outcome) {
    if !Known(s, c) then (s, Refused(CustomerNotFound))
    else if !s.accounts[c].active then (s, Refused(CustomerBlocked))
    else if c in s.slots && s.slots[c].device != device then (s, Refused(DeviceIdMismatch))
    else if s.accounts[c].otpLocked && lockHolds then (s, Refused(TemporarilyBlocked))
    else
      var unlocked := WithLock(s, c, false);
      // A customer without a row is unlocked even when the device turns out to be taken.
      if c !in s.slots && DeviceTaken(s, c, device) then (unlocked, Refused(DeviceExists))
      else (WithSlot(unlocked, c, Slot(device, code, Login, false, 0)), Issued(Login, code))
  }

  function ValidateOtpStep(s: State, c: CustomerId, header: Option<DeviceId>, code: Code, expired: bool)
    : (State, Outcome)
  {
    if !Known(s, c) then (s, Refused(CustomerNotFound))
    else if !s.accounts[c].active then (s, Refused(CustomerBlocked))
    else if s.accounts[c].otpLocked then (s, Refused(TemporarilyBlocked))
    else if c !in s.slots then (s, Refused(DeviceDetailNotFound))
    else if header.None? then (s, Refused(DeviceIdMissing))
    else
      var slot := s.slots[c];
      if slot.device != header.value then (s, Refused(DeviceIdMismatch))
      else if slot.kind != Login then (s, Refused(WrongOtpType))
      else if slot.used then (s, Refused(OtpAlreadyUsed))
      else if slot.attempts >= MAX_ATTEMPTS then (s, Refused(CustomerBlocked))
      else if slot.otp != code then
        var counted := WithSlot(s, c, slot.(attempts := slot.attempts + 1));
        (if slot.attempts + 1 >= MAX_ATTEMPTS then WithLock(counted, c, true) else counted, WrongCode(Login))
      else if expired then (s, Refused(OtpExpired))
      else (WithSlot(s, c, slot.(used := true, attempts := 0)), Accepted(Login, code))
  }

  function PasswordLoginStep(s: State, c: CustomerId, header: Option<DeviceId>, matches_: bool): (State, Outcome) {
    if header.None? then (s, Refused(DeviceIdMissing))
    else if !Known(s, c) then (s, Refused(CustomerNotFound))
    else if c !in s.slots then (s, Refused(DeviceDetailNotFound))
    else if !s.accounts[c].active then (s, Refused(CustomerBlocked))
    else
      var slot := s.slots[c];
      if slot.device != header.value then (s, Refused(DeviceIdMismatch))
      else if slot.attempts >= MAX_ATTEMPTS then (s, Refused(CustomerBlocked))
      else if !matches_ then (WithSlot(s, c, slot.(attempts := slot.attempts + 1)), WrongPassword)
      else (WithSlot(s, c, slot.(attempts := 0)), PasswordAccepted)
  }

  /** checkDeviceId, which stands in front of every authenticated endpoint. */
  function Guard(s: State, c: CustomerId, header: Option<DeviceId>): Option<Refusal> {
    if header.None? then Some(DeviceIdMissing)
    else if !Known(s, c) then Some(CustomerNotFound)
    else if !s.accounts[c].active then Some(CustomerBlocked)
    else if s.accounts[c].otpLocked then Some(TemporarilyBlocked)
    else if c !in s.slots then Some(DeviceDetailNotFound)
    else if s.slots[c].device != header.value then Some(DeviceIdMismatch)
    else None
  }

  function ForgetMpinStep(s: State, c: CustomerId, header: Option<DeviceId>, code: Code): (State, Outcome) {
    match Guard(s, c, header)
    case Some(why) => (s, Refused(why))
    case None =>
      if !s.accounts[c].mpinSet then (s, Refused(MpinNotSet))
      else (WithSlot(s, c, Slot(s.slots[c].device, code, Reset, false, 0)), Issued(Reset, code))
  }

  function VerifyForgetMpinOtpStep(s: State, c: CustomerId, header: Option<DeviceId>, code: Code): (State, Outcome) {
    match Guard(s, c, header)
    case Some(why) => (s, Refused(why))
    case None =>
      var slot := s.slots[c];
      if !s.accounts[c].mpinSet then (s, Refused(MpinNotSet))
      else if slot.kind != Reset then (s, Refused(WrongOtpType))
      else if slot.used then (s, Refused(OtpAlreadyUsed))
      else if slot.otp != code then (s, WrongCode(Reset))
      else (WithSlot(s, c, slot.(used := true)), Accepted(Reset, code))
  }

  function SetMpinStep(s: State, c: CustomerId, header: Option<DeviceId>): (State, Outcome) {
    match Guard(s, c, header)
    case Some(why) => (s, Refused(why))
    case None => (s.(accounts := s.accounts[c := s.accounts[c].(mpinSet := true)]), Done)
  }

  /** The back-office operations, whether done directly or by approving a request. */
  function AdminStep(s: State, r: Request): (State, Outcome)
    requires r.ResetMpin? || r.Block? || r.Unblock? || r.ResetDevice? || r.Delete?
  {
    if !Known(s, r.c) then (s, Refused(CustomerNotFound))
    else
      var a := s.accounts[r.c];
      match r
      case ResetMpin(c) => (s.(accounts := s.accounts[c := a.(mpinSet := false)]), Done)
      case Block(c) => (s.(accounts := s.accounts[c := a.(active := false)]), Done)
      case Unblock(c) =>
        var s1 := s.(accounts := s.accounts[c := a.(active := true)]);
        (if c in s.slots then WithSlot(s1, c, s.slots[c].(attempts := 0)) else s1, Done)
      case ResetDevice(c) => (s.(slots := s.slots - {c}), Done)
      case Delete(c) => (State(s.accounts[c := a.(obsolete := true)], s.slots - {c}), Done)
  }

  ghost function Step(s: State, r: Request): (State, Outcome) {
    match r
    case GetOtp(c, device, code, lockHolds) => GetOtpStep(s, c, device, code, lockHolds)
    case ValidateOtp(c, header, code, expired) => ValidateOtpStep(s, c, header, code, expired)
    case PasswordLogin(c, header, matches_) => PasswordLoginStep(s, c, header, matches_)
    case ForgetMpin(c, header, code) => ForgetMpinStep(s, c, header, code)
    case VerifyForgetMpinOtp(c, header, code) => VerifyForgetMpinOtpStep(s, c, header, code)
    case SetMpin(c, header) => SetMpinStep(s, c, header)
    case _ => AdminStep(s, r)
  }

  predicate ByCustomer(r: Request) {
    r.GetOtp? || r.ValidateOtp? || r.PasswordLogin? || r.ForgetMpin? || r.VerifyForgetMpinOtp? || r.SetMpin?
  }

  /** A blocked or deleted customer is refused whatever it asks, and nothing is written. */
  lemma BlockedIsRefused(s: State, admin: Request, r: Request)
    requires admin.Block? || admin.Delete?
    requires Known(s, admin.c) && ByCustomer(r) && r.c == admin.c
    ensures var t := Step(s, admin).0;
      Step(t, r).1.Refused? && Step(t, r).0 == t
  {
    match r
    case GetOtp(_, _, _, _) =>
    case ValidateOtp(_, _, _, _) =>
    case _ =>
  }

  // ---------------------------------------------------------------------------------------
  // Runs. A run starts with no visible device row; the accounts are arbitrary.
  // ---------------------------------------------------------------------------------------

  type Run = seq<Request>

  datatype Event = Event(req: Request, out: Outcome)
  {
    predicate By(c: CustomerId) { req.c == c }

    /** Issuing a code, logging in and unblocking give the whole allowance back. */
    predicate Refills() {
      out.Issued? || (out.Accepted? && out.kind == Login) || out.PasswordAccepted? || (req.Unblock? && out == Done)
    }

    /** Failures the attempt counter sees: wrong reset codes are not among them. */
    predicate Counted() {
      out == WrongCode(Login) || out == WrongPassword
    }

    /** Only getOtp lifts the lock, even when it then finds the device taken. */
    predicate Unlocks() {
      req.GetOtp? && (out.Issued? || out == Refused(DeviceExists))
    }
  }

  ghost function Exec(accounts: map<CustomerId, Account>, run: Run): State {
    if run == [] then State(accounts, map[])
    else Step(Exec(accounts, run[..|run| - 1]), run[|run| - 1]).0
  }

  /** The requests of a run with the answers they got. */
  ghost function Events(accounts: map<CustomerId, Account>, run: Run): (ev: seq<Event>)
    ensures |ev| == |run|
    ensures forall i :: 0 <= i < |run| ==> ev[i].req == run[i]
  {
    if run == [] then []
    else
      var before, last := run[..|run| - 1], run[|run| - 1];
      Events(accounts, before) + [Event(last, Step(Exec(accounts, before), last).1)]
  }

  // Readings of the history alone; none looks at a table.

  /** The code last issued to c, unless a code has been accepted from c since. */
  function Outstanding(ev: seq<Event>, c: CustomerId): Option<(OtpKind, Code)> {
    if ev == [] then None
    else
      var last, before := ev[|ev| - 1], ev[..|ev| - 1];
      if last.By(c) && last.out.Issued? then Some((last.out.kind, last.out.code))
      else if last.By(c) && last.out.Accepted? then None
      else Outstanding(before, c)
  }

  /** Failed login codes and passwords of c since its allowance was last given back. */
  function FailuresSince(ev: seq<Event>, c: CustomerId): nat {
    if ev == [] then 0
    else
      var last, before := ev[|ev| - 1], ev[..|ev| - 1];
      if last.By(c) && last.Refills() then 0
      else FailuresSince(before, c) + (if last.By(c) && last.Counted() then 1 else 0)
  }

  lemma EventsPrefix(accounts: map<CustomerId, Account>, run: Run, n: nat)
    requires n <= |run|
    ensures Events(accounts, run)[..n] == Events(accounts, run[..n])
    decreases |run|
  {
    if n < |run| {
      var before := run[..|run| - 1];
      EventsPrefix(accounts, before, n);
      assert before[..n] == run[..n];
    } else {
      assert run[..n] == run;
    }
  }

  // ---------------------------------------------------------------------------------------
  // What holds in every reachable state.
  // ---------------------------------------------------------------------------------------

  /** Visible rows pair customers with devices one to one, and only customers that exist. */
  ghost predicate Paired(s: State) {
    && (forall c :: c in s.slots ==> Known(s, c))
    && (forall c, o :: c in s.slots && o in s.slots && c != o ==> s.slots[c].device != s.slots[o].device)
  }

  /** A request of one customer leaves every other customer's row and account alone. */
  lemma StepIsLocal(s: State, r: Request, o: CustomerId)
    requires o != r.c
    ensures var t := Step(s, r).0;
      && (o in t.slots <==> o in s.slots)
      && (o in s.slots ==> t.slots[o] == s.slots[o])
      && (o in t.accounts <==> o in s.accounts)
      && (o in s.accounts ==> t.accounts[o] == s.accounts[o])
  {
    match r
    case GetOtp(_, _, _, _) =>
    case ValidateOtp(_, _, _, _) =>
    case PasswordLogin(_, _, _) =>
    case ForgetMpin(_, _, _) =>
    case VerifyForgetMpinOtp(_, _, _) =>
    case _ =>
  }

  /** A customer's device changes only when getOtp creates its row, and then nobody else holds it. */
  lemma StepKeepsDevice(s: State, r: Request)
    requires r.c in Step(s, r).0.slots
    requires r.c in s.slots ==> Known(s, r.c)
    ensures Known(Step(s, r).0, r.c)
    ensures if r.c in s.slots then Step(s, r).0.slots[r.c].device == s.slots[r.c].device
            else r.GetOtp? && Step(s, r).0.slots[r.c].device == r.device && !DeviceTaken(s, r.c, r.device)
  {
    match r
    case GetOtp(_, _, _, _) =>
    case ValidateOtp(_, _, _, _) =>
    case PasswordLogin(_, _, _) =>
    case ForgetMpin(_, _, _) =>
    case VerifyForgetMpinOtp(_, _, _) =>
    case _ =>
  }

  lemma StepKeepsPairing(s: State, r: Request)
    requires Paired(s)
    ensures Paired(Step(s, r).0)
  {
    hide Step;
    var t := Step(s, r).0;
    forall o | o != r.c
      ensures (o in t.slots <==> o in s.slots) && (o in s.slots ==> t.slots[o] == s.slots[o])
      ensures Known(t, o) <==> Known(s, o)
    {
      StepIsLocal(s, r, o);
    }
    if r.c in t.slots {
      StepKeepsDevice(s, r);
    }
  }

  lemma {:induction false} PairedAlways(accounts: map<CustomerId, Account>, run: Run)
    ensures Paired(Exec(accounts, run))
  {
    if run != [] {
      PairedAlways(accounts, run[..|run| - 1]);
      StepKeepsPairing(Exec(accounts, run[..|run| - 1]), run[|run| - 1]);
    }
  }

  /** Once a customer has a visible row, nobody else holds that device. */
  lemma DeviceNeverTakenFromHolder(accounts: map<CustomerId, Account>, run: Run, c: CustomerId)
    requires c in Exec(accounts, run).slots
    ensures !DeviceTaken(Exec(accounts, run), c, Exec(accounts, run).slots[c].device)
  {
    PairedAlways(accounts, run);
  }

  /** How the answer to a request shows in the requester's own row. */
  lemma SlotAfter(s: State, r: Request)
    requires r.c in Step(s, r).0.slots
    requires r.c in s.slots ==> s.slots[r.c].attempts <= MAX_ATTEMPTS
    ensures var (t, o) := Step(s, r);
      if o.Issued? then t.slots[r.c] == Slot(t.slots[r.c].device, o.code, o.kind, false, 0)
      else
        && r.c in s.slots
        && (o.Accepted? ==> !s.slots[r.c].used && s.slots[r.c].kind == o.kind && s.slots[r.c].otp == o.code)
        && t.slots[r.c].kind == s.slots[r.c].kind
        && t.slots[r.c].otp == s.slots[r.c].otp
        && t.slots[r.c].used == (s.slots[r.c].used || o.Accepted?)
        && t.slots[r.c].attempts ==
             (if Event(r, o).Refills() then 0 else s.slots[r.c].attempts + if Event(r, o).Counted() then 1 else 0)
        && t.slots[r.c].attempts <= MAX_ATTEMPTS
  {
    match r
    case GetOtp(_, _, _, _) =>
    case ValidateOtp(_, _, _, _) =>
    case PasswordLogin(_, _, _) =>
    case ForgetMpin(_, _, _) =>
    case VerifyForgetMpinOtp(_, _, _) =>
    case _ =>
  }

  /** The visible row agrees with the history: its code is the outstanding one, its counter the failures. */
  lemma {:induction false} SlotIsHistory(accounts: map<CustomerId, Account>, run: Run, c: CustomerId)
    requires c in Exec(accounts, run).slots
    ensures var slot, ev := Exec(accounts, run).slots[c], Events(accounts, run);
      && Outstanding(ev, c) == (if slot.used then None else Some((slot.kind, slot.otp)))
      && FailuresSince(ev, c) == slot.attempts <= MAX_ATTEMPTS
  {
    var before, r := run[..|run| - 1], run[|run| - 1];
    var s := Exec(accounts, before);
    assert Events(accounts, run)[..|run| - 1] == Events(accounts, before);
    if r.c == c {
      if c in s.slots {
        SlotIsHistory(accounts, before, c);
      }
      SlotAfter(s, r);
    } else {
      StepIsLocal(s, r, c);
      SlotIsHistory(accounts, before, c);
    }
  }

  // ---------------------------------------------------------------------------------------
  // Codes over whole runs.
  // ---------------------------------------------------------------------------------------

  lemma AcceptanceMatchesSlot(s: State, r: Request)
    requires Step(s, r).1.Accepted?
    ensures r.c in s.slots && !s.slots[r.c].used
    ensures s.slots[r.c].kind == Step(s, r).1.kind && s.slots[r.c].otp == Step(s, r).1.code
  {
    match r
    case ValidateOtp(_, _, _, _) =>
    case VerifyForgetMpinOtp(_, _, _) =>
    case _ =>
  }

  /** An accepted code is the outstanding one, of the right kind. */
  ghost predicate Honest(ev: seq<Event>) {
    forall i :: 0 <= i < |ev| && ev[i].out.Accepted? ==>
      Outstanding(ev[..i], ev[i].req.c) == Some((ev[i].out.kind, ev[i].out.code))
  }

  lemma {:induction false} RunsAreHonest(accounts: map<CustomerId, Account>, run: Run)
    ensures Honest(Events(accounts, run))
  {
    if run != [] {
      var before, r := run[..|run| - 1], run[|run| - 1];
      var ev := Events(accounts, run);
      RunsAreHonest(accounts, before);
      assert ev[..|run| - 1] == Events(accounts, before);
      forall i | 0 <= i < |ev| && ev[i].out.Accepted?
        ensures Outstanding(ev[..i], ev[i].req.c) == Some((ev[i].out.kind, ev[i].out.code))
      {
        if i == |run| - 1 {
          AcceptanceMatchesSlot(Exec(accounts, before), r);
          SlotIsHistory(accounts, before, r.c);
        } else {
          assert ev[..i] == Events(accounts, before)[..i];
        }
      }
    }
  }

  /** k issued the code to c, and c was neither issued nor granted another one after k and before `to`. */
  ghost predicate LatestIssue(ev: seq<Event>, c: CustomerId, k: nat, to: nat, kind: OtpKind, code: Code)
    requires k < to <= |ev|
  {
    && ev[k].By(c) && ev[k].out == Issued(kind, code)
    && forall m :: k < m < to && ev[m].By(c) ==> !ev[m].out.Issued? && !ev[m].out.Accepted?
  }

  lemma {:induction false} OutstandingHasIssue(ev: seq<Event>, n: nat, c: CustomerId) returns (k: nat)
    requires n <= |ev|
    requires Outstanding(ev[..n], c).Some?
    ensures k < n
    ensures LatestIssue(ev, c, k, n, Outstanding(ev[..n], c).value.0, Outstanding(ev[..n], c).value.1)
  {
    assert ev[..n][..n - 1] == ev[..n - 1];
    if ev[n - 1].By(c) && ev[n - 1].out.Issued? {
      k := n - 1;
    } else {
      k := OutstandingHasIssue(ev, n - 1, c);
    }
  }

  /**
   * Between two acceptances for one customer, login or reset in any mix, the code accepted the
   * second time was freshly issued, with that kind, and was the latest one issued.
   */
  lemma FreshIssueBetweenAcceptances(accounts: map<CustomerId, Account>, run: Run, i: nat, j: nat) returns (k: nat)
    requires i < j < |run| && run[i].c == run[j].c
    requires Events(accounts, run)[i].out.Accepted? && Events(accounts, run)[j].out.Accepted?
    ensures i < k < j
    ensures var ev := Events(accounts, run);
      LatestIssue(ev, run[j].c, k, j, ev[j].out.kind, ev[j].out.code)
  {
    RunsAreHonest(accounts, run);
    k := OutstandingHasIssue(Events(accounts, run), j, run[j].c);
  }

  function CountIssued(ev: seq<Event>, c: CustomerId): nat {
    if ev == [] then 0
    else CountIssued(ev[..|ev| - 1], c) + (if ev[|ev| - 1].By(c) && ev[|ev| - 1].out.Issued? then 1 else 0)
  }

  function CountAccepted(ev: seq<Event>, c: CustomerId): nat {
    if ev == [] then 0
    else CountAccepted(ev[..|ev| - 1], c) + (if ev[|ev| - 1].By(c) && ev[|ev| - 1].out.Accepted? then 1 else 0)
  }

  /** Codes accepted from a customer never outnumber codes issued to it; an outstanding code is one in hand. */
  lemma AcceptancesWithinIssues(accounts: map<CustomerId, Account>, run: Run, c: CustomerId)
    ensures var ev := Events(accounts, run);
      CountAccepted(ev, c) + (if Outstanding(ev, c).Some? then 1 else 0) <= CountIssued(ev, c)
  {
    RunsAreHonest(accounts, run);
    HonestCount(Events(accounts, run), c);
  }

  lemma {:induction false} HonestCount(ev: seq<Event>, c: CustomerId)
    requires Honest(ev)
    ensures CountAccepted(ev, c) + (if Outstanding(ev, c).Some? then 1 else 0) <= CountIssued(ev, c)
  {
    if ev != [] {
      var before := ev[..|ev| - 1];
      assert forall i :: 0 <= i < |before| ==> before[..i] == ev[..i];
      HonestCount(before, c);
    }
  }

  // ---------------------------------------------------------------------------------------
  // The attempt counter and the lock over whole runs.
  // ---------------------------------------------------------------------------------------

  lemma OnlyHoldersFail(s: State, r: Request)
    requires Event(r, Step(s, r).1).Counted()
    ensures r.c in Step(s, r).0.slots && r.c in s.slots
  {
    match r
    case ValidateOtp(_, _, _, _) =>
    case PasswordLogin(_, _, _) =>
    case _ =>
  }

  /** No customer ever makes more than three counted failures without the allowance being given back. */
  lemma {:induction false} AtMostThreeFailures(accounts: map<CustomerId, Account>, run: Run, c: CustomerId)
    ensures FailuresSince(Events(accounts, run), c) <= MAX_ATTEMPTS
  {
    if run != [] {
      var before, r := run[..|run| - 1], run[|run| - 1];
      var ev := Events(accounts, run);
      assert ev[..|run| - 1] == Events(accounts, before);
      AtMostThreeFailures(accounts, before, c);
      if r.c == c && ev[|run| - 1].Counted() {
        OnlyHoldersFail(Exec(accounts, before), r);
        SlotIsHistory(accounts, run, c);
      }
    }
  }

  lemma LockAfter(s: State, r: Request)
    ensures var (t, o) := Step(s, r);
      Locked(t, r.c) <==>
        if o == WrongCode(Login) then r.c in t.slots && t.slots[r.c].attempts >= MAX_ATTEMPTS
        else Locked(s, r.c) && !Event(r, o).Unlocks()
  {
    match r
    case GetOtp(_, _, _, _) =>
    case ValidateOtp(_, _, _, _) =>
    case PasswordLogin(_, _, _) =>
    case ForgetMpin(_, _, _) =>
    case VerifyForgetMpinOtp(_, _, _) =>
    case _ =>
  }

  /** A locked customer gets no code compared, whatever the kind, and none issued except by getOtp. */
  lemma LockedRefuses(s: State, r: Request)
    requires Locked(s, r.c)
    ensures var o := Step(s, r).1;
      !o.Accepted? && !o.WrongCode? && (o.Issued? ==> r.GetOtp? && !r.lockHolds)
  {
    match r
    case GetOtp(_, _, _, _) =>
    case ValidateOtp(_, _, _, _) =>
    case PasswordLogin(_, _, _) =>
    case ForgetMpin(_, _, _) =>
    case VerifyForgetMpinOtp(_, _, _) =>
    case _ =>
  }

  /** Whether c is locked, read off the history: a wrong login code that was the third failure, not yet lifted. */
  function LockedBy(accounts: map<CustomerId, Account>, ev: seq<Event>, c: CustomerId): bool {
    if ev == [] then c in accounts && accounts[c].otpLocked
    else
      var last, before := ev[|ev| - 1], ev[..|ev| - 1];
      if last.By(c) && last.out == WrongCode(Login) then FailuresSince(ev, c) == MAX_ATTEMPTS
      else if last.By(c) && last.Unlocks() then false
      else LockedBy(accounts, before, c)
  }

  lemma {:induction false} LockIsHistory(accounts: map<CustomerId, Account>, run: Run, c: CustomerId)
    ensures Locked(Exec(accounts, run), c) <==> LockedBy(accounts, Events(accounts, run), c)
  {
    if run != [] {
      var before, r := run[..|run| - 1], run[|run| - 1];
      var s := Exec(accounts, before);
      assert Events(accounts, run)[..|run| - 1] == Events(accounts, before);
      LockIsHistory(accounts, before, c);
      if r.c == c {
        LockAfter(s, r);
        if Step(s, r).1 == WrongCode(Login) {
          OnlyHoldersFail(s, r);
          SlotIsHistory(accounts, run, c);
        }
      } else {
        StepIsLocal(s, r, c);
      }
    }
  }

  lemma {:induction false} LockLasts(accounts: map<CustomerId, Account>, ev: seq<Event>, c: CustomerId, i: nat)
    requires i < |ev| && ev[i].By(c) && ev[i].out == WrongCode(Login)
    requires FailuresSince(ev[..i + 1], c) == MAX_ATTEMPTS
    requires forall k :: i < k < |ev| && ev[k].By(c) ==> !ev[k].Unlocks() && ev[k].out != WrongCode(Login)
    ensures LockedBy(accounts, ev, c)
  {
    if i + 1 == |ev| {
      assert ev[..i + 1] == ev;
    } else {
      var before := ev[..|ev| - 1];
      assert before[..i + 1] == ev[..i + 1];
      LockLasts(accounts, before, c, i);
    }
  }

  lemma EventAt(accounts: map<CustomerId, Account>, run: Run, j: nat)
    requires j < |run|
    ensures Events(accounts, run)[j] == Event(run[j], Step(Exec(accounts, run[..j]), run[j]).1)
  {
    EventsPrefix(accounts, run, j + 1);
    assert run[..j + 1][..j] == run[..j];
  }

  lemma LockedRefusesAt(accounts: map<CustomerId, Account>, run: Run, j: nat)
    requires j < |run| && Locked(Exec(accounts, run[..j]), run[j].c)
    ensures var o := Events(accounts, run)[j].out;
      !o.Accepted? && !o.WrongCode? && (o.Issued? ==> run[j].GetOtp? && !run[j].lockHolds)
  {
    EventAt(accounts, run, j);
    LockedRefuses(Exec(accounts, run[..j]), run[j]);
  }

  /**
   * A wrong login code that is the third counted failure locks the customer, and until getOtp lifts
   * the lock no code of either kind is accepted or even compared.
   */
  lemma {:induction false} ThirdFailureLocksUntilGetOtp(accounts: map<CustomerId, Account>, run: Run, i: nat, j: nat)
    requires i < j <= |run|
    requires Events(accounts, run)[i].out == WrongCode(Login)
    requires FailuresSince(Events(accounts, run)[..i + 1], run[i].c) == MAX_ATTEMPTS
    requires forall k :: i < k < j && run[k].c == run[i].c ==> !Events(accounts, run)[k].Unlocks()
    ensures Locked(Exec(accounts, run[..j]), run[i].c)
    ensures j < |run| && run[j].c == run[i].c ==>
      var o := Events(accounts, run)[j].out;
      !o.Accepted? && !o.WrongCode? && (o.Issued? ==> run[j].GetOtp? && !run[j].lockHolds)
    decreases j
  {
    var c, ev := run[i].c, Events(accounts, run);
    forall k | i < k < j && ev[k].By(c)
      ensures ev[k].out != WrongCode(Login)
    {
      ThirdFailureLocksUntilGetOtp(accounts, run, i, k);
    }
    LockLastsTo(accounts, run, i, j);
    if j < |run| && run[j].c == c {
      LockedRefusesAt(accounts, run, j);
    }
  }

  lemma LockLastsTo(accounts: map<CustomerId, Account>, run: Run, i: nat, j: nat)
    requires i < j <= |run|
    requires Events(accounts, run)[i].out == WrongCode(Login)
    requires FailuresSince(Events(accounts, run)[..i + 1], run[i].c) == MAX_ATTEMPTS
    requires forall k :: i < k < j && run[k].c == run[i].c ==>
      !Events(accounts, run)[k].Unlocks() && Events(accounts, run)[k].out != WrongCode(Login)
    ensures Locked(Exec(accounts, run[..j]), run[i].c)
  {
    var ev := Events(accounts, run);
    EventsPrefix(accounts, run, j);
    assert ev[..j][..i + 1] == ev[..i + 1];
    LockLasts(accounts, ev[..j], run[i].c, i);
    LockIsHistory(accounts, run[..j], run[i].c);
  }
}
