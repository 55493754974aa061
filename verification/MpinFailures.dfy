/**
 * The MPIN failure log: every wrong MPIN is logged, and too many open failures inside the
 * current window block the customer.
 */
module MpinFailures {
  import opened Tables

  type CustomerId = nat

  /** The moment of a request and the window the protocol settings put around it. */
  datatype Window = Window(start: nat, now: nat, end: nat)
  {
    predicate Valid() { start <= now <= end }
    predicate Contains(t: nat) { start <= t <= end }

    /** Time went on, and the start of the window did not move back. */
    predicate UpTo(later: Window) { start <= later.start && now <= later.now }
  }

  datatype Action = FailMpin | EnterMpin | LogOperation | Block | Unblock

  datatype Request = Request(c: CustomerId, w: Window, action: Action)

  datatype Outcome = Refused | AttemptsLeft(n: int) | Blocked | Done

  /** Who may act, and when each customer's open failures happened. */
  datatype State = State(active: map<CustomerId, bool>, open: map<CustomerId, seq<nat>>)

  function Inside(times: seq<nat>, w: Window): nat {
    if times == [] then 0
    else Inside(times[1..], w) + (if w.Contains(times[0]) then 1 else 0)
  }

  function Outside(times: seq<nat>, w: Window): seq<nat> {
    if times == [] then []
    else if w.Contains(times[0]) then Outside(times[1..], w)
    else [times[0]] + Outside(times[1..], w)
  }

  ghost predicate WellFormed(s: State) {
    s.open.Keys == s.active.Keys
  }

  function Step(maxRetry: nat, s: State, r: Request): (State, Outcome)
    requires WellFormed(s)
  {
    var Request(c, w, action) := r;
    if c !in s.active then (s, Refused)
    else
      match action
      case Block => (s.(active := s.active[c := false]), Done)
      case Unblock => (State(s.active[c := true], s.open[c := []]), Done)
      case _ =>
        // The device check turns a blocked customer away.
        if !s.active[c] then (s, Refused)
        else
          match action
          case EnterMpin => (s.(open := s.open[c := []]), Done)
          case LogOperation => (s.(open := s.open[c := Outside(s.open[c], w)]), Done)
          case _ =>
            var times := s.open[c] + [w.now];
            var failures := Inside(times, w);
            if failures >= maxRetry then (State(s.active[c := false], s.open[c := times]), Blocked)
            else (s.(open := s.open[c := times]), AttemptsLeft(maxRetry - failures))
  }

  // ---------------------------------------------------------------------------------------
  // Runs: time goes on, and no window starts before an earlier one.
  // ---------------------------------------------------------------------------------------

  ghost predicate Chronological(run: seq<Request>) {
    && (forall i :: 0 <= i < |run| ==> run[i].w.Valid())
    && (forall i, j :: 0 <= i < j < |run| ==> run[i].w.UpTo(run[j].w))
  }

  function Exec(maxRetry: nat, s: State, run: seq<Request>): (t: State)
    requires WellFormed(s)
    ensures WellFormed(t)
    ensures t.active.Keys == s.active.Keys
  {
    if run == [] then s
    else Step(maxRetry, Exec(maxRetry, s, run[..|run| - 1]), run[|run| - 1]).0
  }

  lemma {:induction false} InsideConcat(times: seq<nat>, t: nat, w: Window)
    ensures Inside(times + [t], w) == Inside(times, w) + if w.Contains(t) then 1 else 0
  {
    if times != [] {
      assert (times + [t])[1..] == times[1..] + [t];
      InsideConcat(times[1..], t, w);
    }
  }

  lemma {:induction false} OutsideMembers(times: seq<nat>, w: Window)
    ensures forall t :: t in Outside(times, w) ==> t in times
    ensures Inside(Outside(times, w), w) == 0
  {
    if times != [] {
      OutsideMembers(times[1..], w);
    }
  }

  /** A later window sees no failure that an earlier one missed. */
  lemma {:induction false} LaterSeesFewer(times: seq<nat>, w: Window, later: Window)
    requires w.start <= later.start
    requires forall t :: t in times ==> t <= w.end
    ensures Inside(times, later) <= Inside(times, w)
  {
    if times != [] {
      assert times[0] in times && forall t :: t in times[1..] ==> t in times;
      LaterSeesFewer(times[1..], w, later);
    }
  }

  /** At w, no active customer has used up its allowance, and nothing is logged in the future. */
  ghost predicate Within(maxRetry: nat, s: State, w: Window)
    requires WellFormed(s)
  {
    forall c :: c in s.active ==>
      && (forall t :: t in s.open[c] ==> t <= w.now)
      && (s.active[c] ==> Inside(s.open[c], w) < maxRetry)
  }

  lemma WithinLater(maxRetry: nat, s: State, w: Window, later: Window)
    requires WellFormed(s) && w.Valid() && w.UpTo(later)
    requires Within(maxRetry, s, w)
    ensures Within(maxRetry, s, later)
  {
    forall c | c in s.active
      ensures forall t :: t in s.open[c] ==> t <= later.now
      ensures s.active[c] ==> Inside(s.open[c], later) < maxRetry
    {
      LaterSeesFewer(s.open[c], w, later);
    }
  }

  lemma StepStaysWithin(maxRetry: nat, s: State, r: Request)
    requires WellFormed(s) && maxRetry > 0 && r.w.Valid()
    requires Within(maxRetry, s, r.w)
    ensures Within(maxRetry, Step(maxRetry, s, r).0, r.w)
  {
    if r.c in s.active {
      InsideConcat(s.open[r.c], r.w.now, r.w);
      OutsideMembers(s.open[r.c], r.w);
      assert Inside([], r.w) == 0;
      hide Inside, Outside;
    }
  }

  lemma EmptyLogIsWithin(maxRetry: nat, s: State)
    requires WellFormed(s) && maxRetry > 0 && forall c :: c in s.open ==> s.open[c] == []
    ensures Within(maxRetry, s, Window(0, 0, 0))
  {
  }

  /**
   * In every run from a state within the allowance, an empty log say, at any later moment whose window
   * did not move back, an active customer has fewer than maxRetry open failures in the window.
   */
  lemma {:induction false} ActiveIsWithinAllowance(
      maxRetry: nat, s: State, from: Window, run: seq<Request>, later: Window)
    requires WellFormed(s) && maxRetry > 0
    requires from.Valid() && Within(maxRetry, s, from) && from.UpTo(later)
    requires Chronological(run)
    requires forall i :: 0 <= i < |run| ==> from.UpTo(run[i].w) && run[i].w.UpTo(later)
    ensures Within(maxRetry, Exec(maxRetry, s, run), later)
  {
    if run == [] {
      WithinLater(maxRetry, s, from, later);
    } else {
      var before, last := run[..|run| - 1], run[|run| - 1];
      ActiveIsWithinAllowance(maxRetry, s, from, before, last.w);
      StepStaysWithin(maxRetry, Exec(maxRetry, s, before), last);
      WithinLater(maxRetry, Exec(maxRetry, s, run), last.w, later);
    }
  }

  /** What is left to a customer at w: how many further failures it takes to block it. */
  function Left(maxRetry: nat, s: State, c: CustomerId, w: Window): int
    requires WellFormed(s) && c in s.active
  {
    maxRetry - Inside(s.open[c], w)
  }

  /** The number reported after a failure is what is left, and it is at least one. */
  lemma ReportIsWhatIsLeft(maxRetry: nat, s: State, r: Request)
    requires WellFormed(s) && r.w.Valid() && r.action == FailMpin && r.c in s.active && s.active[r.c]
    ensures var (t, o) := Step(maxRetry, s, r);
      && (o.AttemptsLeft? ==> t.active[r.c] && o.n == Left(maxRetry, t, r.c, r.w) >= 1)
      && (o.Blocked? <==> Left(maxRetry, s, r.c, r.w) <= 1)
      && (o.Blocked? <==> !t.active[r.c])
  {
    InsideConcat(s.open[r.c], r.w.now, r.w);
  }

  function FailuresOf(run: seq<Request>, c: CustomerId): nat {
    if run == [] then 0
    else
      var last := run[|run| - 1];
      FailuresOf(run[..|run| - 1], c) + (if last.c == c && last.action == FailMpin then 1 else 0)
  }

  /**
   * What is left is exact: while the window stands and c only fails, whatever other customers do,
   * c stays active with one attempt fewer for each failure, and is blocked once they are used up.
   */
  lemma {:induction false} AllowanceIsExact(maxRetry: nat, s: State, run: seq<Request>, c: CustomerId, w: Window)
    requires WellFormed(s) && c in s.active && s.active[c] && Left(maxRetry, s, c, w) >= 1
    requires forall r :: r in run ==> r.w.Valid() && r.w.start == w.start && r.w.end == w.end
    requires forall r :: r in run && r.c == c ==> r.action == FailMpin
    ensures var t, f := Exec(maxRetry, s, run), FailuresOf(run, c);
      if f < Left(maxRetry, s, c, w) then t.active[c] && Left(maxRetry, t, c, w) == Left(maxRetry, s, c, w) - f
      else !t.active[c]
  {
    if run != [] {
      var before, last := run[..|run| - 1], run[|run| - 1];
      assert last in run && forall r :: r in before ==> r in run;
      AllowanceIsExact(maxRetry, s, before, c, w);
      FailureCosts(maxRetry, Exec(maxRetry, s, before), last, c, w);
    }
  }

  /** One request in the window: another customer's costs c nothing, a failure of c costs one attempt. */
  lemma FailureCosts(maxRetry: nat, s: State, r: Request, c: CustomerId, w: Window)
    requires WellFormed(s) && c in s.active
    requires r.w.Valid() && r.w.start == w.start && r.w.end == w.end
    requires r.c == c ==> r.action == FailMpin
    ensures var t := Step(maxRetry, s, r).0;
      if r.c != c || !s.active[c] then t.active[c] == s.active[c] && t.open[c] == s.open[c]
      else Left(maxRetry, t, c, w) == Left(maxRetry, s, c, w) - 1 && t.active[c] == (Left(maxRetry, t, c, w) >= 1)
  {
    if r.c == c {
      SameWindow(s.open[c] + [r.w.now], w, r.w);
      InsideConcat(s.open[c], r.w.now, w);
    }
  }

  lemma {:induction false} SameWindow(times: seq<nat>, w: Window, v: Window)
    requires w.start == v.start && w.end == v.end
    ensures Inside(times, w) == Inside(times, v)
  {
    if times != [] {
      SameWindow(times[1..], w, v);
    }
  }

  /** Unblocking, a right MPIN, or an operation that logs success gives the full allowance back. */
  lemma AllowanceRestored(maxRetry: nat, s: State, r: Request)
    requires WellFormed(s) && r.w.Valid() && r.c in s.active
    requires r.action == Unblock || (s.active[r.c] && (r.action == EnterMpin || r.action == LogOperation))
    ensures var t := Step(maxRetry, s, r).0;
      t.active[r.c] && Left(maxRetry, t, r.c, r.w) == maxRetry
  {
    OutsideMembers(s.open[r.c], r.w);
  }

  // ---------------------------------------------------------------------------------------
  // The ActivityLogCustomer table.
  // ---------------------------------------------------------------------------------------

  datatype Entry = Entry(customer: CustomerId, at: nat, ok: bool)

  function EntriesOf(c: CustomerId): Entry -> bool {
    (e: Entry) => e.customer == c
  }

  function FailuresIn(c: CustomerId, w: Window): Entry -> bool {
    (e: Entry) => e.customer == c && !e.ok && w.Contains(e.at)
  }

  /** When the visible failures of c happened. */
  function OpenTimes(live: seq<Entry>, c: CustomerId): seq<nat> {
    if live == [] then []
    else if live[0].customer == c && !live[0].ok then [live[0].at] + OpenTimes(live[1..], c)
    else OpenTimes(live[1..], c)
  }

  lemma {:induction false} OpenAfterInsert(live: seq<Entry>, e: Entry, c: CustomerId)
    ensures OpenTimes(live + [e], c) ==
      if e.customer == c && !e.ok then OpenTimes(live, c) + [e.at] else OpenTimes(live, c)
  {
    if live != [] {
      assert (live + [e])[1..] == live[1..] + [e];
      OpenAfterInsert(live[1..], e, c);
    }
  }

  lemma {:induction false} OpenAfterRetire(live: seq<Entry>, c: CustomerId, w: Window, o: CustomerId)
    ensures OpenTimes(Without(live, EntriesOf(c)), o) == if o == c then [] else OpenTimes(live, o)
    ensures OpenTimes(Without(live, FailuresIn(c, w)), o) ==
      if o == c then Outside(OpenTimes(live, o), w) else OpenTimes(live, o)
  {
    if live != [] {
      OpenAfterRetire(live[1..], c, w, o);
    }
  }

  lemma {:induction false} CountIsInside(live: seq<Entry>, c: CustomerId, w: Window)
    ensures Matching(live, FailuresIn(c, w)) == Inside(OpenTimes(live, c), w)
  {
    if live != [] {
      CountIsInside(live[1..], c, w);
    }
  }

  /** `find(...).length` */
  function Matching(live: seq<Entry>, where: Entry -> bool): nat {
    if live == [] then 0
    else Matching(live[1..], where) + (if where(live[0]) then 1 else 0)
  }

  class ActivityTables {
    const maxRetry: nat
    var active: map<CustomerId, bool>
    var log: seq<Row<Entry>>

    ghost function View(): State
      reads this
    {
      State(active, map c | c in active :: OpenTimes(Live(log), c))
    }

    method CheckForFailedMpin(c: CustomerId, w: Window) returns (o: Outcome)
      requires w.Valid()
      modifies this
      ensures (View(), o) == Step(maxRetry, old(View()), Request(c, w, FailMpin))
    {
      if c !in active || !active[c] {
        return Refused;
      }
      ghost var before := Live(log);
      LiveInsert(log, Entry(c, w.now, false));
      log := Insert(log, Entry(c, w.now, false));
      forall d: CustomerId
        ensures OpenTimes(Live(log), d) == if d == c then OpenTimes(before, c) + [w.now] else OpenTimes(before, d)
      {
        OpenAfterInsert(before, Entry(c, w.now, false), d);
      }
      var failures := Matching(Live(log), FailuresIn(c, w));
      CountIsInside(Live(log), c, w);
      if failures >= maxRetry {
        active := active[c := false];
        o := Blocked;
      } else {
        o := AttemptsLeft(maxRetry - failures);
      }
      assert View().open == old(View()).open[c := OpenTimes(before, c) + [w.now]];
    }

    /** A right MPIN closes every visible entry of the customer. */
    method EnterMpin(c: CustomerId, w: Window) returns (o: Outcome)
      requires w.Valid()
      modifies this
      ensures (View(), o) == Step(maxRetry, old(View()), Request(c, w, Action.EnterMpin))
    {
      if c !in active || !active[c] {
        return Refused;
      }
      CloseEntries(c, w);
      o := Done;
    }

    method CloseEntries(c: CustomerId, ghost w: Window)
      requires c in active
      modifies this`log
      ensures View().open == old(View()).open[c := []]
    {
      LiveRetire(log, EntriesOf(c));
      forall d: CustomerId
        ensures OpenTimes(Without(Live(log), EntriesOf(c)), d) == if d == c then [] else OpenTimes(Live(log), d)
      {
        OpenAfterRetire(Live(log), c, w, d);
      }
      log := RetireLive(log, EntriesOf(c));
    }

    method LogOperation(c: CustomerId, w: Window) returns (o: Outcome)
      requires w.Valid()
      modifies this
      ensures (View(), o) == Step(maxRetry, old(View()), Request(c, w, Action.LogOperation))
    {
      if c !in active || !active[c] {
        return Refused;
      }
      ghost var before := Live(log);
      LiveInsert(log, Entry(c, w.now, true));
      log := Insert(log, Entry(c, w.now, true));
      LiveRetire(log, FailuresIn(c, w));
      forall d: CustomerId
        ensures OpenTimes(Without(Live(log), FailuresIn(c, w)), d)
             == if d == c then Outside(OpenTimes(before, c), w) else OpenTimes(before, d)
      {
        OpenAfterInsert(before, Entry(c, w.now, true), d);
        OpenAfterRetire(Live(log), c, w, d);
      }
      log := RetireLive(log, FailuresIn(c, w));
      assert View().open == old(View()).open[c := Outside(OpenTimes(before, c), w)];
      o := Done;
    }

    method BlockUnblock(c: CustomerId, w: Window, unblock: bool) returns (o: Outcome)
      requires w.Valid()
      modifies this
      ensures (View(), o) == Step(maxRetry, old(View()), Request(c, w, if unblock then Unblock else Block))
    {
      if c !in active {
        return Refused;
      }
      if unblock {
        CloseEntries(c, w);
      }
      active := active[c := unblock];
      assert View().open == if unblock then old(View()).open[c := []] else old(View()).open;
      o := Done;
    }
  }
}
