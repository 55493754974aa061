/** The answers to MPIN failures, told from the requests and answers before them alone. */
module MpinHistory {
  import opened MpinFailures

  datatype Event = Event(req: Request, out: Outcome)

  function Events(maxRetry: nat, s: State, run: seq<Request>): (ev: seq<Event>)
    requires WellFormed(s)
    ensures |ev| == |run|
  {
    if run == [] then []
    else
      var before, last := run[..|run| - 1], run[|run| - 1];
      Events(maxRetry, s, before) + [Event(last, Step(maxRetry, Exec(maxRetry, s, before), last).1)]
  }

  /** May c act: the last block, of either kind, or unblock decides. */
  predicate ActiveBy(s: State, ev: seq<Event>, c: CustomerId) {
    if ev == [] then c in s.active && s.active[c]
    else
      var last := ev[|ev| - 1];
      if last.req.c == c && (last.out == Blocked || (last.req.action == Block && last.out == Done)) then false
      else if last.req.c == c && last.req.action == Unblock && last.out == Done then true
      else ActiveBy(s, ev[..|ev| - 1], c)
  }

  /** The event closes what c failed at time t: a right MPIN and unblocking close all, a logged success its window. */
  predicate Closes(e: Event, c: CustomerId, t: nat) {
    e.req.c == c && e.out == Done
    && (e.req.action == EnterMpin || e.req.action == Unblock
        || (e.req.action == LogOperation && e.req.w.start <= t <= e.req.w.end))
  }

  /** Event i is a failure of c that nothing has closed since. */
  ghost predicate OpenFailure(ev: seq<Event>, c: CustomerId, i: nat)
    requires i < |ev|
  {
    && ev[i].req.c == c && ev[i].req.action == FailMpin && ev[i].out != Refused
    && forall j :: i < j < |ev| ==> !Closes(ev[j], c, ev[i].req.w.now)
  }

  /** The open failures of c inside a window. */
  ghost function OpenIn(ev: seq<Event>, c: CustomerId, w: Window): set<nat> {
    set i: nat | i < |ev| && OpenFailure(ev, c, i) && w.start <= ev[i].req.w.now <= w.end
  }

  function Both(w: Window, v: Window): Window {
    Window(if w.start < v.start then v.start else w.start, w.now, if w.end < v.end then w.end else v.end)
  }

  lemma {:induction false} InsideOutside(times: seq<nat>, w: Window, v: Window)
    ensures Inside(Outside(times, v), w) == Inside(times, w) - Inside(times, Both(w, v))
  {
    if times != [] {
      InsideOutside(times[1..], w, v);
    }
  }

  lemma OpenInAfter(ev: seq<Event>, e: Event, c: CustomerId, w: Window)
    ensures var (before, after) := (OpenIn(ev, c, w), OpenIn(ev + [e], c, w));
      if e.req.c != c || e.out == Refused || e.req.action == Block then after == before
      else match e.req.action
        case FailMpin =>
          after == if w.start <= e.req.w.now <= w.end then before + {|ev|} else before
        case LogOperation =>
          if e.out == Done then after == before - OpenIn(ev, c, Both(w, e.req.w)) else after == before
        case _ => if e.out == Done then after == {} else after == before
  {
    var all := ev + [e];
    forall i: nat | i < |ev|
      ensures OpenFailure(all, c, i) <==> OpenFailure(ev, c, i) && !Closes(e, c, ev[i].req.w.now)
    {
      assert all[|ev|] == e && forall j :: i < j < |ev| ==> all[j] == ev[j];
    }
    hide Closes;
    if e.req.c != c || e.out == Refused || e.req.action == Block || e.req.action == FailMpin || e.out != Done {
      assert forall t: nat :: !Closes(e, c, t) by { ClosesWhen(e, c); }
    } else {
      ClosesWhen(e, c);
    }
  }

  lemma ClosesWhen(e: Event, c: CustomerId)
    ensures forall t: nat :: Closes(e, c, t) <==>
      e.req.c == c && e.out == Done
      && (e.req.action == EnterMpin || e.req.action == Unblock
          || (e.req.action == LogOperation && e.req.w.start <= t <= e.req.w.end))
  {
  }

  /** The state agrees with the history as far as c is concerned. */
  ghost predicate Agrees(s: State, ev: seq<Event>, t: State, c: CustomerId)
    requires WellFormed(t)
  {
    && (c in t.active <==> c in s.active)
    && (c in t.active ==>
         && t.active[c] == ActiveBy(s, ev, c)
         && forall w: Window :: Inside(t.open[c], w) == |OpenIn(ev, c, w)|)
  }

  lemma AgreesAfter(maxRetry: nat, s: State, ev: seq<Event>, t: State, r: Request, c: CustomerId)
    requires WellFormed(t) && WellFormed(s) && Agrees(s, ev, t, c)
    ensures var (u, o) := Step(maxRetry, t, r); Agrees(s, ev + [Event(r, o)], u, c)
  {
    var (u, o) := Step(maxRetry, t, r);
    var e := Event(r, o);
    assert (ev + [e])[..|ev|] == ev;
    if c in t.active {
      forall w: Window
        ensures Inside(u.open[c], w) == |OpenIn(ev + [e], c, w)|
      {
        OpenInAfter(ev, e, c, w);
        if r.c == c {
          InsideConcat(t.open[c], r.w.now, w);
          InsideOutside(t.open[c], w, r.w);
          assert Inside(t.open[c], Both(w, r.w)) == |OpenIn(ev, c, Both(w, r.w))|;
          assert OpenIn(ev, c, Both(w, r.w)) <= OpenIn(ev, c, w);
        }
      }
    }
  }

  /** In every run from an empty log, who is active and how many failures are open in any window is history. */
  lemma {:induction false} FailuresAreHistory(maxRetry: nat, s: State, run: seq<Request>, c: CustomerId)
    requires WellFormed(s) && forall o :: o in s.open ==> s.open[o] == []
    ensures Agrees(s, Events(maxRetry, s, run), Exec(maxRetry, s, run), c)
  {
    if run != [] {
      var before, last := run[..|run| - 1], run[|run| - 1];
      FailuresAreHistory(maxRetry, s, before, c);
      hide Step, Agrees;
      AgreesAfter(maxRetry, s, Events(maxRetry, s, before), Exec(maxRetry, s, before), last, c);
    }
  }

  lemma {:induction false} EventsPrefix(maxRetry: nat, s: State, run: seq<Request>, n: nat)
    requires WellFormed(s) && n <= |run|
    ensures Events(maxRetry, s, run)[..n] == Events(maxRetry, s, run[..n])
    decreases |run|
  {
    if n < |run| {
      EventsPrefix(maxRetry, s, run[..|run| - 1], n);
      assert run[..|run| - 1][..n] == run[..n];
    } else {
      assert run[..n] == run;
    }
  }

  /**
   * The answer to a wrong MPIN: refused to a customer who may not act; otherwise, with the failures still
   * open in the window and this one, blocked when they reach the limit, and the exact remainder below it.
   */
  lemma FailureAnswer(maxRetry: nat, s: State, run: seq<Request>, j: nat)
    requires WellFormed(s) && forall o :: o in s.open ==> s.open[o] == []
    requires j < |run| && run[j].action == FailMpin && run[j].w.Valid()
    ensures var (ev, r) := (Events(maxRetry, s, run), run[j]);
      var failures := |OpenIn(ev[..j], r.c, r.w)| + 1;
      ev[j].out ==
        if !ActiveBy(s, ev[..j], r.c) then Refused
        else if failures >= maxRetry then Blocked
        else AttemptsLeft(maxRetry - failures)
  {
    EventAt(maxRetry, s, run, j);
    var t, r := Exec(maxRetry, s, run[..j]), run[j];
    FailuresAreHistory(maxRetry, s, run[..j], r.c);
    EventsPrefix(maxRetry, s, run, j);
    ActiveAreKnown(maxRetry, s, run[..j], r.c);
    hide Events, ActiveBy, OpenIn;
    if r.c in t.active {
      InsideConcat(t.open[r.c], r.w.now, r.w);
    }
  }

  lemma EventAt(maxRetry: nat, s: State, run: seq<Request>, j: nat)
    requires WellFormed(s) && j < |run|
    ensures Events(maxRetry, s, run)[j] == Event(run[j], Step(maxRetry, Exec(maxRetry, s, run[..j]), run[j]).1)
  {
    EventsPrefix(maxRetry, s, run, j + 1);
    assert run[..j + 1][..j] == run[..j];
  }

  lemma {:induction false} ActiveAreKnown(maxRetry: nat, s: State, run: seq<Request>, c: CustomerId)
    requires WellFormed(s)
    ensures ActiveBy(s, Events(maxRetry, s, run), c) ==> c in s.active
  {
    if run != [] {
      ActiveAreKnown(maxRetry, s, run[..|run| - 1], c);
    }
  }

  /** A right MPIN and an operation pass exactly for a customer who may act, the back office for any known one. */
  lemma OtherAnswer(maxRetry: nat, s: State, run: seq<Request>, j: nat)
    requires WellFormed(s) && forall o :: o in s.open ==> s.open[o] == []
    requires j < |run| && run[j].action != FailMpin
    ensures var (ev, r) := (Events(maxRetry, s, run), run[j]);
      ev[j].out ==
        if r.action == Block || r.action == Unblock then (if r.c in s.active then Done else Refused)
        else if ActiveBy(s, ev[..j], r.c) then Done else Refused
  {
    EventAt(maxRetry, s, run, j);
    FailuresAreHistory(maxRetry, s, run[..j], run[j].c);
    EventsPrefix(maxRetry, s, run, j);
    ActiveAreKnown(maxRetry, s, run[..j], run[j].c);
    hide Events, ActiveBy, OpenIn;
  }
}
