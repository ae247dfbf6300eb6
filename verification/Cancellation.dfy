/** The cancellation wake-up protocol: any number of cancellers and waiters
    share one flag and one notifier that keeps no permit.

    Waiters and cancellers may join at any time. Each access to shared state is
    one step, so a run is any interleaving of such steps. */
module Cancellation {

  /** Where a `cancelled` call is. A poll that finds no notification goes from
      `Asleep` to `Yielded`, which gives way to the competing operation of
      `cancellable`; in `Completed` that operation won and the wait is gone. */
  datatype WaiterPc =
    | FirstCheck | Creating | Created | SecondCheck | Asleep | Yielded
    | Returned | Completed

  datatype Waiter = Waiter(pc: WaiterPc, notified: bool)

  /** Where a `cancel` call is: only the call whose swap found the flag clear
      goes on to notify. */
  datatype Canceller = Swapping | Notifying | Won | Lost

  datatype State = State(flag: bool, waiters: seq<Waiter>, cancellers: seq<Canceller>)

  datatype Event =
    | CallCancelled
    | Advance(w: nat)
    | Complete(w: nat)
    | CallCancel
    | Swap(c: nat)
    | Notify(c: nat, early: set<nat>)

  const START := State(false, [], [])

  predicate Ended(x: Waiter) {
    x.pc.Returned? || x.pc.Completed?
  }

  /** A waiter that a notification is sure to reach. One that was created but
      not yet enabled may or may not hear it. */
  predicate Registered(x: Waiter) {
    x.pc.SecondCheck? || x.pc.Asleep? || x.pc.Yielded?
  }

  /** A registered waiter that only a notification can move on. */
  predicate Stranded(x: Waiter) {
    (x.pc.Asleep? || x.pc.Yielded?) && !x.notified
  }

  predicate Enabled(s: State, e: Event) {
    match e
    case CallCancelled => true
    case Advance(w) => w < |s.waiters| && !Ended(s.waiters[w])
    case Complete(w) => w < |s.waiters| && s.waiters[w].pc.Yielded?
    case CallCancel => true
    case Swap(c) => c < |s.cancellers| && s.cancellers[c].Swapping?
    case Notify(c, early) =>
      && c < |s.cancellers| && s.cancellers[c].Notifying?
      && forall w :: w in early ==> w < |s.waiters| && s.waiters[w].pc.Created?
  }

  function AdvanceWaiter(x: Waiter, flag: bool): Waiter
    requires !Ended(x)
  {
    match x.pc
    case FirstCheck => if flag then x.(pc := Returned) else x.(pc := Creating)
    case Creating => Waiter(Created, false)
    case Created => x.(pc := SecondCheck)
    case SecondCheck => if flag then x.(pc := Returned) else x.(pc := Asleep)
    case Asleep => if x.notified then Waiter(FirstCheck, false) else x.(pc := Yielded)
    case Yielded => x.(pc := Asleep)
  }

  function Step(s: State, e: Event): State
    requires Enabled(s, e)
  {
    match e
    case CallCancelled => s.(waiters := s.waiters + [Waiter(FirstCheck, false)])
    case Advance(w) => s.(waiters := s.waiters[w := AdvanceWaiter(s.waiters[w], s.flag)])
    case Complete(w) => s.(waiters := s.waiters[w := s.waiters[w].(pc := Completed)])
    case CallCancel => s.(cancellers := s.cancellers + [Swapping])
    case Swap(c) => s.(flag := true, cancellers := s.cancellers[c := if s.flag then Lost else Notifying])
    case Notify(c, early) =>
      s.(cancellers := s.cancellers[c := Won],
         waiters := seq(|s.waiters|, w requires 0 <= w < |s.waiters| =>
           if Registered(s.waiters[w]) || w in early then s.waiters[w].(notified := true) else s.waiters[w]))
  }

  ghost predicate IsRun(s: State, events: seq<Event>)
    decreases |events|
  {
    events == [] || (Enabled(s, events[0]) && IsRun(Step(s, events[0]), events[1..]))
  }

  ghost function After(s: State, events: seq<Event>): State
    requires IsRun(s, events)
    decreases |events|
  {
    if events == [] then s else After(Step(s, events[0]), events[1..])
  }

  // What every step keeps.

  predicate IsWinner(c: Canceller) {
    c.Notifying? || c.Won?
  }

  ghost predicate WinnerYetToNotify(s: State) {
    exists c :: 0 <= c < |s.cancellers| && s.cancellers[c].Notifying?
  }

  ghost predicate HasWinner(s: State) {
    exists c :: 0 <= c < |s.cancellers| && IsWinner(s.cancellers[c])
  }

  ghost predicate AtMostOneWinner(s: State) {
    forall c, d | 0 <= c < |s.cancellers| && 0 <= d < |s.cancellers| ::
      IsWinner(s.cancellers[c]) && IsWinner(s.cancellers[d]) ==> c == d
  }

  ghost predicate FlagMeansWinner(s: State) {
    && (s.flag <==> HasWinner(s))
    && (forall c :: 0 <= c < |s.cancellers| && s.cancellers[c].Lost? ==> s.flag)
  }

  ghost predicate NobodyStranded(s: State) {
    (exists w :: 0 <= w < |s.waiters| && Stranded(s.waiters[w])) ==> !s.flag || WinnerYetToNotify(s)
  }

  ghost predicate ReturnsAreCancelled(s: State) {
    forall w :: 0 <= w < |s.waiters| && s.waiters[w].pc.Returned? ==> s.flag
  }

  ghost predicate Inv(s: State) {
    AtMostOneWinner(s) && FlagMeansWinner(s) && NobodyStranded(s) && ReturnsAreCancelled(s)
  }

  lemma SwapKeepsInv(s: State, c: nat)
    requires Inv(s) && Enabled(s, Swap(c))
    ensures Inv(Step(s, Swap(c)))
  {
    var t := Step(s, Swap(c));
    forall d | 0 <= d < |s.cancellers| && d != c ensures t.cancellers[d] == s.cancellers[d] {}
    if s.flag {
      var d :| 0 <= d < |s.cancellers| && IsWinner(s.cancellers[d]);
      assert IsWinner(t.cancellers[d]);
      if WinnerYetToNotify(s) {
        var n :| 0 <= n < |s.cancellers| && s.cancellers[n].Notifying?;
        assert t.cancellers[n].Notifying?;
      }
    } else {
      assert t.cancellers[c].Notifying?;
    }
  }

  lemma NotifyKeepsInv(s: State, c: nat, early: set<nat>)
    requires Inv(s) && Enabled(s, Notify(c, early))
    ensures Inv(Step(s, Notify(c, early)))
  {
    var t := Step(s, Notify(c, early));
    assert IsWinner(s.cancellers[c]) && IsWinner(t.cancellers[c]);
    forall d | 0 <= d < |s.cancellers| && d != c ensures t.cancellers[d] == s.cancellers[d] {}
    forall w | 0 <= w < |t.waiters| ensures !Stranded(t.waiters[w]) && t.waiters[w].pc == s.waiters[w].pc {}
  }

  lemma WaiterStepKeepsInv(s: State, e: Event)
    requires Inv(s) && Enabled(s, e) && (e.Advance? || e.Complete? || e.CallCancelled?)
    ensures Inv(Step(s, e))
  {
    var t := Step(s, e);
    forall w | 0 <= w < |t.waiters| && Stranded(t.waiters[w]) ensures !s.flag || WinnerYetToNotify(s) {
      if w < |s.waiters| && !(e.Advance? && e.w == w && s.waiters[w].pc.SecondCheck?) {
        assert Stranded(s.waiters[w]);
      }
    }
    forall w | 0 <= w < |t.waiters| && t.waiters[w].pc.Returned? ensures s.flag {
      if !(e.Advance? && e.w == w) {
        assert s.waiters[w].pc.Returned?;
      }
    }
  }

  lemma StepKeepsInv(s: State, e: Event)
    requires Inv(s) && Enabled(s, e)
    ensures Inv(Step(s, e))
  {
    match e {
      case Swap(c) => SwapKeepsInv(s, c);
      case Notify(c, early) => NotifyKeepsInv(s, c, early);
      case CallCancel => JoiningKeepsInv(s);
      case _ => WaiterStepKeepsInv(s, e);
    }
  }

  lemma JoiningKeepsInv(s: State)
    requires Inv(s)
    ensures Inv(Step(s, CallCancel))
  {
    var t := Step(s, CallCancel);
    forall c | 0 <= c < |s.cancellers| ensures t.cancellers[c] == s.cancellers[c] {}
    if WinnerYetToNotify(s) {
      var n :| 0 <= n < |s.cancellers| && s.cancellers[n].Notifying?;
      assert t.cancellers[n].Notifying?;
    }
    if HasWinner(s) {
      var d :| 0 <= d < |s.cancellers| && IsWinner(s.cancellers[d]);
      assert IsWinner(t.cancellers[d]);
    }
  }

  lemma {:induction false} RunKeepsInv(s: State, events: seq<Event>)
    requires Inv(s) && IsRun(s, events)
    ensures Inv(After(s, events))
    decreases |events|
  {
    if events != [] {
      StepKeepsInv(s, events[0]);
      RunKeepsInv(Step(s, events[0]), events[1..]);
    }
  }

  // Main results: over every run of the protocol.

  ghost predicate AllCancelsFinished(s: State) {
    forall c :: 0 <= c < |s.cancellers| ==> s.cancellers[c].Won? || s.cancellers[c].Lost?
  }

  /** No wake-up is lost: a registered waiter that sleeps un-notified means
      nobody cancelled, or the one winning canceller has yet to notify. */
  lemma NoLostWakeUp(events: seq<Event>, w: nat)
    requires IsRun(START, events)
    requires w < |After(START, events).waiters| && Stranded(After(START, events).waiters[w])
    ensures var s := After(START, events);
            !s.flag || (exists c :: 0 <= c < |s.cancellers| && s.cancellers[c].Notifying?
                          && forall d :: 0 <= d < |s.cancellers| && IsWinner(s.cancellers[d]) ==> d == c)
  {
    RunKeepsInv(START, events);
    var s := After(START, events);
    if s.flag {
      assert WinnerYetToNotify(s);
      var c :| 0 <= c < |s.cancellers| && s.cancellers[c].Notifying?;
      assert IsWinner(s.cancellers[c]);
    }
  }

  /** `cancelled` returns only once cancellation was requested, hence so does
      the `Cancelled` outcome of `cancellable`. */
  lemma ReturnedMeansCancelled(events: seq<Event>, w: nat)
    requires IsRun(START, events)
    requires w < |After(START, events).waiters| && After(START, events).waiters[w].pc.Returned?
    ensures After(START, events).flag
    ensures exists c :: 0 <= c < |After(START, events).cancellers| && !After(START, events).cancellers[c].Swapping?
  {
    RunKeepsInv(START, events);
    var s := After(START, events);
    var c :| 0 <= c < |s.cancellers| && IsWinner(s.cancellers[c]);
  }

  /** The winner has notified and nothing can undo that. */
  ghost predicate Settled(s: State) {
    Inv(s) && s.flag && !WinnerYetToNotify(s)
  }

  /** Once every `cancel` call has returned, and there was one, no waiter is
      stranded. */
  lemma FinishedCancelsStrandNobody(events: seq<Event>)
    requires IsRun(START, events)
    requires var s := After(START, events); s.cancellers != [] && AllCancelsFinished(s)
    ensures Settled(After(START, events))
    ensures forall w :: 0 <= w < |After(START, events).waiters| ==> !Stranded(After(START, events).waiters[w])
  {
    RunKeepsInv(START, events);
    var s := After(START, events);
    assert s.cancellers[0].Won? || s.cancellers[0].Lost?;
    assert s.cancellers[0].Won? ==> IsWinner(s.cancellers[0]);
    assert s.flag;
  }

  /** Own steps a waiter is from its end, once cancellation has settled. */
  function Distance(x: Waiter): nat {
    match x.pc
    case Creating => 4
    case Created => 3
    case Yielded => 3
    case SecondCheck => 1
    case Asleep => 2
    case FirstCheck => 1
    case Returned => 0
    case Completed => 0
  }

  function OwnSteps(events: seq<Event>, w: nat): nat {
    if events == [] then 0
    else (if events[0] == Advance(w) || events[0] == Complete(w) then 1 else 0) + OwnSteps(events[1..], w)
  }

  lemma SettledStays(s: State, e: Event, w: nat)
    requires Settled(s) && Enabled(s, e) && w < |s.waiters|
    ensures Settled(Step(s, e)) && w < |Step(s, e).waiters|
    ensures e == Advance(w) || e == Complete(w) ==>
              Distance(Step(s, e).waiters[w]) < Distance(s.waiters[w])
    ensures e != Advance(w) && e != Complete(w) ==> Step(s, e).waiters[w] == s.waiters[w]
    ensures !s.waiters[w].pc.Yielded? && !s.waiters[w].pc.Completed? ==>
              !Step(s, e).waiters[w].pc.Yielded? && !Step(s, e).waiters[w].pc.Completed?
  {
    StepKeepsInv(s, e);
    var t := Step(s, e);
    forall c | 0 <= c < |t.cancellers| ensures !t.cancellers[c].Notifying? {}
    assert !Stranded(s.waiters[w]);
  }

  /** After cancellation has settled, a waiter's own steps bring it to its end
      however the others interleave, and it ends cancelled unless its poll had
      already yielded to the competing operation. */
  lemma {:induction false} SettledWaitersReturn(s: State, events: seq<Event>, w: nat)
    requires Settled(s) && IsRun(s, events) && w < |s.waiters|
    ensures w < |After(s, events).waiters|
    ensures Distance(After(s, events).waiters[w]) + OwnSteps(events, w) <= Distance(s.waiters[w])
    ensures OwnSteps(events, w) == Distance(s.waiters[w]) ==> Ended(After(s, events).waiters[w])
    ensures !Ended(After(s, events).waiters[w]) ==> Enabled(After(s, events), Advance(w))
    ensures !s.waiters[w].pc.Yielded? && !s.waiters[w].pc.Completed? ==>
              !After(s, events).waiters[w].pc.Completed?
    decreases |events|
  {
    if events != [] {
      SettledStays(s, events[0], w);
      SettledWaitersReturn(Step(s, events[0]), events[1..], w);
    }
  }

  /** `cancellable` is biased: an operation that was not already being
      polled past the token when every `cancel` had returned cannot win. */
  lemma CancelledWorkCannotComplete(before: seq<Event>, after: seq<Event>, w: nat)
    requires IsRun(START, before)
    requires var s := After(START, before);
             && s.cancellers != [] && AllCancelsFinished(s) && IsRun(s, after)
             && w < |s.waiters| && !s.waiters[w].pc.Yielded? && !s.waiters[w].pc.Completed?
    ensures var s, t := After(START, before), After(After(START, before), after);
            && w < |t.waiters| && !t.waiters[w].pc.Completed?
            && (OwnSteps(after, w) == Distance(s.waiters[w]) ==> t.waiters[w].pc.Returned?)
  {
    FinishedCancelsStrandNobody(before);
    SettledWaitersReturn(After(START, before), after, w);
  }

  function Notifications(events: seq<Event>): nat {
    if events == [] then 0 else (if events[0].Notify? then 1 else 0) + Notifications(events[1..])
  }

  /** Cancelling is idempotent: `notify_waiters` runs at most once in any run,
      and exactly once by the time every `cancel` call has returned. */
  lemma {:induction false} NotifiesOnce(s: State, events: seq<Event>)
    requires Inv(s) && IsRun(s, events)
    ensures Notifications(events) == Told(After(s, events)) - Told(s)
    decreases |events|
  {
    if events != [] {
      StepKeepsInv(s, events[0]);
      StepTells(s, events[0]);
      NotifiesOnce(Step(s, events[0]), events[1..]);
    }
  }

  ghost predicate HasWon(s: State) {
    exists c :: 0 <= c < |s.cancellers| && s.cancellers[c].Won?
  }

  ghost function Told(s: State): nat {
    if HasWon(s) then 1 else 0
  }

  lemma StepTells(s: State, e: Event)
    requires Inv(s) && Enabled(s, e)
    ensures Told(Step(s, e)) == Told(s) + (if e.Notify? then 1 else 0)
  {
    var t := Step(s, e);
    if e.Notify? {
      assert IsWinner(s.cancellers[e.c]) && t.cancellers[e.c].Won?;
    } else {
      forall c | 0 <= c < |s.cancellers| ensures s.cancellers[c].Won? ==> t.cancellers[c].Won? {}
      forall c | 0 <= c < |t.cancellers| && t.cancellers[c].Won? ensures c < |s.cancellers| && s.cancellers[c].Won? {}
    }
  }

  lemma EveryRunNotifiesOnce(events: seq<Event>)
    requires IsRun(START, events)
    ensures Notifications(events) <= 1
    ensures var s := After(START, events);
            s.cancellers != [] && AllCancelsFinished(s) ==> Notifications(events) == 1
  {
    NotifiesOnce(START, events);
    var s := After(START, events);
    if s.cancellers != [] && AllCancelsFinished(s) {
      FinishedCancelsStrandNobody(events);
      var c :| 0 <= c < |s.cancellers| && IsWinner(s.cancellers[c]);
      assert s.cancellers[c].Won?;
    }
  }
}
