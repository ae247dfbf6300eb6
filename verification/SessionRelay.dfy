/** The splice relay between two local sockets: two directions run in one task,
    interleaved at their awaits, share a `committed` flag and own a pipe each.
    A buffered copy replaces them only while nothing has been acted on.  Moving
    bytes and setting the flag is one step, as no await separates them. */
module SessionRelay {
  import opened Common

  const SPLICE_CHUNK_BYTES: nat := 65536

  datatype Stage =
    | AwaitSource
    | AwaitDestination
    | Copying
    | Returned(total: nat)

  /** One direction.  `original` is the whole stream its source will ever
      yield; `buffer` is the splice pipe, or the copy buffer of the fallback. */
  datatype Flow = Flow(
    original: seq<byte>,
    unread: seq<byte>,
    buffer: seq<byte>,
    delivered: seq<byte>,
    shut: bool,
    stage: Stage,
    total: nat,
    remaining: nat)

  datatype Phase = Splicing | Buffered | Finished(ok: bool)

  datatype Session = Session(phase: Phase, committed: bool, up: Flow, down: Flow)

  /** What the kernel does at the await a direction is polled at. */
  datatype Action =
    | WouldBlock
    | SourceMoved(count: nat)
    | SourceEof(shutdownOk: bool)
    | SourceError
    | InjectedAfterSplice(count: nat)
    | DestinationMoved(count: nat)
    | DestinationError
    | CopyRead(count: nat)
    | CopyWrite(count: nat)
    | CopyEof
    | CopyError

  datatype Event = Event(up: bool, action: Action)

  function NewFlow(stream: seq<byte>, stage: Stage): Flow {
    Flow(stream, stream, [], [], false, stage, 0, 0)
  }

  /** Preparation either readies both directions or falls back at once. */
  function Start(prepared: bool, up: seq<byte>, down: seq<byte>): Session {
    if prepared then Session(Splicing, false, NewFlow(up, AwaitSource), NewFlow(down, AwaitSource))
    else Session(Buffered, false, NewFlow(up, Copying), NewFlow(down, Copying))
  }

  function Side(s: Session, up: bool): Flow {
    if up then s.up else s.down
  }

  function WithSide(s: Session, up: bool, f: Flow): Session {
    if up then s.(up := f) else s.(down := f)
  }

  predicate Enabled(s: Session, e: Event) {
    var f := Side(s, e.up);
    && !s.phase.Finished?
    && match e.action
       case WouldBlock => !f.stage.Returned?
       case SourceMoved(n) => f.stage.AwaitSource? && 0 < n <= |f.unread| && n <= SPLICE_CHUNK_BYTES
       case InjectedAfterSplice(n) =>
         f.stage.AwaitSource? && f.total == 0 && 0 < n <= |f.unread| && n <= SPLICE_CHUNK_BYTES
       case SourceEof(_) => f.stage.AwaitSource? && f.unread == []
       case SourceError => f.stage.AwaitSource?
       case DestinationMoved(n) => f.stage.AwaitDestination? && n <= f.remaining && n <= |f.buffer|
       case DestinationError => f.stage.AwaitDestination?
       case CopyRead(n) => f.stage.Copying? && 0 < n <= |f.unread|
       case CopyWrite(n) => f.stage.Copying? && 0 < n <= |f.buffer|
       case CopyEof => f.stage.Copying? && f.unread == [] && f.buffer == []
       case CopyError => f.stage.Copying?
  }

  function Splice(f: Flow, n: nat): Flow
    requires n <= |f.unread|
  {
    f.(unread := f.unread[n..], buffer := f.buffer + f.unread[..n], remaining := n, stage := AwaitDestination)
  }

  function Drain(f: Flow, n: nat): Flow
    requires n <= |f.buffer| && n <= f.remaining
  {
    f.(delivered := f.delivered + f.buffer[..n], buffer := f.buffer[n..],
       remaining := f.remaining - n, total := f.total + n,
       stage := if f.remaining == n then AwaitSource else AwaitDestination)
  }

  /** An error drops both directions where they are.  Only an uncommitted
      session starts over, on the sockets, with its pipes discarded. */
  function Abort(s: Session): Session {
    if s.phase.Splicing? && !s.committed
    then s.(phase := Buffered,
            up := s.up.(buffer := [], stage := Copying),
            down := s.down.(buffer := [], stage := Copying))
    else s.(phase := Finished(false))
  }

  /** A direction that returned may complete the pair. */
  function Join(s: Session): Session {
    if s.up.stage.Returned? && s.down.stage.Returned? then s.(phase := Finished(true)) else s
  }

  function Step(s: Session, e: Event): Session
    requires Enabled(s, e)
  {
    var f := Side(s, e.up);
    match e.action
    case WouldBlock => s
    case SourceMoved(n) => WithSide(s, e.up, Splice(f, n)).(committed := true)
    case InjectedAfterSplice(n) => Abort(WithSide(s, e.up, Splice(f, n)).(committed := true))
    case SourceEof(shutdownOk) =>
      if shutdownOk then Join(WithSide(s, e.up, f.(shut := true, stage := Returned(f.total))).(committed := true))
      else Abort(s.(committed := true))
    case SourceError => Abort(s)
    case DestinationMoved(n) => if n == 0 then Abort(s) else WithSide(s, e.up, Drain(f, n))
    case DestinationError => Abort(s)
    case CopyRead(n) => WithSide(s, e.up, f.(unread := f.unread[n..], buffer := f.buffer + f.unread[..n]))
    case CopyWrite(n) =>
      WithSide(s, e.up, f.(delivered := f.delivered + f.buffer[..n], buffer := f.buffer[n..], total := f.total + n))
    case CopyEof => Join(WithSide(s, e.up, f.(shut := true, stage := Returned(f.total))))
    case CopyError => Abort(s)
  }

  ghost predicate IsRun(s: Session, events: seq<Event>)
    decreases |events|
  {
    events == [] || (Enabled(s, events[0]) && IsRun(Step(s, events[0]), events[1..]))
  }

  function After(s: Session, events: seq<Event>): Session
    requires IsRun(s, events)
    decreases |events|
  {
    if events == [] then s else After(Step(s, events[0]), events[1..])
  }

  // ---- the invariant

  /** Nothing of the direction has been acted on. */
  predicate Untouched(f: Flow) {
    f.unread == f.original && f.buffer == [] && f.delivered == [] && !f.shut && f.total == 0 && f.remaining == 0
  }

  ghost predicate FlowOk(f: Flow, phase: Phase) {
    && f.delivered + f.buffer + f.unread == f.original
    && f.total == |f.delivered|
    && (f.stage.AwaitSource? ==> f.buffer == [])
    && (f.stage.AwaitDestination? ==> 0 < f.remaining == |f.buffer|)
    && (f.stage.Returned? ==> f.stage.total == f.total)
    && (f.shut <==> f.stage.Returned?)
    && (f.shut ==> f.unread == [] && f.buffer == [])
    && (phase.Splicing? ==> !f.stage.Copying?)
    && (phase.Buffered? ==> f.stage.Copying? || f.stage.Returned?)
  }

  ghost predicate Inv(s: Session) {
    && FlowOk(s.up, s.phase) && FlowOk(s.down, s.phase)
    && (s.phase.Splicing? && !s.committed ==>
          Untouched(s.up) && Untouched(s.down) && s.up.stage.AwaitSource? && s.down.stage.AwaitSource?)
    && (s.phase.Buffered? ==> !s.committed)
    && (s.phase == Finished(true) <==> s.up.stage.Returned? && s.down.stage.Returned?)
  }

  lemma StartInv(prepared: bool, up: seq<byte>, down: seq<byte>)
    ensures Inv(Start(prepared, up, down))
  {
    assert [] + [] + up == up && [] + [] + down == down;
  }

  lemma MovedBytesStay(d: seq<byte>, b: seq<byte>, u: seq<byte>, n: nat)
    requires n <= |u|
    ensures d + (b + u[..n]) + u[n..] == d + b + u
  {
    assert u == u[..n] + u[n..];
  }

  lemma DrainedBytesStay(d: seq<byte>, b: seq<byte>, u: seq<byte>, n: nat)
    requires n <= |b|
    ensures (d + b[..n]) + b[n..] + u == d + b + u
  {
    assert b == b[..n] + b[n..];
  }

  lemma AbortKeepsInv(s: Session)
    requires && FlowOk(s.up, s.phase) && FlowOk(s.down, s.phase) && !s.phase.Finished?
             && !(s.up.stage.Returned? && s.down.stage.Returned?)
    requires s.phase.Splicing? && !s.committed ==> Inv(s)
    requires s.phase.Buffered? ==> !s.committed
    ensures Inv(Abort(s))
  {
  }

  lemma SourceStepKeepsInv(s: Session, e: Event)
    requires Inv(s) && Enabled(s, e) && Side(s, e.up).stage.AwaitSource?
    ensures Inv(Step(s, e))
  {
    var f := Side(s, e.up);
    match e.action
    case SourceMoved(n) => MovedBytesStay(f.delivered, f.buffer, f.unread, n);
    case InjectedAfterSplice(n) =>
      MovedBytesStay(f.delivered, f.buffer, f.unread, n);
      AbortKeepsInv(WithSide(s, e.up, Splice(f, n)).(committed := true));
    case SourceEof(shutdownOk) => if !shutdownOk { AbortKeepsInv(s.(committed := true)); }
    case SourceError => AbortKeepsInv(s);
    case WouldBlock =>
  }

  lemma DestinationStepKeepsInv(s: Session, e: Event)
    requires Inv(s) && Enabled(s, e) && Side(s, e.up).stage.AwaitDestination?
    ensures Inv(Step(s, e))
  {
    var f := Side(s, e.up);
    match e.action
    case DestinationMoved(n) =>
      if n == 0 { AbortKeepsInv(s); } else { DrainedBytesStay(f.delivered, f.buffer, f.unread, n); }
    case DestinationError => AbortKeepsInv(s);
    case WouldBlock =>
  }

  lemma CopyStepKeepsInv(s: Session, e: Event)
    requires Inv(s) && Enabled(s, e) && Side(s, e.up).stage.Copying?
    ensures Inv(Step(s, e))
  {
    var f := Side(s, e.up);
    match e.action
    case CopyRead(n) => MovedBytesStay(f.delivered, f.buffer, f.unread, n);
    case CopyWrite(n) => DrainedBytesStay(f.delivered, f.buffer, f.unread, n);
    case CopyError => AbortKeepsInv(s);
    case CopyEof =>
    case WouldBlock =>
  }

  lemma StepKeepsInv(s: Session, e: Event)
    requires Inv(s) && Enabled(s, e)
    ensures Inv(Step(s, e))
  {
    match Side(s, e.up).stage
    case AwaitSource => SourceStepKeepsInv(s, e);
    case AwaitDestination => DestinationStepKeepsInv(s, e);
    case Copying => CopyStepKeepsInv(s, e);
    case Returned(_) =>
  }

  lemma {:induction false} RunKeepsInv(s: Session, events: seq<Event>)
    requires Inv(s) && IsRun(s, events)
    ensures Inv(After(s, events))
    decreases |events|
  {
    if events != [] {
      StepKeepsInv(s, events[0]);
      RunKeepsInv(Step(s, events[0]), events[1..]);
    }
  }

  lemma StepKeepsStreams(s: Session, e: Event)
    requires Enabled(s, e)
    ensures Step(s, e).up.original == s.up.original && Step(s, e).down.original == s.down.original
    ensures s.committed ==> Step(s, e).committed
  {
  }

  lemma {:induction false} RunKeepsStreams(s: Session, events: seq<Event>)
    requires IsRun(s, events)
    ensures After(s, events).up.original == s.up.original && After(s, events).down.original == s.down.original
    ensures s.committed ==> After(s, events).committed
    decreases |events|
  {
    if events != [] {
      StepKeepsStreams(s, events[0]);
      RunKeepsStreams(Step(s, events[0]), events[1..]);
    }
  }

  // ---- what every run promises

  /** `f` has passed on part of `stream` and holds the rest, each byte once. */
  ghost predicate Conserves(f: Flow, stream: seq<byte>) {
    f.original == stream && f.delivered + f.buffer + f.unread == stream && f.delivered <= stream
  }

  /** Exactly-once delivery over every interleaving: at each point each stream
      is what was delivered, what is in flight and what is unread; before the
      commit nothing was touched; success means both arrived whole and were
      shut down in that order; failure leaves prefixes. */
  lemma RelayDeliversExactlyOnce(prepared: bool, up: seq<byte>, down: seq<byte>, events: seq<Event>)
    requires IsRun(Start(prepared, up, down), events)
    ensures var s := After(Start(prepared, up, down), events);
            && Conserves(s.up, up) && Conserves(s.down, down)
            && (s.phase.Splicing? && !s.committed ==> Untouched(s.up) && Untouched(s.down))
            && (s.up.shut ==> s.up.delivered == up) && (s.down.shut ==> s.down.delivered == down)
            && (s.phase == Finished(true) ==>
                  && s.up.shut && s.down.shut && s.up.delivered == up && s.down.delivered == down
                  && s.up.stage == Returned(|up|) && s.down.stage == Returned(|down|))
  {
    var s := After(Start(prepared, up, down), events);
    StartInv(prepared, up, down);
    RunKeepsInv(Start(prepared, up, down), events);
    RunKeepsStreams(Start(prepared, up, down), events);
    PrefixOf(s.up);
    PrefixOf(s.down);
  }

  lemma PrefixOf(f: Flow)
    requires f.delivered + f.buffer + f.unread == f.original
    ensures f.delivered <= f.original
    ensures f.unread == [] && f.buffer == [] ==> f.delivered == f.original
  {
    assert f.original == f.delivered + (f.buffer + f.unread);
  }

  /** The fallback is entered only with both sockets as they were at the
      start, and never after a commit; an error after one ends the session. */
  lemma FallbackReplaysNothing(s: Session, e: Event)
    requires Inv(s) && Enabled(s, e) && s.phase.Splicing?
    ensures Step(s, e).phase.Buffered? ==>
              && !s.committed && Untouched(s.up) && Untouched(s.down)
              && Step(s, e) == Start(false, s.up.original, s.down.original)
    ensures s.committed ==> !Step(s, e).phase.Buffered?
  {
  }

  /** An error before the commit is not the end: the session becomes the plain
      buffered copy of both whole streams, and can still deliver them. */
  lemma EarlyErrorFallsBack(s: Session, e: Event) returns (events: seq<Event>)
    requires Inv(s) && s.phase.Splicing? && !s.committed && Enabled(s, e) && e.action == SourceError
    ensures Step(s, e) == Start(false, s.up.original, s.down.original)
    ensures IsRun(Step(s, e), events) && After(Step(s, e), events).phase == Finished(true)
  {
    StepKeepsInv(s, e);
    events := CanAlwaysFinish(Step(s, e));
  }

  predicate Commits(a: Action) {
    a.SourceMoved? || a.InjectedAfterSplice? || a.SourceEof?
  }

  /** Errors that end any session they come up in. */
  predicate IsFatal(a: Action) {
    || a.InjectedAfterSplice? || a == SourceEof(false)
    || a == DestinationMoved(0) || a.DestinationError? || a.CopyError?
  }

  /** Event `i` is an error the session cannot survive: a fatal one, or a
      source error after something was acted on. */
  ghost predicate IsEnd(committed: bool, events: seq<Event>, i: nat)
    requires i < |events|
  {
    || IsFatal(events[i].action)
    || (events[i].action.SourceError? && (committed || exists j :: 0 <= j < i && Commits(events[j].action)))
  }

  lemma EndComesLater(committed: bool, events: seq<Event>, i: nat)
    requires i + 1 < |events|
    ensures IsEnd(committed || Commits(events[0].action), events[1..], i) == IsEnd(committed, events, i + 1)
  {
    hide IsFatal, Commits;
    var rest := events[1..];
    assert forall j :: 0 <= j < |rest| ==> rest[j] == events[j + 1];
    assert forall j :: 0 < j < |events| ==> events[j] == rest[j - 1];
  }

  lemma FirstEnd(committed: bool, events: seq<Event>)
    requires events != []
    ensures IsEnd(committed, events, 0) == IsEnd(committed, [events[0]], 0)
  {
  }

  /** A session is committed exactly once a splice has moved bytes or seen the
      end of a source, fails only after that or for an error of the copy, and
      fails exactly for an error it cannot survive. */
  lemma {:induction false} FailuresHaveACause(s: Session, events: seq<Event>)
    requires Inv(s) && s.phase != Finished(false) && IsRun(s, events)
    ensures After(s, events).committed <==> s.committed || exists i :: 0 <= i < |events| && Commits(events[i].action)
    ensures After(s, events).phase == Finished(false) ==>
              After(s, events).committed || exists i :: 0 <= i < |events| && events[i].action == CopyError
    ensures After(s, events).phase == Finished(false) <==>
              exists i: nat :: i < |events| && IsEnd(s.committed, events, i)
    decreases |events|
  {
    if events != [] {
      hide Step, Inv, Enabled, IsEnd, IsFatal, Commits;
      var t, rest := Step(s, events[0]), events[1..];
      StepKeepsInv(s, events[0]);
      OneFailure(s, events[0]);
      FirstEnd(s.committed, events);
      if t.phase == Finished(false) {
        assert rest == [];
      } else {
        FailuresHaveACause(t, rest);
      }
      assert forall i :: 0 <= i < |rest| ==> rest[i] == events[i + 1];
      forall i: nat | i < |rest|
        ensures IsEnd(t.committed, rest, i) == IsEnd(s.committed, events, i + 1)
      {
        EndComesLater(s.committed, events, i);
      }
      forall i: nat | 0 < i < |events| && IsEnd(s.committed, events, i)
        ensures IsEnd(t.committed, rest, i - 1)
      {
        EndComesLater(s.committed, events, i - 1);
      }
    }
  }

  lemma OneFailure(s: Session, e: Event)
    requires Inv(s) && s.phase != Finished(false) && Enabled(s, e)
    ensures Step(s, e).committed <==> s.committed || Commits(e.action)
    ensures Step(s, e).phase == Finished(false) ==> Step(s, e).committed || e.action == CopyError
    ensures Step(s, e).phase == Finished(false) <==> IsEnd(s.committed, [e], 0)
  {
  }

  /** From the start of a session. */
  lemma SessionsFailOnlyForACause(prepared: bool, up: seq<byte>, down: seq<byte>, events: seq<Event>)
    requires IsRun(Start(prepared, up, down), events)
    ensures var s := After(Start(prepared, up, down), events);
            && (s.committed <==> exists i :: 0 <= i < |events| && Commits(events[i].action))
            && (s.phase == Finished(false) ==>
                  s.committed || exists i :: 0 <= i < |events| && events[i].action == CopyError)
            && (s.phase == Finished(false) <==> exists i: nat :: i < |events| && IsEnd(false, events, i))
  {
    StartInv(prepared, up, down);
    FailuresHaveACause(Start(prepared, up, down), events);
  }

  /** A run that has fallen back is, from some point on, a run of the plain
      buffered copy over the whole original streams. */
  lemma {:induction false} FallbackIsAPlainCopy(s: Session, events: seq<Event>) returns (k: nat)
    requires Inv(s) && s.phase.Splicing? && IsRun(s, events) && After(s, events).phase.Buffered?
    ensures k <= |events|
    ensures var plain := Start(false, s.up.original, s.down.original);
            IsRun(plain, events[k..]) && After(plain, events[k..]) == After(s, events)
    decreases |events|
  {
    var t := Step(s, events[0]);
    StepKeepsInv(s, events[0]);
    StepKeepsStreams(s, events[0]);
    FallbackReplaysNothing(s, events[0]);
    k := 1;
    if t.phase.Splicing? {
      var more := FallbackIsAPlainCopy(t, events[1..]);
      assert events[1..][more..] == events[more + 1..];
      k := more + 1;
    } else if t.phase.Finished? {
      assert false;
    }
  }

  /** Once committed, no later state of any run is a fallback. */
  lemma {:induction false} CommitForbidsFallback(s: Session, events: seq<Event>)
    requires Inv(s) && s.committed && IsRun(s, events)
    ensures !After(s, events).phase.Buffered?
  {
    RunKeepsInv(s, events);
    RunKeepsStreams(s, events);
  }

  // ---- progress

  function FlowWork(f: Flow): nat {
    if f.stage.Returned? then 0 else 2 * |f.unread| + |f.buffer| + 1
  }

  /** Steps left if no error or spurious wake-up intervenes. */
  function Work(s: Session): nat {
    FlowWork(s.up) + FlowWork(s.down)
  }

  predicate IsCooperative(e: Event) {
    match e.action
    case SourceMoved(_) => true
    case SourceEof(ok) => ok
    case DestinationMoved(n) => n > 0
    case CopyRead(_) => true
    case CopyWrite(_) => true
    case CopyEof => true
    case _ => false
  }

  lemma CooperationMakesProgress(s: Session, e: Event)
    requires Inv(s) && Enabled(s, e) && IsCooperative(e)
    ensures Work(Step(s, e)) < Work(s)
    ensures Step(s, e).phase == s.phase || Step(s, e).phase == Finished(true)
  {
  }

  /** A direction that is not done can always move if the kernel lets it. */
  function NextMove(f: Flow): Action {
    match f.stage
    case AwaitSource => if f.unread == [] then SourceEof(true) else SourceMoved(1)
    case AwaitDestination => DestinationMoved(1)
    case Copying => if f.buffer != [] then CopyWrite(1) else if f.unread != [] then CopyRead(1) else CopyEof
    case Returned(_) => WouldBlock
  }

  predicate Cooperates(events: seq<Event>) {
    forall i :: 0 <= i < |events| ==> IsCooperative(events[i])
  }

  ghost predicate IsStuck(s: Session) {
    forall e :: IsCooperative(e) ==> !Enabled(s, e)
  }

  lemma StuckMeansFinished(s: Session)
    requires Inv(s) && s.phase != Finished(false) && IsStuck(s)
    ensures s.phase == Finished(true)
  {
    var up := !s.up.stage.Returned?;
    var e := Event(up, NextMove(Side(s, up)));
    assert !(IsCooperative(e) && Enabled(s, e));
  }

  /** As long as the kernel cooperates the relay is bound to finish, whatever
      the interleaving: no run is longer than the work at hand, and one that
      cannot go on has delivered both streams whole. */
  lemma {:induction false} CooperativeRunsFinish(s: Session, events: seq<Event>)
    requires Inv(s) && s.phase != Finished(false) && IsRun(s, events) && Cooperates(events)
    ensures |events| + Work(After(s, events)) <= Work(s)
    ensures IsStuck(After(s, events)) ==> After(s, events).phase == Finished(true)
    decreases |events|
  {
    if events == [] {
      if IsStuck(s) {
        StuckMeansFinished(s);
      }
    } else {
      StepKeepsInv(s, events[0]);
      CooperationMakesProgress(s, events[0]);
      CooperativeRunsFinish(Step(s, events[0]), events[1..]);
    }
  }

  /** The relay never wedges: from every reachable unfinished state some
      continuation delivers both streams whole. */
  lemma {:induction false} CanAlwaysFinish(s: Session) returns (events: seq<Event>)
    requires Inv(s) && s.phase != Finished(false)
    ensures IsRun(s, events) && After(s, events).phase == Finished(true)
    decreases Work(s)
  {
    if s.phase == Finished(true) {
      return [];
    }
    var up := !s.up.stage.Returned?;
    var e := Event(up, NextMove(Side(s, up)));
    StepKeepsInv(s, e);
    CooperationMakesProgress(s, e);
    var rest := CanAlwaysFinish(Step(s, e));
    events := [e] + rest;
    assert events[1..] == rest;
  }
}
