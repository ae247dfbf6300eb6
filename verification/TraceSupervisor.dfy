/** The launch-time ptrace supervisor: a loop over a changing set of tracees,
    each polled for one kernel observation at a time.  The kernel is an
    adversary that may answer anything, except that a child it reports as new
    is not a task already being traced. */
module TraceSupervisor {
  import opened Common

  datatype Tracee = Tracee(parent: Option<Pid>, leader: bool, image: Option<nat>)

  datatype Kind =
    | Spawn
    | Exec
    | Exit(code: Option<int>, signal: Option<int>)
    | Loss

  datatype TraceEvent = TraceEvent(sequence: nat, pid: Pid, parent: Option<Pid>, kind: Kind, image: Option<nat>)

  /** What the caller is told, in order. */
  datatype Callback = Event(event: TraceEvent) | Completed

  datatype Supervisor = Supervisor(
    root: Pid,
    tracees: map<Pid, Tracee>,
    sequence: nat,
    exitCode: Option<int>,
    done: bool,
    tracerError: bool,
    told: seq<Callback>,
    stopped: set<Pid>,
    killed: set<Pid>)

  /** One `waitpid` on one tracee, with the answers to every system call the
      loop then makes about it. */
  datatype Observation =
    | NotReady
    | WaitError(noChild: bool)
    | Exited(code: int)
    | Signaled(signal: int)
    | OtherStatus
    | ForkStop(clone: bool, child: Option<Pid>, childGroup: Option<Pid>, parentGroup: Option<Pid>,
               continued: bool, childStops: bool, childContinued: bool)
    | ExecStop(image: Option<nat>, continued: bool)
    | ExitStop(continued: bool)
    | SignalStop(signal: int, continued: bool)

  function Launch(root: Pid, image: Option<nat>): Supervisor {
    Supervisor(root, map[root := Tracee(None, true, image)], 1, None, false, false, [], {}, {})
  }

  // ---- the loop's actions

  function EventFor(s: Supervisor, pid: Pid, t: Tracee, kind: Kind): Callback {
    Event(TraceEvent(s.sequence, pid, t.parent, kind, t.image))
  }

  function Tell(s: Supervisor, c: Callback): Supervisor {
    s.(told := s.told + [c])
  }

  function Emit(s: Supervisor, pid: Pid, t: Tracee, kind: Kind): Supervisor {
    Tell(s, EventFor(s, pid, t, kind)).(sequence := s.sequence + 1)
  }

  /** Fatal failure: report the loss, kill every tracee and the root, publish
      the error, and complete. */
  function Abort(s: Supervisor, pid: Pid): Supervisor {
    var parent := if pid in s.tracees then s.tracees[pid].parent else None;
    var lost := Tell(s, Event(TraceEvent(s.sequence, pid, parent, Loss, None)));
    var killed := s.tracees.Keys + {s.root};
    Tell(lost.(killed := s.killed + killed, stopped := s.stopped - killed, tracerError := true, done := true), Completed)
  }

  function FinishRoot(s: Supervisor, code: int): Supervisor {
    s.(exitCode := Some(code), done := true)
  }

  function Stop(s: Supervisor, pid: Pid): Supervisor {
    s.(stopped := s.stopped + {pid})
  }

  function Continue(s: Supervisor, pid: Pid): Supervisor {
    s.(stopped := s.stopped - {pid})
  }

  function ServiceExit(s: Supervisor, pid: Pid, code: Option<int>, signal: Option<int>): Supervisor
    requires pid in s.tracees
  {
    var t := s.tracees[pid];
    var gone := s.(tracees := s.tracees - {pid});
    if !t.leader then gone
    else if pid == s.root then
      FinishRoot(gone, if code.Some? then code.value else if signal.Some? then -signal.value else 0)
    else Emit(gone, pid, t, Exit(code, signal))
  }

  /** A fork, vfork or clone stop. */
  function ServiceFork(s: Supervisor, pid: Pid, o: Observation): Supervisor
    requires o.ForkStop? && pid in s.tracees
  {
    if o.child.None? then Abort(s, pid)
    else
      var child := o.child.value;
      if o.clone && o.childGroup.None? then
        Abort(s.(tracees := s.tracees[child := Tracee(None, true, None)]), child)
      else
        var leader := !o.clone || o.childGroup.value == child;
        var parent := if !leader then None else if o.parentGroup.Some? then o.parentGroup else Some(pid);
        ContinueBoth(s, pid, child, Tracee(parent, leader, None), o)
  }

  /** Parent and then child are continued, each if it lets itself. */
  function ContinueBoth(s: Supervisor, pid: Pid, child: Pid, t: Tracee, o: Observation): Supervisor
    requires o.ForkStop?
  {
    var added := s.(tracees := s.tracees[child := t]);
    if !o.continued then Abort(added, pid)
    else
      var running := Continue(added, pid);
      if !o.childStops then Abort(running, child)
      else
        var waiting := Stop(running, child);
        if !o.childContinued then Abort(waiting, child)
        else
          var both := Continue(waiting, child);
          if t.leader then Emit(both, child, t, Spawn) else both
  }

  function ServiceExec(s: Supervisor, pid: Pid, image: Option<nat>, continued: bool): Supervisor
    requires pid in s.tracees
  {
    var t := s.tracees[pid].(image := image);
    var updated := s.(tracees := s.tracees[pid := t]);
    if !continued then Abort(updated, pid)
    else
      var running := Continue(updated, pid);
      if t.leader then Emit(running, pid, t, Exec) else running
  }

  function Service(s: Supervisor, pid: Pid, o: Observation): Supervisor
    requires pid in s.tracees
  {
    match o
    case NotReady => s
    case OtherStatus => s
    case WaitError(noChild) =>
      if noChild && !s.tracees[pid].leader then s.(tracees := s.tracees - {pid}) else Abort(s, pid)
    case Exited(code) => ServiceExit(s, pid, Some(code), None)
    case Signaled(signal) => ServiceExit(s, pid, None, Some(signal))
    case ForkStop(_, _, _, _, _, _, _) => ServiceFork(Stop(s, pid), pid, o)
    case ExecStop(image, continued) => ServiceExec(Stop(s, pid), pid, image, continued)
    case ExitStop(continued) => if continued then Continue(Stop(s, pid), pid) else Abort(Stop(s, pid), pid)
    case SignalStop(_, continued) => if continued then Continue(Stop(s, pid), pid) else Abort(Stop(s, pid), pid)
  }

  predicate HasCompleted(s: Supervisor) {
    s.told != [] && s.told[|s.told| - 1].Completed?
  }

  /** One turn of the loop, or its normal end once no tracee is left. */
  datatype Turn = Poll(pid: Pid, seen: Observation) | End

  predicate Enabled(s: Supervisor, t: Turn) {
    && !HasCompleted(s)
    && match t
       case End => s.tracees == map[]
       case Poll(pid, o) =>
         && pid in s.tracees
         && (o.ForkStop? && o.child.Some? ==> o.child.value !in s.tracees)
  }

  function Take(s: Supervisor, t: Turn): Supervisor
    requires Enabled(s, t)
  {
    match t
    case End => Tell(s, Completed)
    case Poll(pid, o) => Service(s, pid, o)
  }

  ghost predicate IsRun(s: Supervisor, turns: seq<Turn>)
    decreases |turns|
  {
    turns == [] || (Enabled(s, turns[0]) && IsRun(Take(s, turns[0]), turns[1..]))
  }

  function After(s: Supervisor, turns: seq<Turn>): Supervisor
    requires IsRun(s, turns)
    decreases |turns|
  {
    if turns == [] then s else After(Take(s, turns[0]), turns[1..])
  }

  // ---- per-process shape of the log

  /** Where the log says a process is; `Broken` once the order was wrong. */
  datatype Life = Absent | Alive | Broken

  function Next(life: Life, k: Kind): Life {
    match (life, k)
    case (Absent, Spawn) => Alive
    case (Alive, Exec) => Alive
    case (Alive, Exit(_, _)) => Absent
    case (_, Loss) => life
    case _ => Broken
  }

  function LifeOf(told: seq<Callback>, pid: Pid): Life {
    if told == [] then Absent
    else
      var before := LifeOf(told[..|told| - 1], pid);
      match told[|told| - 1]
      case Completed => before
      case Event(e) => if e.pid == pid then Next(before, e.kind) else before
  }

  lemma LifeAppend(told: seq<Callback>, c: Callback, pid: Pid)
    ensures LifeOf(told + [c], pid)
         == if c.Event? && c.event.pid == pid then Next(LifeOf(told, pid), c.event.kind) else LifeOf(told, pid)
  {
    assert (told + [c])[..|told|] == told;
  }

  // ---- the invariant

  /** Callbacks so far: events numbered 1, 2, 3, ... with no loss yet. */
  ghost predicate Numbered(told: seq<Callback>) {
    forall i :: 0 <= i < |told| ==> told[i].Event? && told[i].event.sequence == i + 1 && !told[i].event.kind.Loss?
  }

  ghost predicate RootAccounted(s: Supervisor) {
    (s.done && s.exitCode.Some?) || (s.root in s.tracees && s.tracees[s.root].leader)
  }

  predicate IsLive(s: Supervisor, pid: Pid) {
    pid in s.tracees && s.tracees[pid].leader
  }

  ghost predicate LivesMatch(s: Supervisor) {
    forall pid :: pid != s.root ==> LifeOf(s.told, pid) == if IsLive(s, pid) then Alive else Absent
  }

  /** At the head of the loop. */
  ghost predicate Running(s: Supervisor) {
    && Numbered(s.told) && s.sequence == |s.told| + 1
    && RootAccounted(s) && !s.tracerError && (s.done ==> s.exitCode.Some?)
    && s.stopped == {} && s.killed == {}
    && LivesMatch(s)
  }

  /** After the loop returned: the last callback is the only completion, a
      loss can only be the event right before it, the root's state is final,
      and nothing observed to stop was left stopped and alive. */
  ghost predicate Ended(s: Supervisor) {
    && |s.told| >= 1 && s.told[|s.told| - 1].Completed?
    && (var events := s.told[..|s.told| - 1];
        && (forall i :: 0 <= i < |events| ==> events[i].Event? && events[i].event.sequence == i + 1)
        && (forall i :: 0 <= i < |events| - 1 ==> !events[i].event.kind.Loss?)
        && (s.tracerError <==> |events| > 0 && events[|events| - 1].event.kind.Loss?))
    && s.done && (s.exitCode.Some? || s.tracerError)
    && s.stopped == {}
    && (s.tracerError ==> s.tracees.Keys <= s.killed && s.root in s.killed)
    && (!s.tracerError ==> s.tracees == map[] && s.killed == {})
    && (forall pid :: pid != s.root ==> LifeOf(s.told, pid) != Broken)
  }

  /** A loop head at which the kernel may give this answer. */
  ghost predicate Serviceable(s: Supervisor, pid: Pid, o: Observation) {
    Running(s) && pid in s.tracees && (o.ForkStop? && o.child.Some? ==> o.child.value !in s.tracees)
  }

  ghost predicate Inv(s: Supervisor) {
    if HasCompleted(s) then Ended(s) else Running(s)
  }

  lemma LaunchInv(root: Pid, image: Option<nat>)
    ensures Running(Launch(root, image)) && Inv(Launch(root, image))
  {
  }

  lemma NumberedIsNotCompleted(s: Supervisor)
    requires Numbered(s.told)
    ensures !HasCompleted(s)
  {
  }

  /** Emitting the right event keeps the log in step with the tracee set. */
  lemma EmitKeepsRunning(s: Supervisor, s': Supervisor, pid: Pid, t: Tracee, kind: Kind)
    requires Running(s) && !kind.Loss?
    requires s'.root == s.root && s'.told == s.told && s'.sequence == s.sequence
    requires s'.exitCode == s.exitCode && s'.done == s.done && !s'.tracerError && s'.stopped == {} && s'.killed == {}
    requires RootAccounted(s')
    requires forall p :: p != pid ==> IsLive(s', p) == IsLive(s, p)
    requires pid != s.root ==>
               Next(if IsLive(s, pid) then Alive else Absent, kind) == if IsLive(s', pid) then Alive else Absent
    ensures Running(Emit(s', pid, t, kind))
  {
    var c := EventFor(s', pid, t, kind);
    forall p | p != s.root
      ensures LifeOf(s.told + [c], p) == if IsLive(s', p) then Alive else Absent
    {
      LifeAppend(s.told, c, p);
    }
    NumberedIsNotCompleted(s);
  }

  /** Changing the tracee set without a word keeps the log in step when no
      process leader comes or goes. */
  lemma QuietKeepsRunning(s: Supervisor, s': Supervisor)
    requires Running(s)
    requires s'.root == s.root && s'.told == s.told && s'.sequence == s.sequence
    requires !s'.tracerError && s'.stopped == {} && s'.killed == {} && (s'.done ==> s'.exitCode.Some?)
    requires RootAccounted(s')
    requires forall p :: p != s.root ==> IsLive(s', p) == IsLive(s, p)
    ensures Running(s')
  {
  }

  /** An intermediate point of a turn that began at `s`: nothing told yet, and
      only known tasks stopped. */
  ghost predicate MidTurn(s: Supervisor, s': Supervisor) {
    && s'.root == s.root && s'.told == s.told && s'.sequence == s.sequence
    && s'.killed == {} && s'.stopped <= s'.tracees.Keys + {s.root}
  }

  /** Aborting from any intermediate point of a turn ends the run properly. */
  lemma AbortEnds(s: Supervisor, s': Supervisor, pid: Pid)
    requires Running(s) && MidTurn(s, s')
    ensures Ended(Abort(s', pid))
  {
    var a := Abort(s', pid);
    var loss := a.told[|s.told|];
    assert a.told == s.told + [loss] + [Completed];
    assert a.told[..|a.told| - 1] == s.told + [loss];
    forall p | p != s.root
      ensures LifeOf(a.told, p) != Broken
    {
      LifeAppend(s.told, loss, p);
      LifeAppend(s.told + [loss], Completed, p);
    }
  }

  lemma ServiceExitKeepsInv(s: Supervisor, pid: Pid, code: Option<int>, signal: Option<int>)
    requires Running(s) && pid in s.tracees
    ensures Running(ServiceExit(s, pid, code, signal))
  {
    var t := s.tracees[pid];
    var gone := s.(tracees := s.tracees - {pid});
    if !t.leader {
      QuietKeepsRunning(s, gone);
    } else if pid == s.root {
      QuietKeepsRunning(s, ServiceExit(s, pid, code, signal));
    } else {
      EmitKeepsRunning(s, gone, pid, t, Exit(code, signal));
    }
  }

  lemma ServiceForkKeepsInv(s: Supervisor, pid: Pid, o: Observation)
    requires Running(s) && pid in s.tracees && o.ForkStop?
    requires o.child.Some? ==> o.child.value !in s.tracees
    ensures var r := ServiceFork(Stop(s, pid), pid, o); Running(r) || Ended(r)
  {
    var stopped := Stop(s, pid);
    if o.child.None? {
      AbortEnds(s, stopped, pid);
    } else {
      var child := o.child.value;
      if o.clone && o.childGroup.None? {
        AbortEnds(s, stopped.(tracees := s.tracees[child := Tracee(None, true, None)]), child);
      } else {
        ServiceNewChild(s, pid, o);
      }
    }
  }

  lemma ServiceNewChild(s: Supervisor, pid: Pid, o: Observation)
    requires Running(s) && pid in s.tracees && o.ForkStop?
    requires o.child.Some? && o.child.value !in s.tracees && !(o.clone && o.childGroup.None?)
    ensures var r := ServiceFork(Stop(s, pid), pid, o); Running(r) || Ended(r)
  {
    hide Ended, LivesMatch, Numbered, RootAccounted, Abort;
    var child := o.child.value;
    var leader := !o.clone || o.childGroup.value == child;
    var parent := if !leader then None else if o.parentGroup.Some? then o.parentGroup else Some(pid);
    var t := Tracee(parent, leader, None);
    var added := Stop(s, pid).(tracees := s.tracees[child := t]);
    var running := Continue(added, pid);
    if !o.continued {
      AbortEnds(s, added, pid);
    } else if !o.childStops {
      AbortEnds(s, running, child);
    } else if !o.childContinued {
      AbortEnds(s, Stop(running, child), child);
    } else {
      assert Continue(Stop(running, child), child).stopped == {};
      ChildRuns(s, Continue(Stop(running, child), child), child, t);
    }
  }

  lemma ChildRuns(s: Supervisor, s': Supervisor, child: Pid, t: Tracee)
    requires Running(s) && child !in s.tracees
    requires s' == s.(tracees := s.tracees[child := t])
    ensures Running(if t.leader then Emit(s', child, t, Spawn) else s')
  {
    if t.leader {
      EmitKeepsRunning(s, s', child, t, Spawn);
    } else {
      QuietKeepsRunning(s, s');
    }
  }

  lemma ServiceExecKeepsInv(s: Supervisor, pid: Pid, image: Option<nat>, continued: bool)
    requires Running(s) && pid in s.tracees
    ensures var r := ServiceExec(Stop(s, pid), pid, image, continued); Running(r) || Ended(r)
  {
    var t := s.tracees[pid].(image := image);
    var updated := Stop(s, pid).(tracees := s.tracees[pid := t]);
    if !continued {
      AbortEnds(s, updated, pid);
    } else {
      var running := Continue(updated, pid);
      assert running.stopped == {};
      if t.leader {
        EmitKeepsRunning(s, running, pid, t, Exec);
      } else {
        QuietKeepsRunning(s, running);
      }
    }
  }

  lemma TurnKeepsInv(s: Supervisor, t: Turn)
    requires Inv(s) && Enabled(s, t)
    ensures Inv(Take(s, t))
  {
    match t
    case End => EndKeepsInv(s);
    case Poll(pid, o) =>
      PollKeepsInv(s, pid, o);
      var r := Service(s, pid, o);
      if Running(r) {
        NumberedIsNotCompleted(r);
      }
  }

  lemma EndKeepsInv(s: Supervisor)
    requires Running(s) && s.tracees == map[]
    ensures Ended(Tell(s, Completed))
  {
    var r := Tell(s, Completed);
    assert r.told[..|r.told| - 1] == s.told;
    forall p | p != s.root
      ensures LifeOf(r.told, p) != Broken
    {
      LifeAppend(s.told, Completed, p);
    }
  }

  lemma PollKeepsInv(s: Supervisor, pid: Pid, o: Observation)
    requires Running(s) && Enabled(s, Poll(pid, o))
    ensures Running(Service(s, pid, o)) || Ended(Service(s, pid, o))
  {
    var stopped := Stop(s, pid);
    match o
    case NotReady =>
    case OtherStatus =>
    case WaitError(noChild) =>
      if noChild && !s.tracees[pid].leader {
        QuietKeepsRunning(s, s.(tracees := s.tracees - {pid}));
      } else {
        AbortEnds(s, s, pid);
      }
    case Exited(code) => ServiceExitKeepsInv(s, pid, Some(code), None);
    case Signaled(signal) => ServiceExitKeepsInv(s, pid, None, Some(signal));
    case ForkStop(_, _, _, _, _, _, _) => ServiceForkKeepsInv(s, pid, o);
    case ExecStop(image, continued) => ServiceExecKeepsInv(s, pid, image, continued);
    case ExitStop(continued) => ServicePlainStop(s, pid, continued);
    case SignalStop(_, continued) => ServicePlainStop(s, pid, continued);
  }

  lemma ServicePlainStop(s: Supervisor, pid: Pid, continued: bool)
    requires Running(s) && pid in s.tracees
    ensures continued ==> Running(Continue(Stop(s, pid), pid))
    ensures !continued ==> Ended(Abort(Stop(s, pid), pid))
  {
    if continued {
      assert Continue(Stop(s, pid), pid) == s;
    } else {
      AbortEnds(s, Stop(s, pid), pid);
    }
  }

  lemma {:induction false} RunKeepsInv(s: Supervisor, turns: seq<Turn>)
    requires Inv(s) && IsRun(s, turns)
    ensures Inv(After(s, turns))
    decreases |turns|
  {
    if turns != [] {
      TurnKeepsInv(s, turns[0]);
      RunKeepsInv(Take(s, turns[0]), turns[1..]);
    }
  }

  // ---- what every run promises

  /** Numbers without gaps, a single loss at most and nothing but completion
      after it, every process's events in order. */
  ghost predicate WellFormedLog(told: seq<Callback>, root: Pid) {
    && (forall i :: 0 <= i < |told| && told[i].Event? ==> told[i].event.sequence == i + 1)
    && (forall i :: 0 <= i < |told| && told[i].Completed? ==> i == |told| - 1)
    && (forall i :: 0 <= i < |told| && told[i].Event? && told[i].event.kind.Loss? ==>
          i + 2 == |told| && told[i + 1].Completed?)
    && (forall pid :: pid != root ==> LifeOf(told, pid) != Broken)
  }

  lemma RunningLog(s: Supervisor)
    requires Running(s)
    ensures WellFormedLog(s.told, s.root)
  {
    hide LifeOf;
  }

  lemma EndedLog(s: Supervisor)
    requires Ended(s)
    ensures WellFormedLog(s.told, s.root)
  {
    hide LifeOf, TryWait;
    var events := s.told[..|s.told| - 1];
    assert forall i :: 0 <= i < |events| ==> s.told[i] == events[i];
  }

  /** The event log of any run of any length. */
  lemma LogIsWellFormed(root: Pid, image: Option<nat>, turns: seq<Turn>)
    requires IsRun(Launch(root, image), turns)
    ensures WellFormedLog(After(Launch(root, image), turns).told, root)
  {
    hide Running, Ended, WellFormedLog, IsRun, After;
    LaunchInv(root, image);
    RunKeepsInv(Launch(root, image), turns);
    RootStays(Launch(root, image), turns);
    var s := After(Launch(root, image), turns);
    if HasCompleted(s) {
      EndedLog(s);
    } else {
      RunningLog(s);
    }
  }

  /** No observed stop is left unserviced; an abort has killed every tracee and
      the root; completion comes with the root's fate known. */
  ghost predicate NotWedged(s: Supervisor) {
    && s.stopped == {}
    && (s.tracerError ==> HasCompleted(s) && s.tracees.Keys <= s.killed && s.root in s.killed)
    && (HasCompleted(s) ==> s.done && TryWait(s) != Ok(None))
    && (s.tracees == map[] && !HasCompleted(s) ==> Enabled(s, End))
  }

  /** Supervision never wedges, between any two turns of any run. */
  lemma SupervisionNeverWedges(root: Pid, image: Option<nat>, turns: seq<Turn>)
    requires IsRun(Launch(root, image), turns)
    ensures NotWedged(After(Launch(root, image), turns))
  {
    LaunchInv(root, image);
    RunKeepsInv(Launch(root, image), turns);
  }

  datatype Waited = Ok(code: Option<int>) | Err

  /** The root handle's view of the shared state. */
  function TryWait(s: Supervisor): Waited {
    if s.tracerError then Err else Ok(s.exitCode)
  }

  // ---- a process whose id is not reused has exactly one life

  function KindsOf(told: seq<Callback>, pid: Pid): seq<Kind> {
    if told == [] then []
    else
      var before := KindsOf(told[..|told| - 1], pid);
      match told[|told| - 1]
      case Completed => before
      case Event(e) => if e.pid == pid && !e.kind.Loss? then before + [e.kind] else before
  }

  function Spawns(kinds: seq<Kind>): nat {
    if kinds == [] then 0 else Spawns(kinds[..|kinds| - 1]) + (if kinds[|kinds| - 1].Spawn? then 1 else 0)
  }

  /** Spawn, then any number of Execs, then perhaps one Exit. */
  ghost predicate IsOneLife(kinds: seq<Kind>, alive: bool) {
    && kinds != [] && kinds[0].Spawn?
    && (forall i :: 0 < i < |kinds| - 1 ==> kinds[i].Exec?)
    && (|kinds| > 1 ==> kinds[|kinds| - 1].Exec? || kinds[|kinds| - 1].Exit?)
    && (alive <==> !kinds[|kinds| - 1].Exit?)
  }

  lemma {:induction false} OneSpawnOneLife(told: seq<Callback>, pid: Pid)
    requires LifeOf(told, pid) != Broken && Spawns(KindsOf(told, pid)) <= 1
    ensures KindsOf(told, pid) == [] ==> LifeOf(told, pid) == Absent
    ensures KindsOf(told, pid) != [] ==> IsOneLife(KindsOf(told, pid), LifeOf(told, pid) == Alive)
    ensures Spawns(KindsOf(told, pid)) == if KindsOf(told, pid) == [] then 0 else 1
    decreases |told|
  {
    if told != [] {
      var init, last := told[..|told| - 1], told[|told| - 1];
      if last.Event? && last.event.pid == pid && !last.event.kind.Loss? {
        var kinds := KindsOf(init, pid);
        assert (kinds + [last.event.kind])[..|kinds|] == kinds;
        OneSpawnOneLife(init, pid);
      } else {
        OneSpawnOneLife(init, pid);
      }
    }
  }

  /** The children the kernel reported over a run. */
  function Reported(turns: seq<Turn>): seq<Pid> {
    if turns == [] then []
    else
      var rest := Reported(turns[1..]);
      if turns[0].Poll? && turns[0].seen.ForkStop? && turns[0].seen.child.Some?
      then [turns[0].seen.child.value] + rest else rest
  }

  ghost predicate ReportsEachOnce(turns: seq<Turn>) {
    forall i, j :: 0 <= i < j < |Reported(turns)| ==> Reported(turns)[i] != Reported(turns)[j]
  }

  /** No event at all, or one life. */
  ghost predicate LivesOnce(told: seq<Callback>, pid: Pid) {
    KindsOf(told, pid) == [] || IsOneLife(KindsOf(told, pid), LifeOf(told, pid) == Alive)
  }

  lemma KindsAppend(told: seq<Callback>, c: Callback, pid: Pid)
    ensures KindsOf(told + [c], pid)
         == if c.Event? && c.event.pid == pid && !c.event.kind.Loss?
            then KindsOf(told, pid) + [c.event.kind] else KindsOf(told, pid)
    ensures Spawns(KindsOf(told + [c], pid))
         == Spawns(KindsOf(told, pid)) + if c.Event? && c.event.pid == pid && c.event.kind.Spawn? then 1 else 0
  {
    assert (told + [c])[..|told|] == told;
    if c.Event? && c.event.pid == pid && !c.event.kind.Loss? {
      var kinds := KindsOf(told, pid);
      assert (kinds + [c.event.kind])[..|kinds|] == kinds;
    }
  }

  /** At most two callbacks were added, and a Spawn only first and only for
      the given child. */
  ghost predicate Adds(before: seq<Callback>, after: seq<Callback>, child: Option<Pid>) {
    && |before| <= |after| <= |before| + 2 && after[..|before|] == before
    && (forall i :: |before| <= i < |after| && after[i].Event? && after[i].event.kind.Spawn? ==>
          i == |before| && child == Some(after[i].event.pid))
  }

  lemma AbortAdds(before: seq<Callback>, child: Option<Pid>)
    ensures forall s: Supervisor, pid :: s.told == before ==> Adds(before, Abort(s, pid).told, child)
    ensures Adds(before, before, child)
  {
  }

  lemma EmitAdds(before: seq<Callback>, child: Option<Pid>)
    ensures forall s: Supervisor, t :: s.told == before && child.Some? ==>
              Adds(before, Emit(s, child.value, t, Spawn).told, child)
  {
  }

  lemma OtherEmitAdds(before: seq<Callback>, child: Option<Pid>)
    ensures forall s: Supervisor, pid, t, kind: Kind :: s.told == before && !kind.Spawn? ==>
              Adds(before, Emit(s, pid, t, kind).told, child)
  {
  }

  lemma ForkAdds(s: Supervisor, pid: Pid, o: Observation)
    requires o.ForkStop? && pid in s.tracees
    ensures Adds(s.told, ServiceFork(s, pid, o).told, o.child)
  {
    hide Abort, Adds;
    AbortAdds(s.told, o.child);
    EmitAdds(s.told, o.child);
  }

  lemma PollAdds(s: Supervisor, pid: Pid, o: Observation)
    requires pid in s.tracees
    ensures Adds(s.told, Service(s, pid, o).told, if o.ForkStop? then o.child else None)
  {
    hide Abort, Adds, ServiceFork, Emit;
    if o.ForkStop? {
      ForkAdds(Stop(s, pid), pid, o);
    } else {
      AbortAdds(s.told, None);
      OtherEmitAdds(s.told, None);
    }
  }

  /** A turn adds a Spawn only for the child just reported. */
  lemma TurnSpawns(s: Supervisor, t: Turn, pid: Pid)
    requires Enabled(s, t)
    ensures var reports := t.Poll? && t.seen.ForkStop? && t.seen.child == Some(pid);
            Spawns(KindsOf(Take(s, t).told, pid)) <= Spawns(KindsOf(s.told, pid)) + if reports then 1 else 0
  {
    if t.Poll? {
      PollAdds(s, t.pid, t.seen);
      AddedSpawns(s.told, Take(s, t).told, if t.seen.ForkStop? then t.seen.child else None, pid);
    } else {
      KindsAppend(s.told, Completed, pid);
    }
  }

  lemma AddedSpawns(before: seq<Callback>, after: seq<Callback>, child: Option<Pid>, pid: Pid)
    requires Adds(before, after, child)
    ensures Spawns(KindsOf(after, pid)) <= Spawns(KindsOf(before, pid)) + if child == Some(pid) then 1 else 0
  {
    if |after| == |before| {
      assert after == before;
    } else {
      var first := after[|before|];
      KindsAppend(before, first, pid);
      if |after| == |before| + 1 {
        assert after == before + [first];
      } else {
        var second := after[|before| + 1];
        assert after == (before + [first]) + [second];
        KindsAppend(before + [first], second, pid);
      }
    }
  }

  lemma {:induction false} RunSpawns(s: Supervisor, turns: seq<Turn>, pid: Pid)
    requires IsRun(s, turns) && ReportsEachOnce(turns)
    ensures pid !in Reported(turns) ==> Spawns(KindsOf(After(s, turns).told, pid)) <= Spawns(KindsOf(s.told, pid))
    ensures Spawns(KindsOf(After(s, turns).told, pid)) <= Spawns(KindsOf(s.told, pid)) + 1
    decreases |turns|
  {
    if turns != [] {
      var all, rest := Reported(turns), Reported(turns[1..]);
      TurnSpawns(s, turns[0], pid);
      if all != rest {
        assert all == [turns[0].seen.child.value] + rest;
        assert all[1..] == rest;
        forall i, j | 0 <= i < j < |rest|
          ensures rest[i] != rest[j]
        {
          assert rest[i] == all[i + 1] && rest[j] == all[j + 1];
        }
        forall j | 0 <= j < |rest|
          ensures rest[j] != all[0]
        {
          assert rest[j] == all[j + 1];
        }
      }
      RunSpawns(Take(s, turns[0]), turns[1..], pid);
    }
  }

  /** When the kernel reports every child under a fresh id, each process other
      than the root shows as Spawn Exec* Exit?, with at most one Exit. */
  lemma FreshProcessesLiveOnce(root: Pid, image: Option<nat>, turns: seq<Turn>, pid: Pid)
    requires IsRun(Launch(root, image), turns) && pid != root && ReportsEachOnce(turns)
    ensures LivesOnce(After(Launch(root, image), turns).told, pid)
  {
    LaunchInv(root, image);
    RunKeepsInv(Launch(root, image), turns);
    RootStays(Launch(root, image), turns);
    RunSpawns(Launch(root, image), turns, pid);
    OneSpawnOneLife(After(Launch(root, image), turns).told, pid);
  }

  lemma ForkKeepsRoot(s: Supervisor, pid: Pid, o: Observation)
    requires o.ForkStop? && pid in s.tracees
    ensures ServiceFork(s, pid, o).root == s.root
  {
  }

  lemma TakeKeepsRoot(s: Supervisor, t: Turn)
    requires Enabled(s, t)
    ensures Take(s, t).root == s.root
  {
    hide ServiceFork;
    if t.Poll? && t.seen.ForkStop? {
      ForkKeepsRoot(Stop(s, t.pid), t.pid, t.seen);
    }
  }

  lemma {:induction false} RootStays(s: Supervisor, turns: seq<Turn>)
    requires IsRun(s, turns)
    ensures After(s, turns).root == s.root
    decreases |turns|
  {
    if turns != [] {
      TakeKeepsRoot(s, turns[0]);
      RootStays(Take(s, turns[0]), turns[1..]);
    }
  }

  // ---- what is told, in terms of what was observed

  /** The last event about a process, losses aside. */
  function LastOf(told: seq<Callback>, pid: Pid): Option<TraceEvent> {
    if told == [] then None
    else
      match told[|told| - 1]
      case Event(e) => if e.pid == pid && !e.kind.Loss? then Some(e) else LastOf(told[..|told| - 1], pid)
      case Completed => LastOf(told[..|told| - 1], pid)
  }

  lemma LastAppend(told: seq<Callback>, c: Callback, pid: Pid)
    ensures LastOf(told + [c], pid)
         == if c.Event? && c.event.pid == pid && !c.event.kind.Loss? then Some(c.event) else LastOf(told, pid)
  {
    assert (told + [c])[..|told|] == told;
  }

  /** A process that the log shows as alive is told about with the parent, and
      until an Exec with the image, it was last told about with. */
  ghost predicate GoesOn(told: seq<Callback>, e: TraceEvent) {
    LifeOf(told, e.pid) == Alive && LastOf(told, e.pid).Some? && e.parent == LastOf(told, e.pid).value.parent
  }

  /** `e` is what the observation `o` of `pid` has to say after `told`. */
  ghost predicate Reports(told: seq<Callback>, root: Pid, reused: bool, pid: Pid, o: Observation, e: TraceEvent) {
    match e.kind
    case Exit(code, signal) =>
      && e.pid == pid && pid != root && GoesOn(told, e) && e.image == LastOf(told, pid).value.image
      && (|| (o.Exited? && code == Some(o.code) && signal == None)
          || (o.Signaled? && code == None && signal == Some(o.signal)))
    case Exec =>
      e.pid == pid && o.ExecStop? && o.continued && e.image == o.image && (if pid == root then !reused else GoesOn(told, e))
    case Spawn =>
      && o.ForkStop? && o.child == Some(e.pid) && (o.clone ==> o.childGroup == Some(e.pid))
      && o.continued && o.childStops && o.childContinued
      && e.parent == (if o.parentGroup.Some? then o.parentGroup else Some(pid)) && e.image == None
    case Loss => false
  }

  /** Whether, after a turn, the root's id is that of a thread: only if it was
      reported once more, as that of a new thread. */
  ghost predicate IsReused(root: Pid, reused: bool, t: Turn) {
    if t.Poll? && t.seen.ForkStop? && t.seen.child == Some(root)
    then t.seen.clone && t.seen.childGroup != Some(root) else reused
  }

  /** No process of that id can be told about. */
  ghost predicate IsUntold(told: seq<Callback>, root: Pid, reused: bool, pid: Pid) {
    if pid == root then reused else LifeOf(told, pid) == Absent
  }

  /** Nothing is told: no news, news of a thread, or the end of the root. */
  ghost predicate IsQuiet(told: seq<Callback>, root: Pid, reused: bool, pid: Pid, o: Observation) {
    match o
    case NotReady => true
    case OtherStatus => true
    case WaitError(noChild) => noChild && IsUntold(told, root, reused, pid)
    case Exited(_) => pid == root || IsUntold(told, root, reused, pid)
    case Signaled(_) => pid == root || IsUntold(told, root, reused, pid)
    case ForkStop(clone, child, group, _, continued, childStops, childContinued) =>
      clone && child.Some? && group.Some? && group != child && continued && childStops && childContinued
    case ExecStop(_, continued) => continued && IsUntold(told, root, reused, pid)
    case ExitStop(continued) => continued
    case SignalStop(_, continued) => continued
  }

  /** A system call about a tracee failed. */
  ghost predicate IsFatal(told: seq<Callback>, root: Pid, reused: bool, pid: Pid, o: Observation) {
    match o
    case WaitError(noChild) => !noChild || !IsUntold(told, root, reused, pid)
    case ForkStop(clone, child, group, _, continued, childStops, childContinued) =>
      child.None? || (clone && group.None?) || !continued || !childStops || !childContinued
    case ExecStop(_, continued) => !continued
    case ExitStop(continued) => !continued
    case SignalStop(_, continued) => !continued
    case _ => false
  }

  /** A loss, about the tracee or its new child, and then completion. */
  ghost predicate IsLoss(pid: Pid, o: Observation, added: seq<Callback>) {
    && |added| == 2 && added[1].Completed? && added[0].Event? && added[0].event.kind.Loss?
    && (added[0].event.pid == pid || (o.ForkStop? && o.child == Some(added[0].event.pid)))
  }

  /** `added` is what the turn `t` has to say after `told`. */
  ghost predicate Tells(told: seq<Callback>, root: Pid, reused: bool, t: Turn, added: seq<Callback>) {
    match t
    case End => added == [Completed]
    case Poll(pid, o) =>
      || (added == [] && IsQuiet(told, root, reused, pid, o))
      || (|added| == 1 && added[0].Event? && Reports(told, root, reused, pid, o, added[0].event))
      || (IsLoss(pid, o, added) && IsFatal(told, root, reused, pid, o))
  }

  /** `final` goes on from `told` by what each turn in order has to say. */
  ghost predicate Narrates(told: seq<Callback>, root: Pid, reused: bool, turns: seq<Turn>, final: seq<Callback>)
    decreases |turns|
  {
    if turns == [] then final == told
    else
      exists k ::
        && |told| <= k <= |final| && final[..|told|] == told
        && Tells(told, root, reused, turns[0], final[|told|..k])
        && Narrates(final[..k], root, IsReused(root, reused, turns[0]), turns[1..], final)
  }

  /** The tracee set agrees with what was last told. */
  ghost predicate Remembers(s: Supervisor, reused: bool) {
    && (forall p :: p != s.root && IsLive(s, p) ==>
          && LastOf(s.told, p).Some?
          && LastOf(s.told, p).value.parent == s.tracees[p].parent
          && LastOf(s.told, p).value.image == s.tracees[p].image)
    && (s.root in s.tracees ==> s.tracees[s.root].leader == !reused)
  }

  lemma EmitRemembers(s: Supervisor, s': Supervisor, pid: Pid, t: Tracee, kind: Kind, reused: bool)
    requires Remembers(s, reused) && !kind.Loss? && s'.told == s.told && s'.root == s.root
    requires forall p :: p != pid && p in s'.tracees ==> p in s.tracees && s'.tracees[p] == s.tracees[p]
    requires pid in s'.tracees ==> s'.tracees[pid] == t && (pid == s.root ==> t.leader == !reused)
    ensures Remembers(Emit(s', pid, t, kind), reused)
  {
    var c := EventFor(s', pid, t, kind);
    forall p ensures LastOf(s.told + [c], p) == if p == pid then Some(c.event) else LastOf(s.told, p) {
      LastAppend(s.told, c, p);
    }
  }

  lemma ExitTells(s: Supervisor, pid: Pid, o: Observation, reused: bool)
    requires Running(s) && Remembers(s, reused) && pid in s.tracees && (o.Exited? || o.Signaled?)
    ensures TurnIsTold(s, Poll(pid, o), Service(s, pid, o), reused)
  {
    hide LifeOf, LastOf, Numbered;
    var t := s.tracees[pid];
    var gone := s.(tracees := s.tracees - {pid});
    var kind := if o.Exited? then Exit(Some(o.code), None) else Exit(None, Some(o.signal));
    assert LifeOf(s.told, pid) == (if IsLive(s, pid) then Alive else Absent) || pid == s.root;
    if t.leader && pid != s.root {
      EmitRemembers(s, gone, pid, t, kind, reused);
      assert (s.told + [EventFor(gone, pid, t, kind)])[|s.told|..] == [EventFor(gone, pid, t, kind)];
    }
  }

  /** What the turn from `s` to `s'` told is what it has to say, and if the
      loop goes on the tracee set still agrees with the log. */
  ghost predicate TurnIsTold(s: Supervisor, t: Turn, s': Supervisor, reused: bool) {
    && |s.told| <= |s'.told| && s'.told[..|s.told|] == s.told
    && Tells(s.told, s.root, reused, t, s'.told[|s.told|..])
    && (HasCompleted(s') || Remembers(s', IsReused(s.root, reused, t)))
  }

  lemma AbortIsTold(s: Supervisor, s': Supervisor, pid: Pid, o: Observation, about: Pid, reused: bool)
    requires s'.told == s.told && IsFatal(s.told, s.root, reused, pid, o)
    requires about == pid || (o.ForkStop? && o.child == Some(about))
    ensures TurnIsTold(s, Poll(pid, o), Abort(s', about), reused)
  {
    var a := Abort(s', about);
    assert a.told[|s.told|..] == [a.told[|s.told|], Completed];
  }

  lemma ExecTells(s: Supervisor, pid: Pid, o: Observation, reused: bool)
    requires Running(s) && Remembers(s, reused) && pid in s.tracees && o.ExecStop?
    ensures TurnIsTold(s, Poll(pid, o), Service(s, pid, o), reused)
  {
    hide LifeOf, LastOf, Numbered, Abort, Remembers;
    var t := s.tracees[pid].(image := o.image);
    var updated := Stop(s, pid).(tracees := s.tracees[pid := t]);
    assert LifeOf(s.told, pid) == (if IsLive(s, pid) then Alive else Absent) || pid == s.root;
    if !o.continued {
      AbortIsTold(s, updated, pid, o, pid, reused);
    } else {
      ExecRemembers(s, Continue(updated, pid), pid, t, reused);
      var c := EventFor(Continue(updated, pid), pid, t, Exec);
      assert (s.told + [c])[|s.told|..] == [c];
    }
  }

  lemma ExecRemembers(s: Supervisor, s': Supervisor, pid: Pid, t: Tracee, reused: bool)
    requires Remembers(s, reused) && pid in s.tracees && s'.told == s.told && s'.root == s.root
    requires s'.tracees == s.tracees[pid := t] && t == s.tracees[pid].(image := t.image)
    ensures Remembers(if t.leader then Emit(s', pid, t, Exec) else s', reused)
    ensures pid != s.root && t.leader ==> LastOf(s.told, pid).Some? && LastOf(s.told, pid).value.parent == t.parent
    ensures pid == s.root ==> t.leader == !reused
  {
    hide LastOf;
    if t.leader {
      EmitRemembers(s, s', pid, t, Exec, reused);
    }
  }

  lemma ForkTells(s: Supervisor, pid: Pid, o: Observation, reused: bool)
    requires Serviceable(s, pid, o) && Remembers(s, reused) && o.ForkStop?
    ensures TurnIsTold(s, Poll(pid, o), Service(s, pid, o), reused)
  {
    hide LifeOf, LastOf, Numbered, Abort, Remembers, Running, TurnIsTold;
    var stopped := Stop(s, pid);
    if o.child.None? {
      AbortIsTold(s, stopped, pid, o, pid, reused);
    } else {
      var child := o.child.value;
      if o.clone && o.childGroup.None? {
        AbortIsTold(s, stopped.(tracees := s.tracees[child := Tracee(None, true, None)]), pid, o, child, reused);
      } else {
        var leader := !o.clone || o.childGroup.value == child;
        var parent := if !leader then None else if o.parentGroup.Some? then o.parentGroup else Some(pid);
        ChildIsTold(s, pid, o, Tracee(parent, leader, None), reused);
      }
    }
  }

  lemma ChildIsTold(s: Supervisor, pid: Pid, o: Observation, t: Tracee, reused: bool)
    requires Serviceable(s, pid, o) && Remembers(s, reused) && o.ForkStop? && o.child.Some?
    requires !(o.clone && o.childGroup.None?)
    requires t.leader == (!o.clone || o.childGroup == o.child) && t.image == None
    requires t.leader ==> t.parent == if o.parentGroup.Some? then o.parentGroup else Some(pid)
    ensures TurnIsTold(s, Poll(pid, o), ContinueBoth(Stop(s, pid), pid, o.child.value, t, o), reused)
  {
    hide LifeOf, LastOf, Numbered, Abort, Remembers, Running;
    var child := o.child.value;
    var added := Stop(s, pid).(tracees := s.tracees[child := t]);
    var running := Continue(added, pid);
    if !o.continued {
      AbortIsTold(s, added, pid, o, pid, reused);
    } else if !o.childStops {
      AbortIsTold(s, running, pid, o, child, reused);
    } else if !o.childContinued {
      AbortIsTold(s, Stop(running, child), pid, o, child, reused);
    } else {
      var both := Continue(Stop(running, child), child);
      NewChildIsRemembered(s, pid, o, reused);
      ChildIsRemembered(s, both, child, t, IsReused(s.root, reused, Poll(pid, o)));
      var c := EventFor(both, child, t, Spawn);
      assert (s.told + [c])[|s.told|..] == [c];
    }
  }

  lemma ChildIsRemembered(s: Supervisor, s': Supervisor, child: Pid, t: Tracee, reused: bool)
    requires Remembers(s, reused) && child !in s.tracees && s'.told == s.told && s'.root == s.root
    requires s'.tracees == s.tracees[child := t] && (child == s.root ==> t.leader == !reused)
    ensures Remembers(if t.leader then Emit(s', child, t, Spawn) else s', reused)
  {
    hide LastOf;
    if t.leader {
      EmitRemembers(s, s', child, t, Spawn, reused);
    }
  }

  lemma NewChildIsRemembered(s: Supervisor, pid: Pid, o: Observation, reused: bool)
    requires Serviceable(s, pid, o) && Remembers(s, reused)
    ensures Remembers(s, IsReused(s.root, reused, Poll(pid, o)))
  {
    hide LastOf, Running;
  }

  lemma OtherTells(s: Supervisor, pid: Pid, o: Observation, reused: bool)
    requires Running(s) && Remembers(s, reused) && pid in s.tracees
    requires o.NotReady? || o.OtherStatus? || o.WaitError? || o.ExitStop? || o.SignalStop?
    ensures TurnIsTold(s, Poll(pid, o), Service(s, pid, o), reused)
  {
    hide LifeOf, LastOf, Numbered, Abort;
    assert LifeOf(s.told, pid) == (if IsLive(s, pid) then Alive else Absent) || pid == s.root;
    if IsFatal(s.told, s.root, reused, pid, o) {
      AbortIsTold(s, s, pid, o, pid, reused);
      AbortIsTold(s, Stop(s, pid), pid, o, pid, reused);
    }
  }

  lemma TurnTells(s: Supervisor, t: Turn, reused: bool)
    requires Running(s) && Remembers(s, reused) && Enabled(s, t)
    ensures TurnIsTold(s, t, Take(s, t), reused)
  {
    hide Running, Remembers, Service, TurnIsTold;
    match t
    case End => EndIsTold(s, reused);
    case Poll(pid, o) =>
      match o
      case Exited(_) => ExitTells(s, pid, o, reused);
      case Signaled(_) => ExitTells(s, pid, o, reused);
      case ForkStop(_, _, _, _, _, _, _) => ForkTells(s, pid, o, reused);
      case ExecStop(_, _) => ExecTells(s, pid, o, reused);
      case _ => OtherTells(s, pid, o, reused);
  }

  lemma EndIsTold(s: Supervisor, reused: bool)
    ensures TurnIsTold(s, End, Tell(s, Completed), reused)
  {
    assert (s.told + [Completed])[|s.told|..] == [Completed];
  }

  lemma {:induction false} RunIsNarrated(s: Supervisor, turns: seq<Turn>, reused: bool)
    requires Running(s) && Remembers(s, reused) && IsRun(s, turns)
    ensures Narrates(s.told, s.root, reused, turns, After(s, turns).told) && s.told <= After(s, turns).told
    decreases |turns|
  {
    hide Running, Ended, Remembers, Tells, Take, IsReused, Enabled;
    if turns != [] {
      var next, rest := Take(s, turns[0]), turns[1..];
      var reused' := IsReused(s.root, reused, turns[0]);
      TurnTells(s, turns[0], reused);
      RunningOrEnded(s, turns[0]);
      TakeKeepsRoot(s, turns[0]);
      if HasCompleted(next) {
        NothingAfterCompletion(next, rest);
        assert Narrates(next.told, s.root, reused', rest, next.told);
      } else {
        RunIsNarrated(next, rest, reused');
      }
      var final := After(s, turns).told;
      assert final == After(next, rest).told;
      assert final[..|next.told|] == next.told;
      assert final[..|s.told|] == s.told;
      assert final[|s.told|..|next.told|] == next.told[|s.told|..];
      assert Tells(s.told, s.root, reused, turns[0], final[|s.told|..|next.told|]);
    }
  }

  lemma RunningOrEnded(s: Supervisor, t: Turn)
    requires Running(s) && Enabled(s, t)
    ensures HasCompleted(Take(s, t)) || Running(Take(s, t))
  {
    hide Running, Ended, Take;
    TurnKeepsInv(s, t);
  }

  lemma NothingAfterCompletion(s: Supervisor, turns: seq<Turn>)
    requires IsRun(s, turns) && HasCompleted(s)
    ensures turns == []
  {
  }

  /** The log of any run is what its turns have to say, turn by turn: each Exit
      with the code or signal observed, each Exec with the image read, each
      Spawn with the reported parent, and nothing else. */
  lemma LogIsNarrated(root: Pid, image: Option<nat>, turns: seq<Turn>)
    requires IsRun(Launch(root, image), turns)
    ensures Narrates([], root, false, turns, After(Launch(root, image), turns).told)
  {
    hide Narrates;
    LaunchInv(root, image);
    RunIsNarrated(Launch(root, image), turns, false);
  }

  // ---- the root's fate

  /** The exit code an observation stands for. */
  ghost function EndCode(o: Observation): Option<int> {
    match o
    case Exited(code) => Some(code)
    case Signaled(signal) => Some(-signal)
    case _ => None
  }

  ghost predicate EndsRoot(root: Pid, t: Turn) {
    t.Poll? && t.pid == root && EndCode(t.seen).Some?
  }

  /** Whether the root's id is that of a thread after the given turns. */
  ghost predicate IsReusedAfter(root: Pid, past: seq<Turn>) {
    past != [] && IsReused(root, IsReusedAfter(root, past[..|past| - 1]), past[|past| - 1])
  }

  /** While its id is not that of a thread, the root is a leader. */
  ghost predicate RootLeads(s: Supervisor, reused: bool) {
    s.root in s.tracees ==> s.tracees[s.root].leader == !reused
  }

  lemma ForkKeepsCode(s: Supervisor, pid: Pid, o: Observation, reused: bool)
    requires o.ForkStop? && pid in s.tracees
    ensures var r := ServiceFork(s, pid, o);
            && r.exitCode == s.exitCode && r.root == s.root
            && (RootLeads(s, reused) ==> HasCompleted(r) || RootLeads(r, IsReused(s.root, reused, Poll(pid, o))))
  {
    hide Abort, HasCompleted, ContinueBoth;
    AbortKeepsCode();
    if o.child.Some? && !(o.clone && o.childGroup.None?) {
      var child := o.child.value;
      var leader := !o.clone || o.childGroup.value == child;
      var parent := if !leader then None else if o.parentGroup.Some? then o.parentGroup else Some(pid);
      ContinuingKeepsCode(s, pid, child, Tracee(parent, leader, None), o);
    }
  }

  lemma AbortKeepsCode()
    ensures forall s: Supervisor, pid ::
              var r := Abort(s, pid); r.exitCode == s.exitCode && r.root == s.root && HasCompleted(r)
  {
  }

  lemma ContinuingKeepsCode(s: Supervisor, pid: Pid, child: Pid, t: Tracee, o: Observation)
    requires o.ForkStop?
    ensures var r := ContinueBoth(s, pid, child, t, o);
            r.exitCode == s.exitCode && r.root == s.root && (HasCompleted(r) || r.tracees == s.tracees[child := t])
  {
    hide Abort, HasCompleted;
    AbortKeepsCode();
  }

  lemma ExecKeepsCode(s: Supervisor, pid: Pid, image: Option<nat>, continued: bool, reused: bool)
    requires pid in s.tracees
    ensures var r := ServiceExec(s, pid, image, continued);
            && r.exitCode == s.exitCode && r.root == s.root
            && (RootLeads(s, reused) ==> HasCompleted(r) || RootLeads(r, reused))
  {
    hide Abort, HasCompleted;
    AbortKeepsCode();
  }

  lemma TurnSetsCode(s: Supervisor, t: Turn, reused: bool)
    requires Enabled(s, t) && RootLeads(s, reused)
    ensures Take(s, t).exitCode == if EndsRoot(s.root, t) && !reused then EndCode(t.seen) else s.exitCode
    ensures HasCompleted(Take(s, t)) || RootLeads(Take(s, t), IsReused(s.root, reused, t))
  {
    hide ServiceFork, ServiceExec, HasCompleted, Abort;
    AbortKeepsCode();
    if t.Poll? && t.seen.ExecStop? {
      ExecKeepsCode(Stop(s, t.pid), t.pid, t.seen.image, t.seen.continued, reused);
    } else if t.Poll? && t.seen.ForkStop? {
      ForkKeepsCode(Stop(s, t.pid), t.pid, t.seen, reused);
    }
  }

  /** The `k`-th of `turns`, which follow `past`, saw the root itself end. */
  ghost predicate SeesRootEnd(root: Pid, past: seq<Turn>, turns: seq<Turn>, k: nat)
    requires k < |turns|
  {
    EndsRoot(root, turns[k]) && !IsReusedAfter(root, past + turns[..k])
  }

  /** `i` is one past the last of `turns` that saw the root end, and 0 if none
      did. */
  ghost predicate RootEndsAt(root: Pid, past: seq<Turn>, turns: seq<Turn>, i: nat) {
    && i <= |turns| && (i > 0 ==> SeesRootEnd(root, past, turns, i - 1))
    && (forall k: nat :: i <= k < |turns| ==> !SeesRootEnd(root, past, turns, k))
  }

  lemma SeenLater(root: Pid, past: seq<Turn>, turns: seq<Turn>, k: nat)
    requires k + 1 < |turns|
    ensures SeesRootEnd(root, past + [turns[0]], turns[1..], k) == SeesRootEnd(root, past, turns, k + 1)
  {
    hide EndsRoot, IsReusedAfter;
    assert turns[..k + 1] == [turns[0]] + turns[1..][..k];
    assert past + [turns[0]] + turns[1..][..k] == past + turns[..k + 1];
  }

  lemma RootEndsLater(root: Pid, past: seq<Turn>, turns: seq<Turn>, i: nat)
    requires turns != [] && RootEndsAt(root, past, turns, i)
    ensures RootEndsAt(root, past + [turns[0]], turns[1..], if i == 0 then 0 else i - 1)
    ensures i == 0 ==> !SeesRootEnd(root, past, turns, 0)
    ensures i == 1 ==> SeesRootEnd(root, past, turns, 0)
  {
    hide SeesRootEnd;
    forall k: nat | k + 1 < |turns|
      ensures SeesRootEnd(root, past + [turns[0]], turns[1..], k) == SeesRootEnd(root, past, turns, k + 1)
    {
      SeenLater(root, past, turns, k);
    }
  }

  lemma {:induction false} RunSetsCode(s: Supervisor, past: seq<Turn>, turns: seq<Turn>, i: nat)
    requires IsRun(s, turns) && RootLeads(s, IsReusedAfter(s.root, past)) && RootEndsAt(s.root, past, turns, i)
    ensures After(s, turns).exitCode == if i == 0 then s.exitCode else EndCode(turns[i - 1].seen)
    decreases |turns|
  {
    hide Take, Enabled, EndsRoot, IsReused, RootLeads;
    if turns != [] {
      hide RootEndsAt;
      var next, rest := Take(s, turns[0]), turns[1..];
      TurnSetsCode(s, turns[0], IsReusedAfter(s.root, past));
      TakeKeepsRoot(s, turns[0]);
      RootEndsLater(s.root, past, turns, i);
      assert (past + [turns[0]])[..|past|] == past && past + turns[..0] == past;
      if HasCompleted(next) {
        NothingAfterCompletion(next, rest);
      } else {
        RunSetsCode(next, past + [turns[0]], rest, if i == 0 then 0 else i - 1);
      }
    }
  }

  /** Once the root has been seen to end, waiting for it gives the code it
      exited with or the negated number of the signal that ended it, and until
      then nothing, unless tracing failed. */
  ghost predicate FateIsKnown(s: Supervisor, turns: seq<Turn>, i: nat)
    requires i <= |turns| && (i > 0 ==> turns[i - 1].Poll?)
  {
    if s.tracerError then TryWait(s) == Err && Lost(s.told)
    else if i == 0 then TryWait(s) == Ok(None)
    else
      var seen := turns[i - 1].seen;
      && (seen.Exited? ==> TryWait(s) == Ok(Some(seen.code)))
      && (seen.Signaled? ==> TryWait(s) == Ok(Some(-seen.signal)))
  }

  ghost predicate FateIsTheOneObserved(s: Supervisor, turns: seq<Turn>) {
    forall i: nat :: RootEndsAt(s.root, [], turns, i) ==> FateIsKnown(s, turns, i)
  }

  /** In every run, aborted or not, however often ids come back. */
  lemma RootsFateIsTheOneObserved(root: Pid, image: Option<nat>, turns: seq<Turn>)
    requires IsRun(Launch(root, image), turns)
    ensures FateIsTheOneObserved(After(Launch(root, image), turns), turns)
  {
    hide IsRun, After, SeesRootEnd, FateIsKnown;
    RootStays(Launch(root, image), turns);
    forall i: nat | RootEndsAt(root, [], turns, i)
      ensures i > 0 ==> turns[i - 1].Poll?
      ensures FateIsKnown(After(Launch(root, image), turns), turns, i)
    {
      FateObservedAt(root, image, turns, i);
    }
  }

  lemma FateObservedAt(root: Pid, image: Option<nat>, turns: seq<Turn>, i: nat)
    requires IsRun(Launch(root, image), turns) && RootEndsAt(root, [], turns, i)
    ensures i > 0 ==> turns[i - 1].Poll?
    ensures FateIsKnown(After(Launch(root, image), turns), turns, i)
  {
    hide IsRun, After, Running, Ended, IsReused;
    var s := After(Launch(root, image), turns);
    RunSetsCode(Launch(root, image), [], turns, i);
    LaunchInv(root, image);
    RunKeepsInv(Launch(root, image), turns);
    if s.tracerError {
      ErrorsAreLosses(s);
    }
  }

  ghost predicate Lost(told: seq<Callback>) {
    exists k :: 0 <= k < |told| && told[k].Event? && told[k].event.kind.Loss?
  }

  lemma ErrorsAreLosses(s: Supervisor)
    requires Inv(s) && s.tracerError
    ensures Lost(s.told)
  {
    hide LifeOf;
    var events := s.told[..|s.told| - 1];
    assert events[|events| - 1] == s.told[|events| - 1];
  }

  // ---- the loop as written

  /** The supervisor thread's own state; the shared root state is part of it. */
  class TraceLoop {
    const root: Pid
    var tracees: map<Pid, Tracee>
    var sequence: nat
    var exitCode: Option<int>
    var done: bool
    var tracerError: bool
    var told: seq<Callback>
    var stopped: set<Pid>
    var killed: set<Pid>

    constructor (root: Pid, image: Option<nat>)
      ensures View() == Launch(root, image)
    {
      this.root := root;
      tracees := map[root := Tracee(None, true, image)];
      sequence := 1;
      exitCode, done, tracerError := None, false, false;
      told, stopped, killed := [], {}, {};
    }

    function View(): Supervisor
      reads this
    {
      Supervisor(root, tracees, sequence, exitCode, done, tracerError, told, stopped, killed)
    }

    method EmitEvent(pid: Pid, t: Tracee, kind: Kind)
      modifies this
      ensures View() == Emit(old(View()), pid, t, kind)
    {
      told := told + [Event(TraceEvent(sequence, pid, t.parent, kind, t.image))];
      sequence := sequence + 1;
    }

    method AbortRuntimeTrace(pid: Pid)
      modifies this
      ensures View() == Abort(old(View()), pid)
      ensures forall s :: Running(s) && MidTurn(s, old(View())) ==> Ended(View())
    {
      forall s | Running(s) && MidTurn(s, View()) ensures Ended(Abort(View(), pid)) {
        AbortEnds(s, View(), pid);
      }
      var parent := if pid in tracees then tracees[pid].parent else None;
      told := told + [Event(TraceEvent(sequence, pid, parent, Loss, None))];
      KillAll(tracees.Keys - {root});
      KillAll({root});
      assert (tracees.Keys - {root}) + {root} == tracees.Keys + {root};
      tracerError, done := true, true;
      told := told + [Completed];
      assert killed == old(killed) + (tracees.Keys + {root});
    }

    /** SIGKILL each of the given tasks and reap it. */
    method KillAll(pids: set<Pid>)
      modifies this`killed, this`stopped
      ensures killed == old(killed) + pids && stopped == old(stopped) - pids
    {
      var left := pids;
      while left != {}
        invariant left <= pids
        invariant killed == old(killed) + (pids - left) && stopped == old(stopped) - (pids - left)
        decreases |left|
      {
        var victim :| victim in left;
        killed, stopped, left := killed + {victim}, stopped - {victim}, left - {victim};
      }
    }

    method ReapTracee(pid: Pid, code: Option<int>, signal: Option<int>)
      requires pid in tracees
      modifies this
      ensures View() == ServiceExit(old(View()), pid, code, signal)
      ensures old(Running(View())) ==> Running(View())
      ensures pid == root && old(tracees[pid].leader) ==>
                && done && told == old(told) && (code.Some? ==> exitCode == code)
                && (code.None? && signal.Some? ==> exitCode == Some(-signal.value))
      ensures pid != root && old(tracees[pid].leader) ==>
                && exitCode == old(exitCode) && |told| == |old(told)| + 1 && told[|told| - 1].Event?
                && told[|told| - 1].event.pid == pid && told[|told| - 1].event.kind == Exit(code, signal)
    {
      if Running(View()) {
        ServiceExitKeepsInv(View(), pid, code, signal);
      }
      var t := tracees[pid];
      tracees := tracees - {pid};
      if t.leader {
        if pid == root {
          exitCode := Some(if code.Some? then code.value else if signal.Some? then -signal.value else 0);
          done := true;
        } else {
          EmitEvent(pid, t, Exit(code, signal));
        }
      }
    }

    method HandleFork(pid: Pid, o: Observation)
      requires o.ForkStop? && pid in tracees
      modifies this
      ensures View() == ServiceFork(Stop(old(View()), pid), pid, o)
      ensures old(Serviceable(View(), pid, o)) ==> Running(View()) || Ended(View())
    {
      hide Running, Ended, Abort, Inv, ContinueBoth;
      if Serviceable(View(), pid, o) {
        ServiceForkKeepsInv(View(), pid, o);
      }
      stopped := stopped + {pid};
      if o.child.None? {
        AbortRuntimeTrace(pid);
        return;
      }
      var child := o.child.value;
      var leader := true;
      if o.clone {
        if o.childGroup.None? {
          tracees := tracees[child := Tracee(None, true, None)];
          AbortRuntimeTrace(child);
          return;
        }
        leader := o.childGroup.value == child;
      }
      var parent := if !leader then None else if o.parentGroup.Some? then o.parentGroup else Some(pid);
      ContinueParentAndChild(pid, child, Tracee(parent, leader, None), o);
    }

    method ContinueParentAndChild(pid: Pid, child: Pid, t: Tracee, o: Observation)
      requires o.ForkStop?
      modifies this
      ensures View() == ContinueBoth(old(View()), pid, child, t, o)
    {
      hide Running, Ended, Abort;
      tracees := tracees[child := t];
      if !o.continued {
        AbortRuntimeTrace(pid);
        return;
      }
      stopped := stopped - {pid};
      if !o.childStops {
        AbortRuntimeTrace(child);
        return;
      }
      stopped := stopped + {child};
      if !o.childContinued {
        AbortRuntimeTrace(child);
        return;
      }
      stopped := stopped - {child};
      if t.leader {
        EmitEvent(child, t, Spawn);
      }
    }

    method HandleExec(pid: Pid, image: Option<nat>, continued: bool)
      requires pid in tracees
      modifies this
      ensures View() == ServiceExec(Stop(old(View()), pid), pid, image, continued)
      ensures old(Running(View())) ==> Running(View()) || Ended(View())
    {
      if Running(View()) {
        ServiceExecKeepsInv(View(), pid, image, continued);
      }
      stopped := stopped + {pid};
      var t := tracees[pid].(image := image);
      tracees := tracees[pid := t];
      if !continued {
        AbortRuntimeTrace(pid);
        return;
      }
      stopped := stopped - {pid};
      if t.leader {
        EmitEvent(pid, t, Exec);
      }
    }

    method PollTracee(pid: Pid, o: Observation)
      requires pid in tracees
      modifies this
      ensures View() == Service(old(View()), pid, o)
      ensures old(Serviceable(View(), pid, o)) ==> Inv(View())
    {
      if Serviceable(View(), pid, o) {
        NumberedIsNotCompleted(View());
        TurnKeepsInv(View(), Poll(pid, o));
      }
      match o
      case NotReady =>
      case OtherStatus =>
      case WaitError(noChild) => HandleWaitError(pid, noChild);
      case Exited(code) => ReapTracee(pid, Some(code), None);
      case Signaled(signal) => ReapTracee(pid, None, Some(signal));
      case ForkStop(_, _, _, _, _, _, _) => HandleFork(pid, o);
      case ExecStop(image, continued) => HandleExec(pid, image, continued);
      case ExitStop(continued) => HandlePlainStop(pid, continued);
      case SignalStop(_, continued) => HandlePlainStop(pid, continued);
    }

    method HandleWaitError(pid: Pid, noChild: bool)
      requires pid in tracees
      modifies this
      ensures View() == Service(old(View()), pid, WaitError(noChild))
      ensures old(Running(View())) ==> Running(View()) || Ended(View())
    {
      if Running(View()) {
        NumberedIsNotCompleted(View());
        PollKeepsInv(View(), pid, WaitError(noChild));
      }
      if noChild && !tracees[pid].leader {
        tracees := tracees - {pid};
      } else {
        AbortRuntimeTrace(pid);
      }
    }

    method HandlePlainStop(pid: Pid, continued: bool)
      modifies this
      ensures View() == var s := Stop(old(View()), pid); if continued then Continue(s, pid) else Abort(s, pid)
      ensures old(Running(View()) && pid in tracees) ==> Running(View()) || Ended(View())
    {
      if Running(View()) && pid in tracees {
        ServicePlainStop(View(), pid, continued);
      }
      stopped := stopped + {pid};
      if continued {
        stopped := stopped - {pid};
      } else {
        AbortRuntimeTrace(pid);
      }
    }

    /** One pass over a snapshot of the tracee set, in any order; `turns` is
        what the pass amounted to. */
    method PollAll(kernel: Kernel, pass: nat) returns (ghost turns: seq<Turn>)
      requires Inv(View()) && !HasCompleted(View()) && ReportsNewChildren(kernel)
      modifies this
      ensures IsRun(old(View()), turns) && After(old(View()), turns) == View() && Inv(View())
      ensures !HasCompleted(View()) ==> |turns| == |old(tracees).Keys|
    {
      turns := [];
      ghost var start := View();
      var pids := tracees.Keys;
      while pids != {} && !HasCompleted(View())
        invariant pids <= tracees.Keys && |turns| + |pids| == |old(tracees).Keys|
        invariant IsRun(start, turns) && After(start, turns) == View() && Inv(View())
        decreases |pids|
      {
        var pid :| pid in pids;
        pids := pids - {pid};
        var seen := kernel(View(), pid, pass);
        ghost var before, turn := View(), Poll(pid, seen);
        assert Enabled(before, turn) && Serviceable(before, pid, seen);
        RunOneMore(start, turns, turn);
        PollTracee(pid, seen);
        turns := turns + [turn];
        PollKeepsOthers(before, pid, seen);
      }
    }
  }

  /** What the kernel answers about a tracee in a given pass; it may look at
      everything the supervisor knows. */
  type Kernel = (Supervisor, Pid, nat) -> Observation

  /** A child reported as new is not a task being traced. */
  ghost predicate ReportsNewChildren(kernel: Kernel) {
    forall s, pid, pass ::
      var o := kernel(s, pid, pass);
      o.ForkStop? && o.child.Some? ==> o.child.value !in s.tracees
  }

  /** The supervisor from its launch: passes until no tracee is left, an abort,
      or the given number of passes. Against any kernel the log is well formed
      and nothing is wedged; the loop ends, with its completion told, unless
      tracees are still there. */
  method Supervise(root: Pid, image: Option<nat>, kernel: Kernel, passes: nat)
    returns (supervisor: TraceLoop, ghost turns: seq<Turn>)
    requires ReportsNewChildren(kernel)
    ensures fresh(supervisor) && IsRun(Launch(root, image), turns)
    ensures supervisor.View() == After(Launch(root, image), turns)
    ensures WellFormedLog(supervisor.told, root) && NotWedged(supervisor.View())
    ensures HasCompleted(supervisor.View()) || supervisor.tracees != map[]
    ensures ReportsEachOnce(turns) ==> forall pid :: pid != root ==> LivesOnce(supervisor.told, pid)
    ensures Narrates([], root, false, turns, supervisor.told)
    ensures FateIsTheOneObserved(supervisor.View(), turns)
  {
    hide Narrates, FateIsTheOneObserved, Running, Ended, WellFormedLog, NotWedged, LivesOnce;
    supervisor := new TraceLoop(root, image);
    turns := [];
    ghost var start := Launch(root, image);
    LaunchInv(root, image);
    var pass := 0;
    while supervisor.tracees != map[] && !HasCompleted(supervisor.View()) && pass < passes
      invariant fresh(supervisor) && IsRun(start, turns)
      invariant supervisor.View() == After(start, turns) && Inv(supervisor.View())
      decreases passes - pass
    {
      ghost var more := supervisor.PollAll(kernel, pass);
      RunsJoin(start, turns, more);
      turns := turns + more;
      pass := pass + 1;
    }
    if supervisor.tracees == map[] && !HasCompleted(supervisor.View()) {
      RunOneMore(start, turns, End);
      supervisor.told := supervisor.told + [Completed];
      turns := turns + [End];
    }
    LogIsWellFormed(root, image, turns);
    SupervisionNeverWedges(root, image, turns);
    LogIsNarrated(root, image, turns);
    RootsFateIsTheOneObserved(root, image, turns);
    if ReportsEachOnce(turns) {
      forall pid | pid != root ensures LivesOnce(supervisor.told, pid) {
        FreshProcessesLiveOnce(root, image, turns, pid);
      }
    }
  }

  lemma {:induction false} RunsJoin(s: Supervisor, first: seq<Turn>, second: seq<Turn>)
    requires IsRun(s, first) && IsRun(After(s, first), second)
    ensures IsRun(s, first + second) && After(s, first + second) == After(After(s, first), second)
    decreases |first|
  {
    hide Take, Enabled;
    if first == [] {
      assert first + second == second;
    } else {
      assert (first + second)[1..] == first[1..] + second;
      RunsJoin(Take(s, first[0]), first[1..], second);
    }
  }

  lemma {:induction false} RunOneMore(s: Supervisor, turns: seq<Turn>, t: Turn)
    requires IsRun(s, turns) && Enabled(After(s, turns), t)
    ensures IsRun(s, turns + [t]) && After(s, turns + [t]) == Take(After(s, turns), t)
    decreases |turns|
  {
    if turns == [] {
      assert (turns + [t])[1..] == [];
    } else {
      assert (turns + [t])[1..] == turns[1..] + [t];
      RunOneMore(Take(s, turns[0]), turns[1..], t);
    }
  }

  /** Servicing one tracee removes at most it and adds at most its child. */
  ghost predicate KeepsOthers(before: map<Pid, Tracee>, after: map<Pid, Tracee>, pid: Pid, child: Option<Pid>) {
    before.Keys - {pid} <= after.Keys && forall p :: p in after ==> p in before || child == Some(p)
  }

  lemma ForkKeepsOthers(s: Supervisor, pid: Pid, o: Observation)
    requires o.ForkStop? && pid in s.tracees
    ensures KeepsOthers(s.tracees, ServiceFork(s, pid, o).tracees, pid, o.child)
  {
  }

  lemma PollKeepsOthers(s: Supervisor, pid: Pid, o: Observation)
    requires pid in s.tracees
    ensures KeepsOthers(s.tracees, Service(s, pid, o).tracees, pid, if o.ForkStop? then o.child else None)
  {
    if o.ForkStop? {
      ForkKeepsOthers(Stop(s, pid), pid, o);
    }
  }
}
