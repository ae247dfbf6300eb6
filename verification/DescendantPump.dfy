/** The descendant monitors: snapshots of the tree are compared, and the
    differences reported as Started and Exited events until the monitor
    completes.

    `K` is what a monitor keys its map by: the pid on Linux, the process
    identity on macOS. A run is driven by a finite script of ticks, one for
    each turn of the loop, so every finite beginning of a run is covered. */
module DescendantPump {
  import opened Common

  datatype Event<K> = Started(key: K, parent: Pid) | Exited(key: K) | Completed

  /** One turn: whether the stop is seen first, the root's identity before and
      after the walk, what the walk found, and whether the wait was stopped. */
  datatype Tick<K, I> = Tick(stopped: bool, before: Option<I>, walk: map<K, Pid>, after: Option<I>, waitStopped: bool)

  /** How far a run has come. */
  datatype Ending = Watching | Stopped | LostRoot

  // The independent reading of a log: a set of live entries that each event
  // must fit, and nothing after Completed.

  datatype Book<K> = Broken | Open(live: set<K>) | Closed(live: set<K>)

  function Record<K>(book: Book<K>, e: Event<K>): Book<K> {
    if !book.Open? then Broken
    else match e
      case Started(k, _) => if k in book.live then Broken else Open(book.live + {k})
      case Exited(k) => if k in book.live then Open(book.live - {k}) else Broken
      case Completed => Closed(book.live)
  }

  function Replay<K>(log: seq<Event<K>>): Book<K> {
    if log == [] then Open({}) else Record(Replay(log[..|log| - 1]), log[|log| - 1])
  }

  // What the pump emits.

  ghost predicate Distinct<K>(events: seq<Event<K>>) {
    forall i, j :: 0 <= i < j < |events| && !events[i].Completed? && !events[j].Completed? ==>
      events[i].key != events[j].key
  }

  function Keys<K>(events: seq<Event<K>>): set<K> {
    set i | 0 <= i < |events| && !events[i].Completed? :: events[i].key
  }

  ghost predicate AllStarted<K>(events: seq<Event<K>>) {
    forall i :: 0 <= i < |events| ==> events[i].Started?
  }

  ghost predicate AllExited<K>(events: seq<Event<K>>) {
    forall i :: 0 <= i < |events| ==> events[i].Exited?
  }

  ghost predicate FromWalk<K>(events: seq<Event<K>>, walk: map<K, Pid>) {
    forall i :: 0 <= i < |events| ==>
      events[i].Started? && events[i].key in walk && events[i].parent == walk[events[i].key]
  }

  /** Each new entry is started once, with the parent the walk recorded. */
  ghost predicate Starts<K>(events: seq<Event<K>>, added: set<K>, walk: map<K, Pid>) {
    AllStarted(events) && FromWalk(events, walk) && Distinct(events) && Keys(events) == added
  }

  /** Each of these entries is exited once. */
  ghost predicate Exits<K>(events: seq<Event<K>>, gone: set<K>) {
    AllExited(events) && Distinct(events) && Keys(events) == gone
  }

  /** What one turn emits: the starts first, then the exits. */
  datatype Block<K> = Block(starts: seq<Event<K>>, exits: seq<Event<K>>)

  ghost predicate IsDiff<K>(block: Block<K>, previous: map<K, Pid>, current: map<K, Pid>) {
    && Starts(block.starts, current.Keys - previous.Keys, current)
    && Exits(block.exits, previous.Keys - current.Keys)
  }

  lemma LastKey<K>(events: seq<Event<K>>)
    requires events != [] && !events[|events| - 1].Completed?
    ensures Keys(events) == Keys(events[..|events| - 1]) + {events[|events| - 1].key}
    ensures Distinct(events) <==>
              Distinct(events[..|events| - 1]) && events[|events| - 1].key !in Keys(events[..|events| - 1])
  {
    var front, last := events[..|events| - 1], events[|events| - 1];
    assert forall i :: 0 <= i < |front| ==> front[i] == events[i];
  }

  lemma Grow<K>(events: seq<Event<K>>, e: Event<K>)
    requires Distinct(events) && !e.Completed? && e.key !in Keys(events)
    ensures Distinct(events + [e]) && Keys(events + [e]) == Keys(events) + {e.key}
  {
    assert (events + [e])[..|events|] == events;
    LastKey(events + [e]);
  }

  lemma TakeOne<K>(all: set<K>, skipped: set<K>, rest: set<K>, k: K)
    requires k in rest && rest <= all
    ensures (all - (rest - {k})) - skipped == (all - rest) - skipped + if k in skipped then {} else {k}
  {
  }

  lemma ExitOne<K>(events: seq<Event<K>>, gone: set<K>, k: K)
    requires Exits(events, gone) && k !in gone
    ensures Exits(events + [Exited(k)], gone + {k})
  {
    Grow(events, Exited(k));
  }

  lemma NothingExits<K>()
    ensures Exits<K>([], {})
  {
  }

  /** The maps are iterated in no particular order. */
  method EmitExits<K(==)>(gone: set<K>) returns (events: seq<Event<K>>)
    ensures Exits(events, gone)
  {
    hide Distinct, Keys;
    events := [];
    var rest := gone;
    NothingExits<K>();
    assert gone - gone == {};
    while rest != {}
      invariant rest <= gone && Exits(events, gone - rest)
      decreases |rest|
    {
      var k :| k in rest;
      TakeOne(gone, {}, rest, k);
      ExitOne(events, gone - rest, k);
      events := events + [Exited(k)];
      rest := rest - {k};
    }
    assert gone - {} == gone;
  }

  lemma StartOne<K>(events: seq<Event<K>>, added: set<K>, walk: map<K, Pid>, k: K)
    requires Starts(events, added, walk) && k in walk && k !in added
    ensures Starts(events + [Started(k, walk[k])], added + {k}, walk)
  {
    Grow(events, Started(k, walk[k]));
  }

  method EmitStarts<K(==)>(previous: map<K, Pid>, current: map<K, Pid>) returns (events: seq<Event<K>>)
    ensures Starts(events, current.Keys - previous.Keys, current)
  {
    events := [];
    var rest := current.Keys;
    while rest != {}
      invariant rest <= current.Keys
      invariant Starts(events, (current.Keys - rest) - previous.Keys, current)
      decreases |rest|
    {
      var k :| k in rest;
      TakeOne(current.Keys, previous.Keys, rest, k);
      if k !in previous {
        StartOne(events, (current.Keys - rest) - previous.Keys, current, k);
        events := events + [Started(k, current[k])];
      }
      rest := rest - {k};
    }
    assert current.Keys - {} == current.Keys;
  }

  method EmitDiff<K(==)>(previous: map<K, Pid>, current: map<K, Pid>) returns (block: Block<K>)
    ensures IsDiff(block, previous, current)
  {
    var starts := EmitStarts(previous, current);
    var exits := EmitExits(previous.Keys - current.Keys);
    block := Block(starts, exits);
  }

  /** A walk counts only if the root was the expected process on both sides. */
  function VerifiedSnapshot<K, I(==)>(expected: I, tick: Tick<K, I>): Option<map<K, Pid>> {
    if tick.before == Some(expected) && tick.after == Some(expected) then Some(tick.walk) else None
  }

  /** The walks a run reports, in order. */
  function Reported<K, I(==)>(expected: I, script: seq<Tick<K, I>>): seq<map<K, Pid>> {
    if script == [] || script[0].stopped || VerifiedSnapshot(expected, script[0]).None? then []
    else [script[0].walk] + if script[0].waitStopped then [] else Reported(expected, script[1..])
  }

  function EndingOf<K, I(==)>(expected: I, script: seq<Tick<K, I>>): Ending {
    if script == [] then Watching
    else if script[0].stopped then Stopped
    else if VerifiedSnapshot(expected, script[0]).None? then LostRoot
    else if script[0].waitStopped then Stopped
    else EndingOf(expected, script[1..])
  }

  /** A turn that reports its walk and goes on. */
  predicate GoesOn<K, I(==)>(expected: I, tick: Tick<K, I>) {
    !tick.stopped && tick.before == Some(expected) && tick.after == Some(expected) && !tick.waitStopped
  }

  function Walks<K, I>(script: seq<Tick<K, I>>): seq<map<K, Pid>> {
    seq(|script|, i requires 0 <= i < |script| => script[i].walk)
  }

  /** Where a run ends and what it has reported, from the turns alone: the first
      turn that does not go on decides, and a walk around which the root was
      ever another process is not reported and loses the root. */
  lemma {:induction false} RunsEndWhereTheTurnsSay<K, I>(expected: I, script: seq<Tick<K, I>>, n: nat)
    requires n <= |script| && forall i :: 0 <= i < n ==> GoesOn(expected, script[i])
    ensures n == |script| ==> Reported(expected, script) == Walks(script) && EndingOf(expected, script) == Watching
    ensures n < |script| && script[n].stopped ==>
              Reported(expected, script) == Walks(script[..n]) && EndingOf(expected, script) == Stopped
    ensures n < |script| && !script[n].stopped
            && (script[n].before != Some(expected) || script[n].after != Some(expected)) ==>
              Reported(expected, script) == Walks(script[..n]) && EndingOf(expected, script) == LostRoot
    ensures n < |script| && !script[n].stopped && script[n].waitStopped
            && script[n].before == Some(expected) && script[n].after == Some(expected) ==>
              Reported(expected, script) == Walks(script[..n + 1]) && EndingOf(expected, script) == Stopped
    decreases n
  {
    if n > 0 {
      var rest := script[1..];
      RunsEndWhereTheTurnsSay(expected, rest, n - 1);
      FirstWalk(script, |script|);
      FirstWalk(script, n);
      FirstWalk(script, if n < |script| then n + 1 else n);
      assert script[..|script|] == script && rest[..|rest|] == rest;
    }
  }

  lemma FirstWalk<K, I>(script: seq<Tick<K, I>>, n: nat)
    requires 0 < n <= |script|
    ensures Walks(script[..n]) == [script[0].walk] + Walks(script[1..][..n - 1])
  {
  }

  function Last<K>(walks: seq<map<K, Pid>>): map<K, Pid> {
    if walks == [] then map[] else walks[|walks| - 1]
  }

  function Flatten<K>(blocks: seq<Block<K>>): seq<Event<K>> {
    if blocks == [] then []
    else
      var last := blocks[|blocks| - 1];
      Flatten(blocks[..|blocks| - 1]) + last.starts + last.exits
  }

  /** One block of differences for each reported walk. */
  ghost predicate AreDiffs<K>(blocks: seq<Block<K>>, walks: seq<map<K, Pid>>) {
    && |blocks| == |walks|
    && (blocks != [] ==>
          var n := |blocks| - 1;
          AreDiffs(blocks[..n], walks[..n]) && IsDiff(blocks[n], Last(walks[..n]), walks[n]))
  }

  /** The events that end a run: a stop leaves the known entries alone, losing
      the root exits every one of them. */
  ghost predicate IsClosing<K>(exits: seq<Event<K>>, ending: Ending, known: set<K>) {
    Exits(exits, if ending.LostRoot? then known else {})
  }

  function Ended<K>(ending: Ending): seq<Event<K>> {
    if ending.Watching? then [] else [Completed]
  }

  /** A log that a run over these walks may leave, with this ending. */
  ghost predicate IsLog<K>(log: seq<Event<K>>, blocks: seq<Block<K>>, exits: seq<Event<K>>,
                           walks: seq<map<K, Pid>>, ending: Ending) {
    && AreDiffs(blocks, walks)
    && IsClosing(exits, ending, Last(walks).Keys)
    && log == Flatten(blocks) + exits + Ended(ending)
  }

  /** The loop head after `i` turns. */
  ghost predicate AtHead<K, I>(expected: I, script: seq<Tick<K, I>>, i: nat, log: seq<Event<K>>,
                               blocks: seq<Block<K>>, walks: seq<map<K, Pid>>) {
    && i <= |script|
    && AreDiffs(blocks, walks) && log == Flatten(blocks)
    && Reported(expected, script) == walks + Reported(expected, script[i..])
    && EndingOf(expected, script) == EndingOf(expected, script[i..])
  }

  lemma HeadMoves<K, I>(expected: I, script: seq<Tick<K, I>>, i: nat, log: seq<Event<K>>, blocks: seq<Block<K>>,
                        walks: seq<map<K, Pid>>, block: Block<K>)
    requires AtHead(expected, script, i, log, blocks, walks) && i < |script|
    requires !script[i].stopped && VerifiedSnapshot(expected, script[i]).Some?
    requires IsDiff(block, Last(walks), script[i].walk)
    ensures var longer, all := log + block.starts + block.exits, walks + [script[i].walk];
            && Last(all) == script[i].walk
            && if script[i].waitStopped
               then IsLog(longer + [Completed], blocks + [block], [], Reported(expected, script), EndingOf(expected, script))
               else AtHead(expected, script, i + 1, longer, blocks + [block], all)
  {
    var longer := log + block.starts + block.exits;
    assert longer + [] + [Completed] == longer + [Completed];
    Regroup(walks, [script[i].walk],
            if script[i].waitStopped then [] else Reported(expected, script[i + 1..]));
  }

  lemma HeadCloses<K, I>(expected: I, script: seq<Tick<K, I>>, i: nat, log: seq<Event<K>>, blocks: seq<Block<K>>,
                         walks: seq<map<K, Pid>>, exits: seq<Event<K>>)
    requires AtHead(expected, script, i, log, blocks, walks)
    requires i < |script| ==> script[i].stopped || VerifiedSnapshot(expected, script[i]).None?
    requires IsClosing(exits, EndingOf(expected, script), Last(walks).Keys)
    ensures IsLog(log + exits + Ended(EndingOf(expected, script)), blocks, exits, Reported(expected, script),
                  EndingOf(expected, script))
  {
    assert walks + [] == walks;
  }

  /** The loop itself. The returned log is what `emit` has been given; the
      blocks and closing exits say which turn emitted what. */
  method PumpLoop<K(==), I(==)>(expected: I, script: seq<Tick<K, I>>)
    returns (log: seq<Event<K>>, blocks: seq<Block<K>>, exits: seq<Event<K>>)
    ensures IsLog(log, blocks, exits, Reported(expected, script), EndingOf(expected, script))
  {
    log, blocks, exits := [], [], [];
    var known: map<K, Pid> := map[];
    ghost var walks: seq<map<K, Pid>> := [];
    var i := 0;
    while i < |script|
      invariant AtHead(expected, script, i, log, blocks, walks) && known == Last(walks) && exits == []
    {
      if script[i].stopped {
        HeadCloses(expected, script, i, log, blocks, walks, []);
        log := log + exits + [Completed];
        return;
      }
      var current := VerifiedSnapshot(expected, script[i]);
      if current.None? {
        exits := EmitExits(known.Keys);
        HeadCloses(expected, script, i, log, blocks, walks, exits);
        log := log + exits + [Completed];
        return;
      }
      var block := EmitDiff(known, current.value);
      HeadMoves(expected, script, i, log, blocks, walks, block);
      log, blocks, known := log + block.starts + block.exits, blocks + [block], current.value;
      walks := walks + [current.value];
      if script[i].waitStopped {
        log := log + [Completed];
        return;
      }
      i := i + 1;
    }
    HeadCloses(expected, script, i, log, blocks, walks, []);
    assert log + [] + [] == log;
  }

  // What every log replays to.

  lemma OneMoreReplayed<K>(log: seq<Event<K>>, events: seq<Event<K>>)
    requires events != []
    ensures Replay(log + events) == Record(Replay(log + events[..|events| - 1]), events[|events| - 1])
  {
    LastSplits(events);
    Regroup(log, events[..|events| - 1], [events[|events| - 1]]);
    assert (log + events)[..|log + events| - 1] == log + events[..|events| - 1];
  }

  /** A run of starts fits the book exactly if its keys are new and distinct. */
  lemma {:induction false} StartsReplay<K>(log: seq<Event<K>>, events: seq<Event<K>>)
    requires Replay(log).Open? && AllStarted(events)
    ensures Distinct(events) && Keys(events) !! Replay(log).live ==>
              Replay(log + events) == Open(Replay(log).live + Keys(events))
    ensures !(Distinct(events) && Keys(events) !! Replay(log).live) ==> Replay(log + events) == Broken
    decreases |events|
  {
    if events == [] {
      assert log + events == log;
    } else {
      hide Replay, Distinct, Keys;
      var front, last := events[..|events| - 1], events[|events| - 1];
      StartsReplay(log, front);
      OneMoreReplayed(log, events);
      LastKey(events);
    }
  }

  lemma {:induction false} ExitsReplay<K>(log: seq<Event<K>>, events: seq<Event<K>>)
    requires Replay(log).Open? && AllExited(events) && Distinct(events) && Keys(events) <= Replay(log).live
    ensures Replay(log + events) == Open(Replay(log).live - Keys(events))
    decreases |events|
  {
    if events == [] {
      assert log + events == log;
    } else {
      LastKey(events);
      ExitsReplay(log, events[..|events| - 1]);
      OneMoreReplayed(log, events);
    }
  }

  lemma {:induction false} BrokenStays<K>(log: seq<Event<K>>, events: seq<Event<K>>)
    requires Replay(log) == Broken
    ensures Replay(log + events) == Broken
    decreases |events|
  {
    if events == [] {
      assert log + events == log;
    } else {
      BrokenStays(log, events[..|events| - 1]);
      OneMoreReplayed(log, events);
    }
  }

  lemma DiffReplays<K>(log: seq<Event<K>>, block: Block<K>, previous: map<K, Pid>, current: map<K, Pid>)
    requires Replay(log) == Open(previous.Keys) && IsDiff(block, previous, current)
    ensures Replay(log + block.starts + block.exits) == Open(current.Keys)
  {
    StartsReplay(log, block.starts);
    ExitsReplay(log + block.starts, block.exits);
    assert previous.Keys + (current.Keys - previous.Keys) - (previous.Keys - current.Keys) == current.Keys;
  }

  /** At every loop head, Started minus Exited is what the monitor knows. */
  lemma {:induction false} LogReplaysToKnown<K>(blocks: seq<Block<K>>, walks: seq<map<K, Pid>>)
    requires AreDiffs(blocks, walks)
    ensures Replay(Flatten(blocks)) == Open(Last(walks).Keys)
    decreases |blocks|
  {
    if blocks != [] {
      var n := |blocks| - 1;
      LogReplaysToKnown(blocks[..n], walks[..n]);
      DiffReplays(Flatten(blocks[..n]), blocks[n], Last(walks[..n]), walks[n]);
    }
  }

  /** The closing events, from a book that is still open. */
  lemma ClosingReplays<K>(log: seq<Event<K>>, exits: seq<Event<K>>, ending: Ending)
    requires Replay(log).Open? && AllExited(exits) && Distinct(exits) && Keys(exits) <= Replay(log).live
    ensures var live := Replay(log).live - Keys(exits);
            Replay(log + exits + Ended(ending)) == if ending.Watching? then Open(live) else Closed(live)
  {
    ExitsReplay(log, exits);
    if ending.Watching? {
      assert log + exits + [] == log + exits;
    }
  }

  /** Every log of a run is well formed; a completed one leaves the last known
      entries live if the monitor was stopped, and none if the root was lost. */
  lemma EveryLogReplays<K>(log: seq<Event<K>>, blocks: seq<Block<K>>, exits: seq<Event<K>>,
                           walks: seq<map<K, Pid>>, ending: Ending)
    requires IsLog(log, blocks, exits, walks, ending)
    ensures Replay(log) == match ending
                           case Watching => Open(Last(walks).Keys)
                           case Stopped => Closed(Last(walks).Keys)
                           case LostRoot => Closed({})
  {
    LogReplaysToKnown(blocks, walks);
    ClosingReplays(Flatten(blocks), exits, ending);
    assert Last(walks).Keys - Last(walks).Keys == {} && Last(walks).Keys - {} == Last(walks).Keys;
  }

  /** What a replay that fits says about one entry: its events alternate,
      starting with Started. */
  function EventsOf<K(==)>(log: seq<Event<K>>, k: K): seq<Event<K>> {
    if log == [] then []
    else
      var last := log[|log| - 1];
      EventsOf(log[..|log| - 1], k) + if !last.Completed? && last.key == k then [last] else []
  }

  lemma {:induction false} EntriesAlternate<K>(log: seq<Event<K>>, k: K)
    requires Replay(log) != Broken
    ensures forall i :: 0 <= i < |EventsOf(log, k)| ==> (EventsOf(log, k)[i].Started? <==> i % 2 == 0)
    ensures k in Replay(log).live <==> |EventsOf(log, k)| % 2 == 1
    decreases |log|
  {
    if log != [] {
      EntriesAlternate(log[..|log| - 1], k);
    }
  }

  /** Completed occurs only as the last event. */
  lemma {:induction false} CompletedIsLast<K>(log: seq<Event<K>>)
    requires Replay(log) != Broken
    ensures forall i :: 0 <= i < |log| && log[i].Completed? ==> i == |log| - 1
    ensures Replay(log).Closed? <==> log != [] && log[|log| - 1].Completed?
    decreases |log|
  {
    if log != [] {
      var front := log[..|log| - 1];
      CompletedIsLast(front);
      forall i | 0 <= i < |front| ensures !log[i].Completed? {
        assert front[i] == log[i];
      }
    }
  }

  // The same log by pid: what callers of the macOS monitor see.

  function PidEvent<K>(pidOf: K -> Pid, e: Event<K>): Event<Pid> {
    match e
    case Started(k, parent) => Started(pidOf(k), parent)
    case Exited(k) => Exited(pidOf(k))
    case Completed => Completed
  }

  function ByPid<K>(pidOf: K -> Pid, log: seq<Event<K>>): seq<Event<Pid>> {
    seq(|log|, i requires 0 <= i < |log| => PidEvent(pidOf, log[i]))
  }

  function Pids<K>(pidOf: K -> Pid, keys: set<K>): set<Pid> {
    set k | k in keys :: pidOf(k)
  }

  /** No two of these entries share a pid. */
  ghost predicate PidsDiffer<K>(pidOf: K -> Pid, keys: set<K>) {
    forall k, m :: k in keys && m in keys && k != m ==> pidOf(k) != pidOf(m)
  }

  /** No new entry takes a pid that another entry, old or new, holds. */
  ghost predicate NoReuse<K>(pidOf: K -> Pid, previous: set<K>, current: set<K>) {
    forall k, m :: k in current - previous && m in previous + current && k != m ==> pidOf(k) != pidOf(m)
  }

  ghost predicate NeverReuses<K>(pidOf: K -> Pid, walks: seq<map<K, Pid>>) {
    walks != [] ==>
      var n := |walks| - 1;
      NeverReuses(pidOf, walks[..n]) && NoReuse(pidOf, Last(walks[..n]).Keys, walks[n].Keys)
  }

  lemma ByPidKeys<K>(pidOf: K -> Pid, events: seq<Event<K>>)
    ensures Keys(ByPid(pidOf, events)) == Pids(pidOf, Keys(events))
  {
    var mapped := ByPid(pidOf, events);
    forall i | 0 <= i < |events| && !events[i].Completed? ensures pidOf(events[i].key) in Keys(mapped) {
      assert mapped[i].key == pidOf(events[i].key);
    }
    forall i | 0 <= i < |events| && !mapped[i].Completed? ensures mapped[i].key in Pids(pidOf, Keys(events)) {
      assert events[i].key in Keys(events);
    }
  }

  lemma ByPidDistinct<K>(pidOf: K -> Pid, events: seq<Event<K>>)
    requires Distinct(events)
    ensures Distinct(ByPid(pidOf, events)) <==> PidsDiffer(pidOf, Keys(events))
  {
    var mapped := ByPid(pidOf, events);
    if Distinct(mapped) {
      forall k, m | k in Keys(events) && m in Keys(events) && k != m ensures pidOf(k) != pidOf(m) {
        var i :| 0 <= i < |events| && !events[i].Completed? && events[i].key == k;
        var j :| 0 <= j < |events| && !events[j].Completed? && events[j].key == m;
        assert !mapped[i].Completed? && !mapped[j].Completed?;
      }
    }
    if PidsDiffer(pidOf, Keys(events)) {
      forall i, j | 0 <= i < j < |mapped| && !mapped[i].Completed? && !mapped[j].Completed?
        ensures mapped[i].key != mapped[j].key
      {
        assert events[i].key in Keys(events) && events[j].key in Keys(events);
      }
    }
  }

  lemma ByPidJoins<K>(pidOf: K -> Pid, a: seq<Event<K>>, b: seq<Event<K>>)
    ensures ByPid(pidOf, a + b) == ByPid(pidOf, a) + ByPid(pidOf, b)
  {
  }

  /** One block by pid, from a book that agrees with what is known. */
  lemma DiffReplaysByPid<K>(pidOf: K -> Pid, log: seq<Event<Pid>>, block: Block<K>,
                            previous: map<K, Pid>, current: map<K, Pid>)
    requires PidsDiffer(pidOf, previous.Keys) && Replay(log) == Open(Pids(pidOf, previous.Keys))
    requires IsDiff(block, previous, current)
    ensures var longer := log + ByPid(pidOf, block.starts) + ByPid(pidOf, block.exits);
            if NoReuse(pidOf, previous.Keys, current.Keys)
            then PidsDiffer(pidOf, current.Keys) && Replay(longer) == Open(Pids(pidOf, current.Keys))
            else Replay(longer) == Broken
  {
    var starts, exits := ByPid(pidOf, block.starts), ByPid(pidOf, block.exits);
    ByPidKeys(pidOf, block.starts);
    ByPidDistinct(pidOf, block.starts);
    StartsReplay(log, starts);
    StartsFit(pidOf, previous.Keys, current.Keys);
    if NoReuse(pidOf, previous.Keys, current.Keys) {
      ByPidKeys(pidOf, block.exits);
      ByPidDistinct(pidOf, block.exits);
      ExitsReplay(log + starts, exits);
      PidsAfter(pidOf, previous.Keys, current.Keys);
    } else {
      BrokenStays(log + starts, exits);
    }
  }

  lemma StartsFit<K>(pidOf: K -> Pid, previous: set<K>, current: set<K>)
    ensures NoReuse(pidOf, previous, current) <==>
              PidsDiffer(pidOf, current - previous) && Pids(pidOf, current - previous) !! Pids(pidOf, previous)
  {
    if PidsDiffer(pidOf, current - previous) && Pids(pidOf, current - previous) !! Pids(pidOf, previous) {
      forall k, m | k in current - previous && m in previous + current && k != m ensures pidOf(k) != pidOf(m) {
        assert pidOf(k) in Pids(pidOf, current - previous);
        if m in previous {
          assert pidOf(m) in Pids(pidOf, previous);
        }
      }
    }
  }

  lemma PidsAfter<K>(pidOf: K -> Pid, previous: set<K>, current: set<K>)
    requires PidsDiffer(pidOf, previous) && NoReuse(pidOf, previous, current)
    ensures PidsDiffer(pidOf, current)
    ensures Pids(pidOf, previous) + Pids(pidOf, current - previous) - Pids(pidOf, previous - current)
            == Pids(pidOf, current)
  {
    forall p | p in Pids(pidOf, current) ensures p !in Pids(pidOf, previous - current) {
      var k :| k in current && pidOf(k) == p;
      assert forall m :: m in previous - current ==> pidOf(m) != p;
    }
  }

  /** By pid the log is well formed if and only if no reported walk brings in
      an entry whose pid another entry of that walk or the last one holds. */
  lemma {:induction false} ByPidLogNeedsNoReuse<K>(pidOf: K -> Pid, blocks: seq<Block<K>>, walks: seq<map<K, Pid>>)
    requires AreDiffs(blocks, walks)
    ensures if NeverReuses(pidOf, walks)
            then PidsDiffer(pidOf, Last(walks).Keys)
                 && Replay(ByPid(pidOf, Flatten(blocks))) == Open(Pids(pidOf, Last(walks).Keys))
            else Replay(ByPid(pidOf, Flatten(blocks))) == Broken
    decreases |blocks|
  {
    if blocks == [] {
      assert Pids(pidOf, Last(walks).Keys) == {};
    } else {
      var n := |blocks| - 1;
      var earlier := Flatten(blocks[..n]);
      ByPidLogNeedsNoReuse(pidOf, blocks[..n], walks[..n]);
      ByPidJoins(pidOf, earlier, blocks[n].starts);
      ByPidJoins(pidOf, earlier + blocks[n].starts, blocks[n].exits);
      if NeverReuses(pidOf, walks[..n]) {
        DiffReplaysByPid(pidOf, ByPid(pidOf, earlier), blocks[n], Last(walks[..n]), walks[n]);
      } else {
        BrokenStays(ByPid(pidOf, earlier), ByPid(pidOf, blocks[n].starts));
        BrokenStays(ByPid(pidOf, earlier + blocks[n].starts), ByPid(pidOf, blocks[n].exits));
      }
    }
  }

  /** The same for the whole log of a run, closing events included. */
  lemma PidsAlternateExactlyWithoutReuse<K>(pidOf: K -> Pid, log: seq<Event<K>>, blocks: seq<Block<K>>,
                                            exits: seq<Event<K>>, walks: seq<map<K, Pid>>, ending: Ending)
    requires IsLog(log, blocks, exits, walks, ending)
    ensures Replay(ByPid(pidOf, log)) != Broken <==> NeverReuses(pidOf, walks)
  {
    ByPidLogNeedsNoReuse(pidOf, blocks, walks);
    var head := Flatten(blocks);
    ByPidJoins(pidOf, head, exits);
    ByPidJoins(pidOf, head + exits, Ended(ending));
    assert ByPid(pidOf, Ended<K>(ending)) == Ended<Pid>(ending);
    if NeverReuses(pidOf, walks) {
      ByPidKeys(pidOf, exits);
      ByPidDistinct(pidOf, exits);
      ClosingReplays(ByPid(pidOf, head), ByPid(pidOf, exits), ending);
    } else {
      BrokenStays(ByPid(pidOf, head), ByPid(pidOf, exits));
      BrokenStays(ByPid(pidOf, head + exits), Ended(ending));
    }
  }

  /** Linux keys by pid, so its log is the pid log: every log of a run is well
      formed, and each pid's events alternate, Started first. */
  lemma LinuxLogsAlternatePerPid(log: seq<Event<Pid>>, blocks: seq<Block<Pid>>, exits: seq<Event<Pid>>,
                                 walks: seq<map<Pid, Pid>>, ending: Ending, pid: Pid)
    requires IsLog(log, blocks, exits, walks, ending)
    ensures ByPid((p: Pid) => p, log) == log && Replay(log) != Broken
    ensures forall i :: 0 <= i < |EventsOf(log, pid)| ==> (EventsOf(log, pid)[i].Started? <==> i % 2 == 0)
    ensures pid in Replay(log).live <==> |EventsOf(log, pid)| % 2 == 1
  {
    EveryLogReplays(log, blocks, exits, walks, ending);
    EntriesAlternate(log, pid);
  }

  /** A pid handed from one process to the next between two macOS walks: the
      new Started comes before the old Exited. */
  lemma ReusedPidStartsTwice<K>(pidOf: K -> Pid, first: K, second: K, parent: Pid, blocks: seq<Block<K>>)
    requires first != second && pidOf(first) == pidOf(second)
    requires AreDiffs(blocks, [map[first := parent], map[second := parent]])
    ensures Replay(ByPid(pidOf, Flatten(blocks))) == Broken
    ensures Replay(Flatten(blocks)) == Open({second})
  {
    var walks := [map[first := parent], map[second := parent]];
    assert walks[..1] == [map[first := parent]];
    assert second in walks[1].Keys - Last(walks[..1]).Keys;
    assert !NoReuse(pidOf, Last(walks[..1]).Keys, walks[1].Keys) by {
      assert first in Last(walks[..1]).Keys + walks[1].Keys;
    }
    ByPidLogNeedsNoReuse(pidOf, blocks, walks);
    LogReplaysToKnown(blocks, walks);
  }
}
