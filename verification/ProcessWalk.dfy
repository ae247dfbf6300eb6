/** The worklist walks that list a process's descendants: over the `children`
    files on Linux, and over a process snapshot on macOS. */
module ProcessWalk {
  import opened Common

  /** A macOS process identity: a pid can be reused, an identity cannot. */
  datatype Identity = Identity(pid: Pid, started: nat)

  datatype ProcessSnapshot = ProcessSnapshot(identity: Identity, parentPid: Pid)

  /** What a pid's entry lists; a missing entry is an unreadable file. */
  function Kids<K>(children: map<Pid, seq<K>>, pid: Pid): seq<K> {
    if pid in children then children[pid] else []
  }

  /** The pid a line of child steps has come to. */
  function EndOf<K>(pidOf: K -> Pid, root: Pid, line: seq<K>): Pid {
    if line == [] then root else pidOf(line[|line| - 1])
  }

  /** A line of child steps: each entry is listed under the one before it, the
      first under the root. */
  ghost predicate IsLine<K>(children: map<Pid, seq<K>>, pidOf: K -> Pid, root: Pid, line: seq<K>) {
    line != [] ==>
      var front := line[..|line| - 1];
      IsLine(children, pidOf, root, front) && line[|line| - 1] in Kids(children, EndOf(pidOf, root, front))
  }

  ghost predicate IsLineTo<K>(children: map<Pid, seq<K>>, pidOf: K -> Pid, root: Pid, line: seq<K>, k: K) {
    line != [] && line[|line| - 1] == k && IsLine(children, pidOf, root, line)
  }

  /** Reachable from the root in one or more child steps. */
  ghost predicate Descends<K(!new)>(children: map<Pid, seq<K>>, pidOf: K -> Pid, root: Pid, k: K) {
    exists line :: IsLineTo(children, pidOf, root, line, k)
  }

  /** A pid the walk must expand: the root, or the pid of a found entry. */
  ghost predicate Known<K>(found: set<K>, pidOf: K -> Pid, root: Pid, pid: Pid) {
    pid == root || exists k :: k in found && pidOf(k) == pid
  }

  ghost predicate AllKnown<K>(found: set<K>, pidOf: K -> Pid, root: Pid, pids: seq<Pid>) {
    forall pid :: pid in pids ==> Known(found, pidOf, root, pid)
  }

  /** Each recorded parent is known and really lists the entry. */
  ghost predicate ParentsListTheirChildren<K>(children: map<Pid, seq<K>>, pidOf: K -> Pid, root: Pid,
                                              result: map<K, Pid>) {
    forall k :: k in result ==> Known(result.Keys, pidOf, root, result[k]) && k in Kids(children, result[k])
  }

  ghost predicate AllDescend<K(!new)>(children: map<Pid, seq<K>>, pidOf: K -> Pid, root: Pid, found: set<K>) {
    forall k :: k in found ==> Descends(children, pidOf, root, k)
  }

  /** The whole list of a pid has been taken up. */
  ghost predicate Expanded<K>(children: map<Pid, seq<K>>, found: set<K>, pid: Pid) {
    forall k :: k in Kids(children, pid) ==> k in found
  }

  /** Every known pid is waiting or has been taken up. */
  ghost predicate Complete<K>(children: map<Pid, seq<K>>, pidOf: K -> Pid, root: Pid, found: set<K>,
                              waiting: seq<Pid>) {
    forall pid :: Known(found, pidOf, root, pid) ==> pid in waiting || Expanded(children, found, pid)
  }

  /** The entries of all lists that are yet to be found: what bounds the walk. */
  ghost function Unseen<K>(children: map<Pid, seq<K>>, found: set<K>): set<K> {
    set pid, k | pid in children && k in children[pid] && k !in found :: k
  }

  lemma Extend<K(!new)>(children: map<Pid, seq<K>>, pidOf: K -> Pid, root: Pid, found: set<K>, pid: Pid, k: K)
    requires AllDescend(children, pidOf, root, found)
    requires Known(found, pidOf, root, pid) && k in Kids(children, pid)
    ensures Descends(children, pidOf, root, k)
  {
    var line: seq<K> := [];
    if pid != root {
      var m :| m in found && pidOf(m) == pid;
      line :| IsLineTo(children, pidOf, root, line, m);
    }
    assert IsLine(children, pidOf, root, line) && EndOf(pidOf, root, line) == pid;
    assert (line + [k])[..|line + [k]| - 1] == line;
    assert IsLineTo(children, pidOf, root, line + [k], k);
  }

  /** A complete set of entries holds the end of every line. */
  lemma {:induction false} LinesStayInside<K>(children: map<Pid, seq<K>>, pidOf: K -> Pid, root: Pid,
                                              found: set<K>, line: seq<K>)
    requires Complete(children, pidOf, root, found, [])
    requires IsLine(children, pidOf, root, line) && line != []
    ensures line[|line| - 1] in found
    decreases |line|
  {
    var front := line[..|line| - 1];
    if front != [] {
      LinesStayInside(children, pidOf, root, found, front);
    }
    assert Known(found, pidOf, root, EndOf(pidOf, root, front));
  }

  /** What taking up one list does to the result. */
  ghost predicate TakesUp<K(!new)>(kids: seq<K>, pid: Pid, before: map<K, Pid>, result: map<K, Pid>) {
    && (forall k :: k in result <==> k in before || k in kids)
    && (forall k :: k in result ==> result[k] == if k in kids then pid else before[k])
  }

  /** The entries seen for the first time were pushed, each once. */
  ghost predicate Pushes<K>(pidOf: K -> Pid, before: set<K>, waiting: seq<Pid>, found: set<K>, stack: seq<Pid>) {
    && |stack| - |waiting| == |found| - |before|
    && (forall p :: p in waiting ==> p in stack)
    && (forall k :: k in found && k !in before ==> pidOf(k) in stack)
    && (forall p :: p in stack && p !in waiting ==> exists k :: k in found && pidOf(k) == p)
  }

  /** Take up one pid's list, pushing the entries seen for the first time. */
  method Expand<K(==,!new)>(kids: seq<K>, pidOf: K -> Pid, pid: Pid, before: map<K, Pid>, waiting: seq<Pid>)
    returns (result: map<K, Pid>, stack: seq<Pid>)
    ensures TakesUp(kids, pid, before, result)
    ensures Pushes(pidOf, before.Keys, waiting, result.Keys, stack)
  {
    hide TakesUp, Pushes;
    result, stack := before, waiting;
    NothingTakenUp(pidOf, pid, before, waiting, kids[..0]);
    for i := 0 to |kids|
      invariant TakesUp(kids[..i], pid, before, result)
      invariant Pushes(pidOf, before.Keys, waiting, result.Keys, stack)
    {
      TakesUpOne(kids[..i], pid, before, result, kids[i]);
      PushesOne(pidOf, before.Keys, waiting, result.Keys, stack, kids[i]);
      assert kids[..i + 1] == kids[..i] + [kids[i]];
      assert result[kids[i] := pid].Keys == result.Keys + {kids[i]};
      if kids[i] !in result {
        stack := stack + [pidOf(kids[i])];
      }
      result := result[kids[i] := pid];
    }
    assert kids[..|kids|] == kids;
  }

  lemma NothingTakenUp<K(!new)>(pidOf: K -> Pid, pid: Pid, before: map<K, Pid>, waiting: seq<Pid>, none: seq<K>)
    requires none == []
    ensures TakesUp(none, pid, before, before) && Pushes(pidOf, before.Keys, waiting, before.Keys, waiting)
  {
  }

  lemma TakesUpOne<K(!new)>(kids: seq<K>, pid: Pid, before: map<K, Pid>, result: map<K, Pid>, k: K)
    requires TakesUp(kids, pid, before, result)
    ensures TakesUp(kids + [k], pid, before, result[k := pid])
  {
    assert forall m :: m in kids + [k] <==> m in kids || m == k;
  }

  lemma PushesOne<K>(pidOf: K -> Pid, before: set<K>, waiting: seq<Pid>, found: set<K>, stack: seq<Pid>, k: K)
    requires Pushes(pidOf, before, waiting, found, stack)
    ensures Pushes(pidOf, before, waiting, found + {k}, if k in found then stack else stack + [pidOf(k)])
  {
    if k in found {
      assert found + {k} == found;
    } else {
      var pushed := stack + [pidOf(k)];
      assert pidOf(k) in pushed;
      assert forall p :: p in pushed <==> p in stack || p == pidOf(k);
      assert |found + {k}| == |found| + 1;
    }
  }

  /** The walk: exactly the entries reachable in one or more child steps, over
      any lists, cyclic or not. Each entry is pushed once, so the number of
      lists taken up is one more than the number of entries found. */
  method Walk<K(==,!new)>(children: map<Pid, seq<K>>, pidOf: K -> Pid, root: Pid)
    returns (result: map<K, Pid>, popped: seq<Pid>)
    ensures forall k :: k in result <==> Descends(children, pidOf, root, k)
    ensures ParentsListTheirChildren(children, pidOf, root, result)
    ensures |popped| == |result.Keys| + 1
  {
    result, popped := map[], [];
    var stack := [root];
    while stack != []
      invariant Walking(children, pidOf, root, result, stack)
      invariant |popped| + |stack| == |result.Keys| + 1
      decreases Unseen(children, result.Keys), |stack|
    {
      var pid, waiting := stack[|stack| - 1], stack[..|stack| - 1];
      LastSplits(stack);
      popped := popped + [pid];
      var found, pushed := Expand(Kids(children, pid), pidOf, pid, result, waiting);
      OneRound(children, pidOf, root, result, waiting, pid, found, pushed);
      result, stack := found, pushed;
    }
    AllFound(children, pidOf, root, result.Keys);
  }

  lemma AllFound<K(!new)>(children: map<Pid, seq<K>>, pidOf: K -> Pid, root: Pid, found: set<K>)
    requires AllDescend(children, pidOf, root, found) && Complete(children, pidOf, root, found, [])
    ensures forall k :: k in found <==> Descends(children, pidOf, root, k)
  {
    forall k | Descends(children, pidOf, root, k) ensures k in found {
      var line :| IsLineTo(children, pidOf, root, line, k);
      LinesStayInside(children, pidOf, root, found, line);
    }
  }

  /** What the walk keeps between two lists. */
  ghost predicate Walking<K(!new)>(children: map<Pid, seq<K>>, pidOf: K -> Pid, root: Pid, result: map<K, Pid>,
                                   stack: seq<Pid>) {
    && AllKnown(result.Keys, pidOf, root, stack)
    && AllDescend(children, pidOf, root, result.Keys)
    && ParentsListTheirChildren(children, pidOf, root, result)
    && Complete(children, pidOf, root, result.Keys, stack)
  }

  lemma OneRound<K(!new)>(children: map<Pid, seq<K>>, pidOf: K -> Pid, root: Pid, before: map<K, Pid>,
                          waiting: seq<Pid>, pid: Pid, result: map<K, Pid>, stack: seq<Pid>)
    requires Walking(children, pidOf, root, before, waiting + [pid])
    requires TakesUp(Kids(children, pid), pid, before, result)
    requires Pushes(pidOf, before.Keys, waiting, result.Keys, stack)
    ensures Walking(children, pidOf, root, result, stack)
    ensures (result.Keys == before.Keys && |stack| == |waiting|)
            || Unseen(children, result.Keys) < Unseen(children, before.Keys)
  {
    assert Known(before.Keys, pidOf, root, pid) by { assert pid in waiting + [pid]; }
    StillKnown(pidOf, root, before.Keys, result.Keys, waiting + [pid]);
    forall k | k in result.Keys ensures Descends(children, pidOf, root, k) {
      if k in Kids(children, pid) {
        Extend(children, pidOf, root, before.Keys, pid, k);
      }
    }
    StillParents(children, pidOf, root, before, pid, result);
    StillComplete(children, pidOf, root, before.Keys, waiting, pid, result.Keys, stack);
    Progress(children, before.Keys, pid, result.Keys);
  }

  lemma StillKnown<K>(pidOf: K -> Pid, root: Pid, before: set<K>, found: set<K>, pids: seq<Pid>)
    requires AllKnown(before, pidOf, root, pids) && before <= found
    ensures AllKnown(found, pidOf, root, pids)
  {
    forall pid | pid in pids ensures Known(found, pidOf, root, pid) {
      assert Known(before, pidOf, root, pid);
    }
  }

  lemma StillParents<K(!new)>(children: map<Pid, seq<K>>, pidOf: K -> Pid, root: Pid, before: map<K, Pid>, pid: Pid,
                        result: map<K, Pid>)
    requires ParentsListTheirChildren(children, pidOf, root, before)
    requires Known(before.Keys, pidOf, root, pid)
    requires TakesUp(Kids(children, pid), pid, before, result)
    ensures ParentsListTheirChildren(children, pidOf, root, result)
  {
    forall k | k in result
      ensures Known(result.Keys, pidOf, root, result[k]) && k in Kids(children, result[k])
    {
      assert Known(before.Keys, pidOf, root, result[k]);
    }
  }

  lemma StillComplete<K>(children: map<Pid, seq<K>>, pidOf: K -> Pid, root: Pid, before: set<K>,
                         waiting: seq<Pid>, pid: Pid, found: set<K>, stack: seq<Pid>)
    requires Complete(children, pidOf, root, before, waiting + [pid])
    requires before <= found && Expanded(children, found, pid)
    requires Pushes(pidOf, before, waiting, found, stack)
    ensures Complete(children, pidOf, root, found, stack)
  {
    forall p | Known(found, pidOf, root, p) && p !in stack ensures Expanded(children, found, p) {
      if p != pid {
        assert Known(before, pidOf, root, p);
        assert Expanded(children, before, p);
      }
    }
  }

  lemma Progress<K(!new)>(children: map<Pid, seq<K>>, before: set<K>, pid: Pid, found: set<K>)
    requires forall k :: k in found <==> k in before || k in Kids(children, pid)
    ensures found == before || Unseen(children, found) < Unseen(children, before)
  {
    if found != before {
      var k :| k in found && k !in before;
      assert k in Unseen(children, before) && k !in Unseen(children, found);
    }
  }

  /** Linux: the entries are pids themselves. */
  method DescendantPids(children: map<Pid, seq<Pid>>, root: Pid) returns (result: map<Pid, Pid>)
    ensures forall pid :: pid in result <==> Descends(children, p => p, root, pid)
    ensures forall pid :: pid in result ==>
              (result[pid] == root || result[pid] in result) && pid in Kids(children, result[pid])
  {
    var popped;
    result, popped := Walk(children, (p: Pid) => p, root);
  }

  /** Exactly the identities listed with a given parent, in snapshot order. */
  function ChildrenOf(snapshots: seq<ProcessSnapshot>, pid: Pid): seq<Identity> {
    if snapshots == [] then []
    else
      var rest, last := snapshots[..|snapshots| - 1], snapshots[|snapshots| - 1];
      ChildrenOf(rest, pid) + if last.parentPid == pid then [last.identity] else []
  }

  ghost predicate ListsByParent(children: map<Pid, seq<Identity>>, snapshots: seq<ProcessSnapshot>) {
    forall pid :: Kids(children, pid) == ChildrenOf(snapshots, pid)
  }

  method GroupByParent(snapshots: seq<ProcessSnapshot>) returns (children: map<Pid, seq<Identity>>)
    ensures ListsByParent(children, snapshots)
  {
    children := map[];
    for i := 0 to |snapshots|
      invariant ListsByParent(children, snapshots[..i])
    {
      var snapshot := snapshots[i];
      assert snapshots[..i + 1][..i] == snapshots[..i];
      children := children[snapshot.parentPid := Kids(children, snapshot.parentPid) + [snapshot.identity]];
    }
    assert snapshots[..|snapshots|] == snapshots;
  }

  /** Parent links of a snapshot, followed from the root down. */
  ghost predicate IsAncestry(snapshots: seq<ProcessSnapshot>, root: Pid, line: seq<ProcessSnapshot>) {
    forall i :: 0 <= i < |line| ==> line[i] in snapshots && line[i].parentPid == Above(root, line, i)
  }

  function Above(root: Pid, line: seq<ProcessSnapshot>, i: nat): Pid
    requires i <= |line|
  {
    if i == 0 then root else line[i - 1].identity.pid
  }

  ghost predicate IsAncestryOf(snapshots: seq<ProcessSnapshot>, root: Pid, line: seq<ProcessSnapshot>, k: Identity) {
    line != [] && line[|line| - 1].identity == k && IsAncestry(snapshots, root, line)
  }

  ghost predicate IsDescendant(snapshots: seq<ProcessSnapshot>, root: Pid, k: Identity) {
    exists line :: IsAncestryOf(snapshots, root, line, k)
  }

  lemma {:induction false} ListedMeansRow(snapshots: seq<ProcessSnapshot>, pid: Pid, k: Identity)
    ensures k in ChildrenOf(snapshots, pid) <==> ProcessSnapshot(k, pid) in snapshots
    decreases |snapshots|
  {
    if snapshots != [] {
      var rest, last := snapshots[..|snapshots| - 1], snapshots[|snapshots| - 1];
      assert snapshots == rest + [last];
      ListedMeansRow(rest, pid, k);
    }
  }

  lemma AncestryGrows(snapshots: seq<ProcessSnapshot>, root: Pid, line: seq<ProcessSnapshot>, row: ProcessSnapshot)
    requires IsAncestry(snapshots, root, line)
    requires row in snapshots && row.parentPid == Above(root, line, |line|)
    ensures IsAncestry(snapshots, root, line + [row])
  {
    var longer := line + [row];
    forall i | 0 <= i < |longer| ensures longer[i] in snapshots && longer[i].parentPid == Above(root, longer, i) {
      if i < |line| {
        assert longer[i] == line[i] && Above(root, longer, i) == Above(root, line, i);
      }
    }
  }

  lemma {:induction false} LineGivesAncestry(snapshots: seq<ProcessSnapshot>, children: map<Pid, seq<Identity>>,
                                             root: Pid, line: seq<Identity>)
    returns (rows: seq<ProcessSnapshot>)
    requires ListsByParent(children, snapshots)
    requires IsLine(children, PidOf, root, line)
    ensures |rows| == |line| && IsAncestry(snapshots, root, rows)
    ensures line != [] ==> rows[|rows| - 1].identity == line[|line| - 1]
    decreases |line|
  {
    rows := [];
    if line != [] {
      var front, last := line[..|line| - 1], line[|line| - 1];
      var above := LineGivesAncestry(snapshots, children, root, front);
      var row := ProcessSnapshot(last, EndOf(PidOf, root, front));
      ListedMeansRow(snapshots, row.parentPid, last);
      AncestryGrows(snapshots, root, above, row);
      rows := above + [row];
    }
  }

  lemma {:induction false} AncestryGivesLine(snapshots: seq<ProcessSnapshot>, children: map<Pid, seq<Identity>>,
                                             root: Pid, rows: seq<ProcessSnapshot>)
    returns (line: seq<Identity>)
    requires ListsByParent(children, snapshots)
    requires IsAncestry(snapshots, root, rows)
    ensures |line| == |rows| && IsLine(children, PidOf, root, line)
    ensures rows != [] ==> line[|line| - 1] == rows[|rows| - 1].identity
    decreases |rows|
  {
    line := [];
    if rows != [] {
      hide ChildrenOf, IsAncestry, IsLine;
      var front, last := rows[..|rows| - 1], rows[|rows| - 1];
      AncestryShortens(snapshots, root, rows);
      var start := AncestryGivesLine(snapshots, children, root, front);
      ListedMeansRow(snapshots, last.parentPid, last.identity);
      assert last == ProcessSnapshot(last.identity, last.parentPid);
      LineGrows(children, PidOf, root, start, last.identity);
      line := start + [last.identity];
    }
  }

  lemma AncestryShortens(snapshots: seq<ProcessSnapshot>, root: Pid, rows: seq<ProcessSnapshot>)
    requires rows != [] && IsAncestry(snapshots, root, rows)
    ensures IsAncestry(snapshots, root, rows[..|rows| - 1])
    ensures rows[|rows| - 1] in snapshots && rows[|rows| - 1].parentPid == Above(root, rows, |rows| - 1)
  {
    var front := rows[..|rows| - 1];
    assert forall i :: 0 <= i < |front| ==> front[i] == rows[i] && Above(root, front, i) == Above(root, rows, i);
  }

  lemma LineGrows<K>(children: map<Pid, seq<K>>, pidOf: K -> Pid, root: Pid, line: seq<K>, k: K)
    requires IsLine(children, pidOf, root, line) && k in Kids(children, EndOf(pidOf, root, line))
    ensures IsLine(children, pidOf, root, line + [k])
  {
    assert (line + [k])[..|line|] == line;
  }

  /** Walking the lists is following the parent links. */
  lemma ListsFollowParents(snapshots: seq<ProcessSnapshot>, children: map<Pid, seq<Identity>>, root: Pid, k: Identity)
    requires ListsByParent(children, snapshots)
    ensures Descends(children, PidOf, root, k) <==> IsDescendant(snapshots, root, k)
  {
    if Descends(children, PidOf, root, k) {
      var line :| IsLineTo(children, PidOf, root, line, k);
      var rows := LineGivesAncestry(snapshots, children, root, line);
      assert IsAncestryOf(snapshots, root, rows, k);
    }
    if IsDescendant(snapshots, root, k) {
      var rows :| IsAncestryOf(snapshots, root, rows, k);
      var line := AncestryGivesLine(snapshots, children, root, rows);
      assert IsLineTo(children, PidOf, root, line, k);
    }
  }

  function PidOf(k: Identity): Pid { k.pid }

  /** macOS: the entries are identities, found through their pids. */
  method DescendantsOf(root: Pid, snapshots: seq<ProcessSnapshot>) returns (result: map<Identity, Pid>)
    ensures forall k :: k in result <==> IsDescendant(snapshots, root, k)
    ensures forall k :: k in result ==> ProcessSnapshot(k, result[k]) in snapshots
    ensures forall k :: k in result ==> result[k] == root || exists m :: m in result && m.pid == result[k]
  {
    var children := GroupByParent(snapshots);
    var popped;
    result, popped := Walk(children, PidOf, root);
    forall k ensures k in result <==> IsDescendant(snapshots, root, k) {
      ListsFollowParents(snapshots, children, root, k);
    }
    forall k | k in result ensures ProcessSnapshot(k, result[k]) in snapshots {
      ListedMeansRow(snapshots, result[k], k);
    }
  }
}
