/** An independent, unfuelled semantics of path lookup: the operating system's
    walker, which keeps one directory and a list of what is left to enter and
    splices a symbolic link's target in place, before anything that follows it
    (so `alias/..` expands `alias` first).  The archive resolver, which instead
    restarts from the root in a nested call, is proved equivalent to it. */
module ArchiveWalk {
  import opened Common
  import opened ArchivePaths
  import opened ArchiveResolve

  datatype Item = Enter(component: Component) | MustBeDirectory

  datatype Walker = Walker(cwd: Path, todo: seq<Item>)

  function Entering(components: seq<Component>): (items: seq<Item>)
    ensures |items| == |components|
    ensures forall i :: 0 <= i < |items| ==> items[i] == Enter(components[i])
  {
    if components == [] then [] else [Enter(components[0])] + Entering(components[1..])
  }

  function Checks(raw: RawPath): seq<Item> {
    if RequiresDirectory(raw) then [MustBeDirectory] else []
  }

  function Items(raw: RawPath): seq<Item> {
    Entering(Components(raw)) + Checks(raw)
  }

  /** One move of the walker; `None` when lookup fails. */
  function Step(tree: Tree, links: Links, w: Walker): Option<Walker>
    requires w.todo != []
  {
    if !IsDir(tree, w.cwd) then None
    else
      var rest := w.todo[1..];
      match w.todo[0]
      case MustBeDirectory => Some(Walker(w.cwd, rest))
      case Enter(RootDir) => None
      case Enter(CurDir) => Some(Walker(w.cwd, rest))
      case Enter(ParentDir) => if w.cwd == [] then None else Some(Walker(Parent(w.cwd), rest))
      case Enter(Normal(name)) =>
        var at := w.cwd + [name];
        if at !in links then Some(Walker(at, rest))
        else Some(Walker(if links[at].hard then [] else w.cwd, Items(links[at].target) + rest))
  }

  function StepN(tree: Tree, links: Links, n: nat, w: Walker): Option<Walker> {
    if n == 0 then Some(w)
    else if w.todo == [] then None
    else
      match Step(tree, links, w)
      case None => None
      case Some(w') => StepN(tree, links, n - 1, w')
  }

  /** Lookup of `raw` from the destination root ends at `p`. */
  ghost predicate LooksUp(tree: Tree, links: Links, raw: RawPath, p: Path) {
    exists n: nat :: StepN(tree, links, n, Walker([], Items(raw))) == Some(Walker(p, []))
  }

  lemma {:induction false} StepNAdds(tree: Tree, links: Links, m: nat, n: nat, w: Walker, w': Walker)
    requires StepN(tree, links, m, w) == Some(w')
    ensures StepN(tree, links, m + n, w) == StepN(tree, links, n, w')
  {
    if m > 0 {
      StepNAdds(tree, links, m - 1, n, Step(tree, links, w).value, w');
    }
  }

  /** A finished walk is at least as long as any stretch of it. */
  lemma {:induction false} FinishedIsLonger(tree: Tree, links: Links, m: nat, n: nat, w: Walker, w': Walker, p: Path)
    requires StepN(tree, links, m, w) == Some(w')
    requires StepN(tree, links, n, w) == Some(Walker(p, []))
    ensures m <= n && StepN(tree, links, n - m, w') == Some(Walker(p, []))
  {
    if m > 0 && n > 0 {
      FinishedIsLonger(tree, links, m - 1, n - 1, Step(tree, links, w).value, w', p);
    }
  }

  lemma EnteringSplits(components: seq<Component>, rest: seq<Item>)
    requires components != []
    ensures Entering(components) + rest == [Enter(components[0])] + (Entering(components[1..]) + rest)
    ensures (Entering(components) + rest)[0] == Enter(components[0])
    ensures (Entering(components) + rest)[1..] == Entering(components[1..]) + rest
  {
    Splits(Enter(components[0]), Entering(components[1..]), rest);
  }

  lemma Splits<T>(head: T, tail: seq<T>, rest: seq<T>)
    ensures ([head] + tail) + rest == [head] + (tail + rest)
    ensures (([head] + tail) + rest)[0] == head
    ensures (([head] + tail) + rest)[1..] == tail + rest
  {
  }

  /** `.` is only ever the first component, seen at a directory. */
  ghost predicate CurDirFirst(tree: Tree, todo: seq<Component>, cwd: Path) {
    forall i :: 0 <= i < |todo| && todo[i].CurDir? ==> i == 0 && IsDir(tree, cwd)
  }

  lemma ComponentsCurDirFirst(tree: Tree, raw: RawPath, cwd: Path)
    requires IsDir(tree, cwd)
    ensures CurDirFirst(tree, Components(raw), cwd)
    ensures CurDirFirst(tree, Body(raw), cwd)
  {
    BodyIsPlain(raw);
    var all := Components(raw);
    forall i | 0 < i < |all|
      ensures !all[i].CurDir?
    {
      assert all[i] in Body(raw);
    }
  }

  /** The same outcome after `more` further visits. */
  ghost predicate Continues(whole: Outcome, more: nat, tail: Outcome) {
    whole.result == tail.result && |whole.visits| == more + |tail.visits|
  }

  /** A name that is no link is entered at the cost of one visit. */
  lemma NameIsPassed(tree: Tree, links: Links, at: Path, name: Name, todo: seq<Component>, fuel: nat, steps: nat)
    requires fuel > 0 && steps > 0 && IsDir(tree, at) && at + [name] !in links
    ensures Continues(ResolveComponents(tree, links, [Normal(name)] + todo, at, fuel, steps), 1,
                      ResolveComponents(tree, links, todo, at + [name], fuel, steps - 1))
  {
    var cs := [Normal(name)] + todo;
    assert cs[0] == Normal(name) && cs[1..] == todo;
    assert Visit(tree, links, Normal(name), at, fuel, steps) == Outcome(Ok(at + [name]), [Normal(name)]);
  }

  lemma GroundedStep(tree: Tree, links: Links, p: Path, i: nat)
    requires i < |p| && Grounded(tree, links, p)
    ensures IsDir(tree, p[..i]) && p[..i] + [p[i]] == p[..i + 1] && p[..i + 1] !in links
    ensures Normals(p[i..]) == [Normal(p[i])] + Normals(p[i + 1..])
  {
    assert p[i..][1..] == p[i + 1..];
  }

  /** Re-walking the names of a grounded directory from the root leads back to
      it, at a cost of one visit per name. */
  lemma {:induction false} Rewalk(tree: Tree, links: Links, p: Path, i: nat, todo: seq<Component>, fuel: nat, steps: nat)
    requires fuel > 0 && i <= |p| && Grounded(tree, links, p)
    ensures steps < |p| - i ==>
              ResolveComponents(tree, links, Normals(p[i..]) + todo, p[..i], fuel, steps).result == Err(WorkLimit)
    ensures steps >= |p| - i ==>
              Continues(ResolveComponents(tree, links, Normals(p[i..]) + todo, p[..i], fuel, steps), |p| - i,
                        ResolveComponents(tree, links, todo, p, fuel, steps - (|p| - i)))
    decreases |p| - i
  {
    hide ResolveComponents, Grounded;
    if i == |p| {
      assert Normals(p[i..]) + todo == todo && p[..i] == p;
    } else {
      GroundedStep(tree, links, p, i);
      var after := Normals(p[i + 1..]) + todo;
      Regroup([Normal(p[i])], Normals(p[i + 1..]), todo);
      if steps == 0 {
        NothingWithoutSteps(tree, links, [Normal(p[i])] + after, p[..i], fuel);
      } else {
        NameIsPassed(tree, links, p[..i], p[i], after, fuel, steps);
        Rewalk(tree, links, p, i + 1, todo, fuel, steps - 1);
      }
    }
  }

  lemma NothingWithoutSteps(tree: Tree, links: Links, todo: seq<Component>, at: Path, fuel: nat)
    requires fuel > 0 && todo != []
    ensures ResolveComponents(tree, links, todo, at, fuel, 0).result == Err(WorkLimit)
  {
  }

  lemma RewalkFromRoot(tree: Tree, links: Links, p: Path, todo: seq<Component>, fuel: nat, steps: nat)
    requires fuel > 0 && Grounded(tree, links, p)
    ensures steps < |p| ==>
              ResolveComponents(tree, links, Normals(p) + todo, [], fuel, steps).result == Err(WorkLimit)
    ensures steps >= |p| ==>
              Continues(ResolveComponents(tree, links, Normals(p) + todo, [], fuel, steps), |p|,
                        ResolveComponents(tree, links, todo, p, fuel, steps - |p|))
  {
    hide ResolveComponents, Grounded;
    assert p[0..] == p && p[..0] == [];
    Rewalk(tree, links, p, 0, todo, fuel, steps);
  }

  /** Resolving an entry's own path amounts to visiting its last name. */
  lemma EntryFromParent(tree: Tree, links: Links, parent: Path, name: Name, fuel: nat, steps: nat)
    requires fuel > 0 && Grounded(tree, links, parent)
    ensures
      var whole := ResolvePath(tree, links, Names(parent + [name]), fuel, steps).result;
      if steps < |parent| then whole == Err(WorkLimit)
      else whole == ResolveComponents(tree, links, [Normal(name)], parent, fuel, steps - |parent|).result
  {
    var at := parent + [name];
    ComponentsOfNames(at);
    NormalsOfChild(parent, name);
    RewalkFromRoot(tree, links, parent, [Normal(name)], fuel, steps);
  }

  /** Resolving a symbolic link's expansion amounts to walking its target from
      the directory that holds the link. */
  lemma ExpansionFromParent(tree: Tree, links: Links, parent: Path, target: RawPath, fuel: nat, steps: nat)
    requires fuel > 0 && Grounded(tree, links, parent) && IsDir(tree, parent)
    requires parent != [] && !IsAbsolute(target)
    ensures
      var inner := ResolvePath(tree, links, Join(parent, target), fuel, steps).result;
      if steps < |parent| then inner.Err?
      else
        var walked := ResolveComponents(tree, links, Body(target), parent, fuel, steps - |parent|).result;
        inner.Ok? <==> walked.Ok? && (RequiresDirectory(target) ==> IsDir(tree, walked.path))
    ensures
      var inner := ResolvePath(tree, links, Join(parent, target), fuel, steps).result;
      inner.Ok? ==> inner == ResolveComponents(tree, links, Body(target), parent, fuel, steps - |parent|).result
  {
    JoinComponents(parent, target);
    JoinRequiresDirectory(parent, target);
    RewalkFromRoot(tree, links, parent, Body(target), fuel, steps);
  }

  lemma AbsoluteIsRefused(tree: Tree, links: Links, cwd: Path, target: RawPath, fuel: nat, steps: nat)
    requires fuel > 0 && IsAbsolute(target)
    ensures ResolveComponents(tree, links, Components(target), cwd, fuel, steps).result.Err?
  {
    assert Components(target)[0] == RootDir;
  }

  // ---- every successful resolution is a walk

  lemma {:induction false} ComponentsAreWalked(tree: Tree, links: Links, todo: seq<Component>, resolved: Path,
                                               fuel: nat, steps: nat, rest: seq<Item>)
    returns (n: nat)
    requires fuel > 0 && IsDir(tree, []) && Grounded(tree, links, resolved) && CurDirFirst(tree, todo, resolved)
    requires ResolveComponents(tree, links, todo, resolved, fuel, steps).result.Ok?
    ensures StepN(tree, links, n, Walker(resolved, Entering(todo) + rest))
         == Some(Walker(ResolveComponents(tree, links, todo, resolved, fuel, steps).result.path, rest))
    decreases fuel, 1, |todo|
  {
    hide Visit, ResolvePath, Step, Grounded, Entering;
    if todo == [] {
      assert Entering(todo) + rest == rest;
      n := 0;
    } else {
      EnteringSplits(todo, rest);
      var rest' := Entering(todo[1..]) + rest;
      var one := Visit(tree, links, todo[0], resolved, fuel, steps);
      VisitIsGrounded(tree, links, todo[0], resolved, fuel, steps);
      var m := VisitIsWalked(tree, links, todo[0], resolved, fuel, steps, rest');
      n := ComponentsAreWalked(tree, links, todo[1..], one.result.path, fuel, steps - |one.visits|, rest);
      StepNAdds(tree, links, m, n, Walker(resolved, Entering(todo) + rest), Walker(one.result.path, rest'));
      n := m + n;
    }
  }

  lemma {:induction false} VisitIsWalked(tree: Tree, links: Links, c: Component, resolved: Path,
                                         fuel: nat, steps: nat, rest: seq<Item>)
    returns (n: nat)
    requires fuel > 0 && steps > 0 && IsDir(tree, []) && Grounded(tree, links, resolved)
    requires c.CurDir? ==> IsDir(tree, resolved)
    requires Visit(tree, links, c, resolved, fuel, steps).result.Ok?
    ensures StepN(tree, links, n, Walker(resolved, [Enter(c)] + rest))
         == Some(Walker(Visit(tree, links, c, resolved, fuel, steps).result.path, rest))
    decreases fuel, 0, 0
  {
    hide ResolveComponents, ResolvePath, Components, Items, Grounded, RequiresDirectory;
    var w := Walker(resolved, [Enter(c)] + rest);
    assert w.todo[1..] == rest;
    if c.Normal? && resolved + [c.name] in links {
      n := LinkIsWalked(tree, links, resolved, links[resolved + [c.name]], fuel - 1, steps - 1, rest);
      StepNAdds(tree, links, 1, n, w, Step(tree, links, w).value);
      n := 1 + n;
    } else {
      assert StepN(tree, links, 1, w) == Step(tree, links, w);
      n := 1;
    }
  }

  lemma {:induction false} LinkIsWalked(tree: Tree, links: Links, parent: Path, link: Link,
                                        fuel: nat, steps: nat, rest: seq<Item>)
    returns (n: nat)
    requires IsDir(tree, []) && Grounded(tree, links, parent) && IsDir(tree, parent)
    requires ResolvePath(tree, links, Join(if link.hard then [] else parent, link.target), fuel, steps).result.Ok?
    ensures StepN(tree, links, n, Walker(if link.hard then [] else parent, Items(link.target) + rest))
         == Some(Walker(ResolvePath(tree, links, Join(if link.hard then [] else parent, link.target),
                                    fuel, steps).result.path, rest))
    decreases fuel, 4, 0
  {
    if link.hard || parent == [] {
      n := TargetIsWalked(tree, links, [], Components(link.target), link.target, fuel, steps, rest);
    } else {
      n := LinkBelowIsWalked(tree, links, parent, link.target, fuel, steps, rest);
    }
  }

  lemma {:induction false} LinkBelowIsWalked(tree: Tree, links: Links, parent: Path, target: RawPath,
                                             fuel: nat, steps: nat, rest: seq<Item>)
    returns (n: nat)
    requires IsDir(tree, []) && Grounded(tree, links, parent) && IsDir(tree, parent) && parent != []
    requires ResolvePath(tree, links, Join(parent, target), fuel, steps).result.Ok?
    ensures StepN(tree, links, n, Walker(parent, Items(target) + rest))
         == Some(Walker(ResolvePath(tree, links, Join(parent, target), fuel, steps).result.path, rest))
    decreases fuel, 3, 0
  {
    if IsAbsolute(target) {
      AbsoluteIsRefused(tree, links, [], target, fuel, steps);
      assert false;
    } else {
      assert Components(target) == Body(target) || Components(target) == [CurDir] + Body(target) by {
        JoinComponents(parent, target);
      }
      ExpansionFromParent(tree, links, parent, target, fuel, steps);
      n := TargetIsWalked(tree, links, parent, Body(target), target, fuel, steps - |parent|, rest);
    }
  }

  lemma ItemsSplit(target: RawPath, rest: seq<Item>)
    ensures Items(target) + rest == Entering(Components(target)) + (Checks(target) + rest)
    ensures |Items(target)| == |Components(target)| + |Checks(target)|
  {
    Regroup(Entering(Components(target)), Checks(target), rest);
  }

  /** A leading `.` is passed over. */
  lemma DotIsPassed(tree: Tree, links: Links, cwd: Path, components: seq<Component>, todo: seq<Component>, rest: seq<Item>)
    returns (k: nat)
    requires IsDir(tree, cwd) && (components == todo || components == [CurDir] + todo)
    ensures StepN(tree, links, k, Walker(cwd, Entering(components) + rest)) == Some(Walker(cwd, Entering(todo) + rest))
  {
    if components == todo {
      return 0;
    }
    EnteringSplits(components, rest);
    assert components[1..] == todo;
    var after := Walker(cwd, Entering(todo) + rest);
    assert StepN(tree, links, 0, after) == Some(after);
    k := 1;
  }

  lemma CheckIsPassed(tree: Tree, links: Links, target: RawPath, at: Path, rest: seq<Item>) returns (k: nat)
    requires RequiresDirectory(target) ==> IsDir(tree, at)
    ensures StepN(tree, links, k, Walker(at, Checks(target) + rest)) == Some(Walker(at, rest))
  {
    if !RequiresDirectory(target) {
      assert Checks(target) + rest == rest;
      return 0;
    }
    assert (Checks(target) + rest)[1..] == rest;
    assert StepN(tree, links, 0, Walker(at, rest)) == Some(Walker(at, rest));
    k := 1;
  }

  /** The walk of a spliced target: its components, perhaps after a leading
      `.`, then its directory check. */
  lemma {:induction false} TargetIsWalked(tree: Tree, links: Links, cwd: Path, todo: seq<Component>, target: RawPath,
                                          fuel: nat, steps: nat, rest: seq<Item>)
    returns (n: nat)
    requires fuel > 0 && IsDir(tree, []) && Grounded(tree, links, cwd) && IsDir(tree, cwd)
    requires Components(target) == todo || Components(target) == [CurDir] + todo
    requires todo == Body(target) || todo == Components(target)
    requires ResolveComponents(tree, links, todo, cwd, fuel, steps).result.Ok?
    requires RequiresDirectory(target) ==>
               IsDir(tree, ResolveComponents(tree, links, todo, cwd, fuel, steps).result.path)
    ensures StepN(tree, links, n, Walker(cwd, Items(target) + rest))
         == Some(Walker(ResolveComponents(tree, links, todo, cwd, fuel, steps).result.path, rest))
    decreases fuel, 2, 0
  {
    hide ResolveComponents, StepN, Items, Components, Body, Grounded, Entering;
    var q := ResolveComponents(tree, links, todo, cwd, fuel, steps).result.path;
    var start := Walker(cwd, Items(target) + rest);
    var rest1 := Checks(target) + rest;
    var middle := Walker(cwd, Entering(todo) + rest1);
    ComponentsCurDirFirst(tree, target, cwd);
    ItemsSplit(target, rest);
    var k := DotIsPassed(tree, links, cwd, Components(target), todo, rest1);
    var m := ComponentsAreWalked(tree, links, todo, cwd, fuel, steps, rest1);
    var j := CheckIsPassed(tree, links, target, q, rest);
    StepNAdds(tree, links, m, j, middle, Walker(q, rest1));
    StepNAdds(tree, links, k, m + j, start, middle);
    n := k + m + j;
  }

  // ---- the two together

  /** A resolution that succeeds at any depth and budget is what the operating
      system's lookup gives. */
  lemma ResolverIsSound(tree: Tree, links: Links, raw: RawPath, fuel: nat, steps: nat)
    requires IsDir(tree, []) && ResolvePath(tree, links, raw, fuel, steps).result.Ok?
    ensures LooksUp(tree, links, raw, ResolvePath(tree, links, raw, fuel, steps).result.path)
  {
    ComponentsCurDirFirst(tree, raw, []);
    var n := TargetIsWalked(tree, links, [], Components(raw), raw, fuel, steps, []);
    assert Items(raw) + [] == Items(raw);
  }

  /** Lookup is a function: it never ends at two places. */
  lemma LookupIsUnique(tree: Tree, links: Links, raw: RawPath, p: Path, q: Path)
    requires LooksUp(tree, links, raw, p) && LooksUp(tree, links, raw, q)
    ensures p == q
  {
    var w := Walker([], Items(raw));
    var m: nat :| StepN(tree, links, m, w) == Some(Walker(p, []));
    var n: nat :| StepN(tree, links, n, w) == Some(Walker(q, []));
    FinishedIsLonger(tree, links, m, n, w, Walker(p, []), q);
    FinishedIsLonger(tree, links, n, m, w, Walker(q, []), p);
  }

  // ---- cycles

  lemma StepKeepsTheRest(tree: Tree, links: Links, cwd: Path, todo: seq<Item>, rest: seq<Item>)
    requires todo != []
    ensures Step(tree, links, Walker(cwd, todo + rest)).Some? <==> Step(tree, links, Walker(cwd, todo)).Some?
    ensures var alone := Step(tree, links, Walker(cwd, todo));
            alone.Some? ==> Step(tree, links, Walker(cwd, todo + rest))
                            == Some(Walker(alone.value.cwd, alone.value.todo + rest))
  {
    var all := todo + rest;
    assert all[0] == todo[0] && all[1..] == todo[1..] + rest;
    if todo[0].Enter? && todo[0].component.Normal? && cwd + [todo[0].component.name] in links {
      var inner := Items(links[cwd + [todo[0].component.name]].target);
      assert inner + (todo[1..] + rest) == (inner + todo[1..]) + rest;
    }
  }

  /** What finishes with more to do afterwards first finishes without it. */
  lemma {:induction false} FinishesAlone(tree: Tree, links: Links, n: nat, cwd: Path, todo: seq<Item>,
                                         rest: seq<Item>, p: Path)
    returns (m: nat, q: Path)
    requires StepN(tree, links, n, Walker(cwd, todo + rest)) == Some(Walker(p, []))
    ensures m <= n && StepN(tree, links, m, Walker(cwd, todo)) == Some(Walker(q, []))
    ensures StepN(tree, links, n - m, Walker(q, rest)) == Some(Walker(p, []))
  {
    if todo == [] {
      assert todo + rest == rest;
      return 0, cwd;
    }
    StepKeepsTheRest(tree, links, cwd, todo, rest);
    var next := Step(tree, links, Walker(cwd, todo)).value;
    m, q := FinishesAlone(tree, links, n - 1, next.cwd, next.todo, rest, p);
    m := m + 1;
  }

  lemma {:induction false} CycleNeverFinishes(tree: Tree, links: Links, k: nat, n: nat, w: Walker,
                                              rest: seq<Item>, p: Path)
    requires k > 0 && StepN(tree, links, k, w) == Some(Walker(w.cwd, w.todo + rest))
    ensures StepN(tree, links, n, w) != Some(Walker(p, []))
    decreases n
  {
    if StepN(tree, links, n, w) == Some(Walker(p, [])) {
      FinishedIsLonger(tree, links, k, n, w, Walker(w.cwd, w.todo + rest), p);
      var m, q := FinishesAlone(tree, links, n - k, w.cwd, w.todo, rest, p);
      CycleNeverFinishes(tree, links, k, m, w, rest, q);
    }
  }

  /** Lookup of the entry `name` in `parent` gets, after `k > 0` moves, to
      entering that same entry again. */
  ghost predicate ComesBack(tree: Tree, links: Links, parent: Path, name: Name, k: nat, rest: seq<Item>) {
    var w := Walker(parent, [Enter(Normal(name))]);
    k > 0 && StepN(tree, links, k, w) == Some(Walker(parent, w.todo + rest))
  }

  lemma CyclicEntryIsRefused(tree: Tree, links: Links, parent: Path, name: Name, k: nat, rest: seq<Item>,
                             fuel: nat, steps: nat)
    requires IsDir(tree, []) && Grounded(tree, links, parent) && fuel > 0
    requires ComesBack(tree, links, parent, name, k, rest)
    ensures ResolveComponents(tree, links, [Normal(name)], parent, fuel, steps).result.Err?
  {
    var todo := [Normal(name)];
    var o := ResolveComponents(tree, links, todo, parent, fuel, steps);
    if o.result.Ok? {
      var n := ComponentsAreWalked(tree, links, todo, parent, fuel, steps, []);
      var w := Walker(parent, [Enter(Normal(name))]);
      assert Entering(todo) + [] == w.todo;
      CycleNeverFinishes(tree, links, k, n, w, rest, o.result.path);
    }
  }

  /** A link whose lookup comes back to the link itself is refused at every
      depth and budget. */
  lemma CyclicLinkIsRefused(tree: Tree, links: Links, parent: Path, name: Name, k: nat, rest: seq<Item>,
                            raw: RawPath, fuel: nat, steps: nat)
    requires IsDir(tree, []) && Grounded(tree, links, parent)
    requires ComesBack(tree, links, parent, name, k, rest)
    requires raw == Names(parent + [name])
    ensures ResolvePath(tree, links, raw, fuel, steps).result.Err?
  {
    if fuel > 0 {
      if steps >= |parent| {
        CyclicEntryIsRefused(tree, links, parent, name, k, rest, fuel, steps - |parent|);
      }
      EntryFromParent(tree, links, parent, name, fuel, steps);
    }
  }
}
