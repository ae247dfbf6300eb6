/** Why the resolver refuses: unless it ran into one of its two limits, the
    operating system's walker stops as well, at the place and for the reason
    the error names. */
module ArchiveRefusal {
  import opened Common
  import opened ArchivePaths
  import opened ArchiveResolve
  import opened ArchiveWalk

  predicate IsLimit(e: ResolveError) {
    e.WorkLimit? || e.ExcessiveDepth?
  }

  /** The walker can go no further from `w`, for the reason `e`. */
  ghost predicate IsStuck(tree: Tree, w: Walker, e: ResolveError) {
    && w.todo != []
    && match e
       case Missing => w.cwd !in tree
       case TraversesNonDirectory => w.cwd in tree && tree[w.cwd].File? && w.todo[0].Enter?
       case NeedsDirectory => w.cwd in tree && tree[w.cwd].File? && w.todo[0].MustBeDirectory?
       case EscapesDestination => w.cwd == [] && w.todo[0] == Enter(ParentDir)
       case AbsoluteTarget => w.todo[0] == Enter(RootDir)
       case WorkLimit => false
       case ExcessiveDepth => false
  }

  /** After `n` moves from `w` the walker is stuck. */
  ghost predicate Sticks(tree: Tree, links: Links, n: nat, w: Walker, e: ResolveError) {
    StepN(tree, links, n, w).Some? && IsStuck(tree, StepN(tree, links, n, w).value, e)
  }

  lemma SticksLater(tree: Tree, links: Links, m: nat, n: nat, w: Walker, w': Walker, e: ResolveError)
    requires StepN(tree, links, m, w) == Some(w') && Sticks(tree, links, n, w', e)
    ensures Sticks(tree, links, m + n, w, e)
  {
    StepNAdds(tree, links, m, n, w, w');
  }

  lemma {:induction false} ComponentsStick(tree: Tree, links: Links, todo: seq<Component>, resolved: Path,
                                           fuel: nat, steps: nat, rest: seq<Item>)
    returns (n: nat)
    requires fuel > 0 && IsDir(tree, []) && Grounded(tree, links, resolved) && CurDirFirst(tree, todo, resolved)
    requires var r := ResolveComponents(tree, links, todo, resolved, fuel, steps).result; r.Err? && !IsLimit(r.error)
    ensures Sticks(tree, links, n, Walker(resolved, Entering(todo) + rest),
                   ResolveComponents(tree, links, todo, resolved, fuel, steps).result.error)
    decreases fuel, 1, |todo|
  {
    hide Visit, ResolvePath, Step, Grounded, Entering, Sticks, StepN;
    EnteringSplits(todo, rest);
    var rest' := Entering(todo[1..]) + rest;
    var one := Visit(tree, links, todo[0], resolved, fuel, steps);
    if one.result.Err? {
      n := VisitSticks(tree, links, todo[0], resolved, fuel, steps, rest');
    } else {
      VisitIsGrounded(tree, links, todo[0], resolved, fuel, steps);
      var m := VisitIsWalked(tree, links, todo[0], resolved, fuel, steps, rest');
      n := ComponentsStick(tree, links, todo[1..], one.result.path, fuel, steps - |one.visits|, rest);
      SticksLater(tree, links, m, n, Walker(resolved, Entering(todo) + rest), Walker(one.result.path, rest'),
                  ResolveComponents(tree, links, todo, resolved, fuel, steps).result.error);
      n := m + n;
    }
  }

  lemma {:induction false} VisitSticks(tree: Tree, links: Links, c: Component, resolved: Path,
                                       fuel: nat, steps: nat, rest: seq<Item>)
    returns (n: nat)
    requires fuel > 0 && steps > 0 && IsDir(tree, []) && Grounded(tree, links, resolved)
    requires var r := Visit(tree, links, c, resolved, fuel, steps).result; r.Err? && !IsLimit(r.error)
    ensures Sticks(tree, links, n, Walker(resolved, [Enter(c)] + rest),
                   Visit(tree, links, c, resolved, fuel, steps).result.error)
    decreases fuel, 0, 0
  {
    hide ResolveComponents, ResolvePath, Components, Items, Grounded, RequiresDirectory;
    var w := Walker(resolved, [Enter(c)] + rest);
    assert w.todo[1..] == rest;
    n := 0;
    if c.Normal? && IsDir(tree, resolved) {
      var more := LinkSticks(tree, links, resolved, links[resolved + [c.name]], fuel - 1, steps - 1, rest);
      assert StepN(tree, links, 1, w) == Step(tree, links, w);
      SticksLater(tree, links, 1, more, w, Step(tree, links, w).value,
                  Visit(tree, links, c, resolved, fuel, steps).result.error);
      n := 1 + more;
    }
  }

  lemma {:induction false} LinkSticks(tree: Tree, links: Links, parent: Path, link: Link,
                                      fuel: nat, steps: nat, rest: seq<Item>)
    returns (n: nat)
    requires IsDir(tree, []) && Grounded(tree, links, parent) && IsDir(tree, parent)
    requires var r := ResolvePath(tree, links, Join(if link.hard then [] else parent, link.target), fuel, steps).result;
             r.Err? && !IsLimit(r.error)
    ensures Sticks(tree, links, n, Walker(if link.hard then [] else parent, Items(link.target) + rest),
                   ResolvePath(tree, links, Join(if link.hard then [] else parent, link.target), fuel, steps).result.error)
    decreases fuel, 4, 0
  {
    hide ResolveComponents, Sticks, Items, Components, RequiresDirectory;
    if link.hard || parent == [] {
      n := TargetSticks(tree, links, [], Components(link.target), link.target, fuel, steps, rest,
                        ResolvePath(tree, links, link.target, fuel, steps).result.error);
    } else {
      n := LinkBelowSticks(tree, links, parent, link.target, fuel, steps, rest);
    }
  }

  lemma {:induction false} LinkBelowSticks(tree: Tree, links: Links, parent: Path, target: RawPath,
                                           fuel: nat, steps: nat, rest: seq<Item>)
    returns (n: nat)
    requires IsDir(tree, []) && Grounded(tree, links, parent) && IsDir(tree, parent) && parent != []
    requires var r := ResolvePath(tree, links, Join(parent, target), fuel, steps).result; r.Err? && !IsLimit(r.error)
    ensures Sticks(tree, links, n, Walker(parent, Items(target) + rest),
                   ResolvePath(tree, links, Join(parent, target), fuel, steps).result.error)
    decreases fuel, 3, 0
  {
    var e := ResolvePath(tree, links, Join(parent, target), fuel, steps).result.error;
    if IsAbsolute(target) {
      AbsoluteSticks(tree, links, parent, target, fuel, steps, rest);
      n := 0;
    } else {
      hide ResolveComponents, Sticks, Items, Components, Grounded, RequiresDirectory, Body;
      FailureFromParent(tree, links, parent, target, fuel, steps);
      JoinComponents(parent, target);
      n := TargetSticks(tree, links, parent, Body(target), target, fuel, steps - |parent|, rest, e);
    }
  }

  lemma AbsoluteSticks(tree: Tree, links: Links, cwd: Path, target: RawPath, fuel: nat, steps: nat, rest: seq<Item>)
    requires IsAbsolute(target)
    requires var r := ResolvePath(tree, links, target, fuel, steps).result; r.Err? && !IsLimit(r.error)
    ensures Sticks(tree, links, 0, Walker(cwd, Items(target) + rest),
                   ResolvePath(tree, links, target, fuel, steps).result.error)
  {
    hide Body, Entering;
    var todo := Components(target);
    assert todo[0] == RootDir;
    assert fuel > 0 && steps > 0;
    assert Visit(tree, links, todo[0], [], fuel, steps).result == Err(AbsoluteTarget);
    assert Entering(todo)[0] == Enter(RootDir);
    assert StepN(tree, links, 0, Walker(cwd, Items(target) + rest)) == Some(Walker(cwd, Items(target) + rest));
  }

  /** The walk of `todo` from `cwd`, then the check on where it ended, fail
      with `e`. */
  ghost predicate FailsWith(tree: Tree, links: Links, cwd: Path, todo: seq<Component>, target: RawPath,
                            fuel: nat, steps: nat, e: ResolveError)
    requires fuel > 0
  {
    match ResolveComponents(tree, links, todo, cwd, fuel, steps).result
    case Err(error) => e == error && !IsLimit(error)
    case Ok(q) => RequiresDirectory(target) && !IsDir(tree, q) && e == if q in tree then NeedsDirectory else Missing
  }

  lemma FailureFromParent(tree: Tree, links: Links, parent: Path, target: RawPath, fuel: nat, steps: nat)
    requires Grounded(tree, links, parent) && IsDir(tree, parent) && parent != [] && !IsAbsolute(target)
    requires var r := ResolvePath(tree, links, Join(parent, target), fuel, steps).result; r.Err? && !IsLimit(r.error)
    ensures fuel > 0 && steps >= |parent|
    ensures FailsWith(tree, links, parent, Body(target), target, fuel, steps - |parent|,
                      ResolvePath(tree, links, Join(parent, target), fuel, steps).result.error)
  {
    hide Components, Body, RequiresDirectory, Grounded, Join;
    JoinComponents(parent, target);
    JoinRequiresDirectory(parent, target);
    RewalkFromRoot(tree, links, parent, Body(target), fuel, steps);
  }

  lemma {:induction false} TargetSticks(tree: Tree, links: Links, cwd: Path, todo: seq<Component>, target: RawPath,
                                        fuel: nat, steps: nat, rest: seq<Item>, e: ResolveError)
    returns (n: nat)
    requires fuel > 0 && IsDir(tree, []) && Grounded(tree, links, cwd) && IsDir(tree, cwd)
    requires Components(target) == todo || Components(target) == [CurDir] + todo
    requires todo == Body(target) || todo == Components(target)
    requires FailsWith(tree, links, cwd, todo, target, fuel, steps, e)
    ensures Sticks(tree, links, n, Walker(cwd, Items(target) + rest), e)
    decreases fuel, 2, 0
  {
    hide ResolveComponents, StepN, Items, Components, Body, Grounded, Entering, Sticks;
    var start := Walker(cwd, Items(target) + rest);
    var rest1 := Checks(target) + rest;
    var middle := Walker(cwd, Entering(todo) + rest1);
    ComponentsCurDirFirst(tree, target, cwd);
    ItemsSplit(target, rest);
    var k := DotIsPassed(tree, links, cwd, Components(target), todo, rest1);
    var m;
    match ResolveComponents(tree, links, todo, cwd, fuel, steps).result {
      case Err(_) =>
        m := ComponentsStick(tree, links, todo, cwd, fuel, steps, rest1);
      case Ok(q) =>
        m := ComponentsAreWalked(tree, links, todo, cwd, fuel, steps, rest1);
        CheckSticks(tree, links, m, middle, q, rest, e);
    }
    SticksLater(tree, links, k, m, start, middle, e);
    n := k + m;
  }

  lemma CheckSticks(tree: Tree, links: Links, m: nat, w: Walker, q: Path, rest: seq<Item>, e: ResolveError)
    requires StepN(tree, links, m, w) == Some(Walker(q, [MustBeDirectory] + rest))
    requires !IsDir(tree, q) && e == if q in tree then NeedsDirectory else Missing
    ensures Sticks(tree, links, m, w, e)
  {
    hide StepN;
  }

  /** A refusal that is not for one of the limits is a failure of lookup, at
      the place and for the reason the error names; so lookup never ends. */
  lemma RefusalsNameTheFailure(tree: Tree, links: Links, raw: RawPath, fuel: nat, steps: nat) returns (n: nat)
    requires IsDir(tree, [])
    requires var r := ResolvePath(tree, links, raw, fuel, steps).result; r.Err? && !IsLimit(r.error)
    ensures Sticks(tree, links, n, Walker([], Items(raw)), ResolvePath(tree, links, raw, fuel, steps).result.error)
    ensures forall p :: !LooksUp(tree, links, raw, p)
  {
    hide ResolveComponents, StepN, Items, Components, Body, Entering, Step, RequiresDirectory;
    var e := ResolvePath(tree, links, raw, fuel, steps).result.error;
    n := TargetSticks(tree, links, [], Components(raw), raw, fuel, steps, [], e);
    assert Items(raw) + [] == Items(raw);
    forall p | LooksUp(tree, links, raw, p) ensures false {
      StuckNeverEnds(tree, links, n, Walker([], Items(raw)), e, p);
    }
  }

  lemma StuckNeverEnds(tree: Tree, links: Links, n: nat, w: Walker, e: ResolveError, p: Path)
    requires IsDir(tree, []) && Sticks(tree, links, n, w, e)
    ensures forall m: nat :: StepN(tree, links, m, w) != Some(Walker(p, []))
  {
    var stuck := StepN(tree, links, n, w).value;
    assert Step(tree, links, stuck) == None;
    forall m: nat ensures StepN(tree, links, m, w) != Some(Walker(p, [])) {
      if StepN(tree, links, m, w) == Some(Walker(p, [])) {
        FinishedIsLonger(tree, links, n, m, w, stuck, p);
        assert false;
      }
    }
  }
}
