/** The virtual link resolver of the archive extractor: fuelled by a nesting
    depth and a shared component-visit budget, run before any link exists on
    disk. */
module ArchiveResolve {
  import opened ArchivePaths

  /** What extraction put on disk.  Two paths with equal inodes are one file. */
  datatype Node = Dir | File(inode: nat)

  type Tree = map<Path, Node>

  datatype Link = Link(target: RawPath, hard: bool)

  type Links = map<Path, Link>

  datatype ResolveError =
    | ExcessiveDepth
    | WorkLimit
    | Missing
    | TraversesNonDirectory
    | EscapesDestination
    | AbsoluteTarget
    | NeedsDirectory

  datatype Result = Ok(path: Path) | Err(error: ResolveError)

  /** A resolution and every component it visited, in order. */
  datatype Outcome = Outcome(result: Result, visits: seq<Component>)

  const MAX_DEPTH: nat := 64

  predicate IsDir(tree: Tree, p: Path) {
    p in tree && tree[p].Dir?
  }

  /** Nesting levels left at a recursion depth. */
  function Fuel(depth: nat): nat {
    if depth > MAX_DEPTH then 0 else MAX_DEPTH + 1 - depth
  }

  /** The path a link entry at `at` makes the resolver walk from the root. */
  function Expansion(at: Path, link: Link): RawPath
    requires at != []
  {
    Join(if link.hard then [] else Parent(at), link.target)
  }

  /** Visiting one component at `resolved`; the first visit recorded is it. */
  function Visit(tree: Tree, links: Links, c: Component, resolved: Path, fuel: nat, steps: nat): (o: Outcome)
    requires fuel > 0 && steps > 0
    ensures 0 < |o.visits| <= steps
    decreases fuel, 0, 0
  {
    if (c.Normal? || c.ParentDir?) && !IsDir(tree, resolved) then
      Outcome(Err(if resolved in tree then TraversesNonDirectory else Missing), [c])
    else
      match c
      case CurDir => Outcome(Ok(resolved), [c])
      case RootDir => Outcome(Err(AbsoluteTarget), [c])
      case ParentDir => Outcome(if resolved == [] then Err(EscapesDestination) else Ok(Parent(resolved)), [c])
      case Normal(name) =>
        var at := resolved + [name];
        if at !in links then Outcome(Ok(at), [c])
        else After([c], ResolvePath(tree, links, Expansion(at, links[at]), fuel - 1, steps - 1))
  }

  function ResolveComponents(tree: Tree, links: Links, todo: seq<Component>, resolved: Path,
                             fuel: nat, steps: nat): (o: Outcome)
    requires fuel > 0
    ensures |o.visits| <= steps
    decreases fuel, 1, |todo|
  {
    if todo == [] then Outcome(Ok(resolved), [])
    else if steps == 0 then Outcome(Err(WorkLimit), [])
    else
      var one := Visit(tree, links, todo[0], resolved, fuel, steps);
      if one.result.Err? then one
      else After(one.visits,
                 ResolveComponents(tree, links, todo[1..], one.result.path, fuel, steps - |one.visits|))
  }

  function ResolvePath(tree: Tree, links: Links, raw: RawPath, fuel: nat, steps: nat): (o: Outcome)
    ensures |o.visits| <= steps
    decreases fuel, 2, 0
  {
    if fuel == 0 then Outcome(Err(ExcessiveDepth), [])
    else
      var walked := ResolveComponents(tree, links, Components(raw), [], fuel, steps);
      if walked.result.Ok? && RequiresDirectory(raw) && !IsDir(tree, walked.result.path)
      then Outcome(Err(if walked.result.path in tree then NeedsDirectory else Missing), walked.visits)
      else walked
  }

  function After(visits: seq<Component>, o: Outcome): Outcome {
    Outcome(o.result, visits + o.visits)
  }

  /** One turn of the resolver's loop. */
  method VisitComponent(tree: Tree, links: Links, component: Component, resolved: Path, depth: nat, steps: nat)
    returns (result: Result, left: nat)
    requires depth <= MAX_DEPTH && steps > 0
    ensures var one := Visit(tree, links, component, resolved, Fuel(depth), steps);
            result == one.result && left == steps - |one.visits|
    decreases Fuel(depth), 0
  {
    left := steps - 1;
    if (component.Normal? || component.ParentDir?) && !IsDir(tree, resolved) {
      return Err(if resolved in tree then TraversesNonDirectory else Missing), left;
    }
    match component
    case CurDir =>
      result := Ok(resolved);
    case RootDir =>
      result := Err(AbsoluteTarget);
    case ParentDir =>
      result := if resolved == [] then Err(EscapesDestination) else Ok(Parent(resolved));
    case Normal(name) =>
      var at := resolved + [name];
      result := Ok(at);
      if at in links {
        result, left := ResolveLinkPath(tree, links, Expansion(at, links[at]), depth + 1, left);
      }
  }

  /** The resolver as written: `resolved` and the shared step counter are
      updated component by component. */
  method ResolveLinkPath(tree: Tree, links: Links, path: RawPath, depth: nat, steps: nat)
    returns (result: Result, left: nat)
    ensures result == ResolvePath(tree, links, path, Fuel(depth), steps).result
    ensures left == steps - |ResolvePath(tree, links, path, Fuel(depth), steps).visits|
    decreases Fuel(depth), 1
  {
    hide Visit, Components;
    left := steps;
    if depth > MAX_DEPTH {
      return Err(ExcessiveDepth), left;
    }
    var todo := Components(path);
    var resolved: Path := [];
    var i := 0;
    ghost var whole := ResolveComponents(tree, links, todo, [], Fuel(depth), steps);
    while i < |todo|
      invariant 0 <= i <= |todo|
      invariant var tail := ResolveComponents(tree, links, todo[i..], resolved, Fuel(depth), left);
                whole.result == tail.result && steps - |whole.visits| == left - |tail.visits|
    {
      assert todo[i..][0] == todo[i] && todo[i..][1..] == todo[i + 1..];
      if left == 0 {
        return Err(WorkLimit), left;
      }
      var one;
      one, left := VisitComponent(tree, links, todo[i], resolved, depth, left);
      if one.Err? {
        return one, left;
      }
      resolved := one.path;
      i := i + 1;
    }
    assert todo[i..] == [];
    result := Ok(resolved);
    if RequiresDirectory(path) && !IsDir(tree, resolved) {
      result := Err(if resolved in tree then NeedsDirectory else Missing);
    }
  }

  /** No non-empty prefix is an archive link, and every proper prefix is a
      directory that exists. */
  ghost predicate Grounded(tree: Tree, links: Links, p: Path) {
    && (forall i :: 0 < i <= |p| ==> p[..i] !in links)
    && (forall i :: 0 <= i < |p| ==> IsDir(tree, p[..i]))
  }

  lemma GroundedParent(tree: Tree, links: Links, p: Path)
    requires Grounded(tree, links, p) && p != []
    ensures Grounded(tree, links, Parent(p)) && IsDir(tree, Parent(p))
  {
    forall i | 0 < i < |p|
      ensures Parent(p)[..i] == p[..i]
    {
    }
    assert Parent(p)[..0] == p[..0];
    assert p[..|p| - 1] == Parent(p);
  }

  lemma GroundedChild(tree: Tree, links: Links, p: Path, name: Name)
    requires Grounded(tree, links, p) && IsDir(tree, p) && p + [name] !in links
    ensures Grounded(tree, links, p + [name])
  {
    var child := p + [name];
    forall i | 0 <= i <= |p|
      ensures child[..i] == p[..i]
    {
    }
    assert p[..|p|] == p && child[..|child|] == child;
  }

  /** Confinement: whatever the link graph, a successful resolution names a
      place below the root whose parent is a real directory and none of whose
      prefixes is a link. */
  lemma {:induction false} ResolutionIsGrounded(tree: Tree, links: Links, todo: seq<Component>,
                                                resolved: Path, fuel: nat, steps: nat)
    requires fuel > 0 && Grounded(tree, links, resolved)
    requires ResolveComponents(tree, links, todo, resolved, fuel, steps).result.Ok?
    ensures Grounded(tree, links, ResolveComponents(tree, links, todo, resolved, fuel, steps).result.path)
    decreases fuel, 1, |todo|
  {
    if todo != [] {
      var one := Visit(tree, links, todo[0], resolved, fuel, steps);
      VisitIsGrounded(tree, links, todo[0], resolved, fuel, steps);
      ResolutionIsGrounded(tree, links, todo[1..], one.result.path, fuel, steps - |one.visits|);
    }
  }

  lemma {:induction false} VisitIsGrounded(tree: Tree, links: Links, c: Component, resolved: Path,
                                           fuel: nat, steps: nat)
    requires fuel > 0 && steps > 0 && Grounded(tree, links, resolved)
    requires Visit(tree, links, c, resolved, fuel, steps).result.Ok?
    ensures Grounded(tree, links, Visit(tree, links, c, resolved, fuel, steps).result.path)
    decreases fuel, 0, 0
  {
    if c.ParentDir? {
      GroundedParent(tree, links, resolved);
    } else if c.Normal? {
      var at := resolved + [c.name];
      if at in links {
        ResolutionIsGrounded(tree, links, Components(Expansion(at, links[at])), [], fuel - 1, steps - 1);
      } else {
        GroundedChild(tree, links, resolved, c.name);
      }
    }
  }

  lemma ResolvedPathIsConfined(tree: Tree, links: Links, raw: RawPath, depth: nat, steps: nat)
    requires ResolvePath(tree, links, raw, Fuel(depth), steps).result.Ok?
    ensures Grounded(tree, links, ResolvePath(tree, links, raw, Fuel(depth), steps).result.path)
    ensures var p := ResolvePath(tree, links, raw, Fuel(depth), steps).result.path;
            (p == [] || IsDir(tree, Parent(p))) && p !in links - {[]}
  {
    ResolutionIsGrounded(tree, links, Components(raw), [], Fuel(depth), steps);
    var p := ResolvePath(tree, links, raw, Fuel(depth), steps).result.path;
    assert p[..|p|] == p;
    if p != [] {
      GroundedParent(tree, links, p);
    }
  }

  lemma {:induction false} MoreFuelSameComponents(tree: Tree, links: Links, todo: seq<Component>, resolved: Path,
                                                  fuel: nat, steps: nat, fuel': nat, steps': nat)
    requires 0 < fuel <= fuel'
    requires ResolveComponents(tree, links, todo, resolved, fuel, steps).result.Ok?
    requires steps' >= |ResolveComponents(tree, links, todo, resolved, fuel, steps).visits|
    ensures ResolveComponents(tree, links, todo, resolved, fuel', steps')
         == ResolveComponents(tree, links, todo, resolved, fuel, steps)
    decreases fuel, 1, |todo|
  {
    hide Visit, ResolvePath;
    if todo != [] {
      var one := Visit(tree, links, todo[0], resolved, fuel, steps);
      MoreFuelSameVisit(tree, links, todo[0], resolved, fuel, steps, fuel', steps');
      MoreFuelSameComponents(tree, links, todo[1..], one.result.path,
                             fuel, steps - |one.visits|, fuel', steps' - |one.visits|);
    }
  }

  lemma {:induction false} MoreFuelSameVisit(tree: Tree, links: Links, c: Component, resolved: Path,
                                             fuel: nat, steps: nat, fuel': nat, steps': nat)
    requires 0 < fuel <= fuel' && steps > 0
    requires Visit(tree, links, c, resolved, fuel, steps).result.Ok?
    requires steps' >= |Visit(tree, links, c, resolved, fuel, steps).visits|
    ensures Visit(tree, links, c, resolved, fuel', steps') == Visit(tree, links, c, resolved, fuel, steps)
    decreases fuel, 0, 0
  {
    if c.Normal? && resolved + [c.name] in links {
      var at := resolved + [c.name];
      MoreFuelSameComponents(tree, links, Components(Expansion(at, links[at])), [],
                             fuel - 1, steps - 1, fuel' - 1, steps' - 1);
    }
  }

  /** A spelling that ends in a separator or `.` after something. */
  predicate EndsLikeADirectory(raw: RawPath) {
    var last := raw[|raw| - 1];
    |raw| >= 2 && (last == Empty || last == Dot)
  }

  /** What such an ending asks for is a directory, and no other ending asks for
      anything. */
  lemma EndingsAreHonoured(tree: Tree, links: Links, raw: RawPath, fuel: nat, steps: nat)
    requires fuel > 0
    ensures var o := ResolvePath(tree, links, raw, fuel, steps);
            var walked := ResolveComponents(tree, links, Components(raw), [], fuel, steps);
            if EndsLikeADirectory(raw) && walked.result.Ok? && !IsDir(tree, walked.result.path)
            then o.result.Err? && (walked.result.path in tree ==> o.result == Err(NeedsDirectory))
            else o == walked
    ensures var o := ResolvePath(tree, links, raw, fuel, steps).result;
            o.Ok? && EndsLikeADirectory(raw) ==> IsDir(tree, o.path)
  {
  }

  /** Nothing is refused for not being a directory unless the path or some link
      is spelled like one. */
  lemma {:induction false} DirectoriesAreAskedFor(tree: Tree, links: Links, raw: RawPath, fuel: nat, steps: nat)
    requires ResolvePath(tree, links, raw, fuel, steps).result == Err(NeedsDirectory)
    ensures EndsLikeADirectory(raw)
            || exists at :: at in links && at != [] && EndsLikeADirectory(Expansion(at, links[at]))
    decreases fuel, 2, 0
  {
    var walked := ResolveComponents(tree, links, Components(raw), [], fuel, steps);
    if walked.result == Err(NeedsDirectory) {
      LinksAskForDirectories(tree, links, Components(raw), [], fuel, steps);
    }
  }

  lemma {:induction false} LinksAskForDirectories(tree: Tree, links: Links, todo: seq<Component>, resolved: Path,
                                                  fuel: nat, steps: nat)
    requires fuel > 0 && ResolveComponents(tree, links, todo, resolved, fuel, steps).result == Err(NeedsDirectory)
    ensures exists at :: at in links && at != [] && EndsLikeADirectory(Expansion(at, links[at]))
    decreases fuel, 1, |todo|
  {
    var one := Visit(tree, links, todo[0], resolved, fuel, steps);
    if one.result.Ok? {
      LinksAskForDirectories(tree, links, todo[1..], one.result.path, fuel, steps - |one.visits|);
    } else {
      var at := resolved + [todo[0].name];
      DirectoriesAreAskedFor(tree, links, Expansion(at, links[at]), fuel - 1, steps - 1);
    }
  }

  /** Fuel never changes an answer: a success stays the same path at the same
      cost with more nesting levels or any budget covering that cost. */
  lemma FuelNeverChangesAnAnswer(tree: Tree, links: Links, raw: RawPath,
                                 fuel: nat, steps: nat, fuel': nat, steps': nat)
    requires ResolvePath(tree, links, raw, fuel, steps).result.Ok?
    requires fuel <= fuel'
    requires steps' >= |ResolvePath(tree, links, raw, fuel, steps).visits|
    ensures ResolvePath(tree, links, raw, fuel', steps') == ResolvePath(tree, links, raw, fuel, steps)
  {
    MoreFuelSameComponents(tree, links, Components(raw), [], fuel, steps, fuel', steps');
  }

  /** The number of visits is exactly the budget a success needs. */
  lemma VisitsAreTheExactBudget(tree: Tree, links: Links, raw: RawPath, fuel: nat, steps: nat, steps': nat)
    requires ResolvePath(tree, links, raw, fuel, steps).result.Ok?
    ensures ResolvePath(tree, links, raw, fuel, steps').result.Ok?
       <==> steps' >= |ResolvePath(tree, links, raw, fuel, steps).visits|
  {
    var o := ResolvePath(tree, links, raw, fuel, steps);
    var o' := ResolvePath(tree, links, raw, fuel, steps');
    if steps' >= |o.visits| {
      FuelNeverChangesAnAnswer(tree, links, raw, fuel, steps, fuel, steps');
    } else if o'.result.Ok? {
      FuelNeverChangesAnAnswer(tree, links, raw, fuel, steps', fuel, steps);
    }
  }
}
