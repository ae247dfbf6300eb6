/** How much depth and work a lookup needs of the resolver, read off the
    walker alone: the greatest nesting of spliced links, and one visit for each
    component entered plus the names of the directory a symbolic link's target
    is joined to. */
module ArchiveMeter {
  import opened Common
  import opened ArchivePaths
  import opened ArchiveResolve
  import opened ArchiveWalk

  /** The nesting level of each item still to do, the deepest level so far and
      the visits so far. */
  datatype Meter = Meter(levels: seq<nat>, deepest: nat, cost: nat)

  function Fill(count: nat, level: nat): (r: seq<nat>)
    ensures |r| == count && forall i :: 0 <= i < count ==> r[i] == level
  {
    seq(count, _ => level)
  }

  predicate Splices(links: Links, w: Walker)
    requires w.todo != []
  {
    w.todo[0].Enter? && w.todo[0].component.Normal? && w.cwd + [w.todo[0].component.name] in links
  }

  function Spliced(links: Links, w: Walker): Link
    requires w.todo != [] && Splices(links, w)
  {
    links[w.cwd + [w.todo[0].component.name]]
  }

  /** A `.` below the root disappears in the joined path, and a symbolic link
      is joined to the directory that holds it. */
  function StepCost(links: Links, w: Walker): nat
    requires w.todo != []
  {
    if Splices(links, w) then 1 + (if Spliced(links, w).hard then 0 else |w.cwd|)
    else if w.todo[0].MustBeDirectory? || (w.todo[0].component.CurDir? && w.cwd != []) then 0
    else 1
  }

  function MeterStep(links: Links, w: Walker, k: Meter): Meter
    requires w.todo != [] && |k.levels| == |w.todo|
  {
    var cost := k.cost + StepCost(links, w);
    if Splices(links, w) then
      var level := k.levels[0] + 1;
      Meter(Fill(|Items(Spliced(links, w).target)|, level) + k.levels[1..], Max(k.deepest, level), cost)
    else Meter(k.levels[1..], k.deepest, cost)
  }

  /** The meter after the first `n` moves of a walk that makes them. */
  function MeterN(tree: Tree, links: Links, n: nat, w: Walker, k: Meter): (r: Meter)
    requires StepN(tree, links, n, w).Some? && |k.levels| == |w.todo|
    ensures |r.levels| == |StepN(tree, links, n, w).value.todo|
  {
    if n == 0 then k else MeterN(tree, links, n - 1, Step(tree, links, w).value, MeterStep(links, w, k))
  }

  /** The meter of a whole lookup. */
  function Metered(tree: Tree, links: Links, n: nat, raw: RawPath): Meter
    requires StepN(tree, links, n, Walker([], Items(raw))).Some?
  {
    MeterN(tree, links, n, Walker([], Items(raw)), Meter(Fill(|Items(raw)|, 0), 0, 0))
  }

  // ---- stretches of a walk

  /** In `m` moves the walker does what precedes `rest` and gets to `q`, nesting
      `deep` levels below `level` at `cost` visits. */
  ghost predicate Stretch(tree: Tree, links: Links, m: nat, w: Walker, k: Meter, q: Path, rest: seq<Item>,
                          level: nat, deep: nat, cost: nat) {
    && |k.levels| == |w.todo| && |rest| <= |w.todo|
    && StepN(tree, links, m, w) == Some(Walker(q, rest))
    && MeterN(tree, links, m, w, k) == Past(k, |w.todo| - |rest|, level, deep, cost)
  }

  /** The meter with its first `n` items done. */
  function Past(k: Meter, n: nat, level: nat, deep: nat, cost: nat): Meter
    requires n <= |k.levels|
  {
    Meter(k.levels[n..], Max(k.deepest, level + deep), k.cost + cost)
  }

  ghost predicate AtLevel(k: Meter, n: nat, level: nat) {
    n <= |k.levels| && level <= k.deepest && forall i :: 0 <= i < n ==> k.levels[i] == level
  }

  lemma {:induction false} MeterAdds(tree: Tree, links: Links, m: nat, n: nat, w: Walker, w': Walker, k: Meter)
    requires StepN(tree, links, m, w) == Some(w') && StepN(tree, links, n, w').Some? && |k.levels| == |w.todo|
    ensures StepN(tree, links, m + n, w) == StepN(tree, links, n, w')
    ensures MeterN(tree, links, m + n, w, k) == MeterN(tree, links, n, w', MeterN(tree, links, m, w, k))
  {
    if m > 0 {
      MeterAdds(tree, links, m - 1, n, Step(tree, links, w).value, w', MeterStep(links, w, k));
    }
  }

  lemma StretchesJoin(tree: Tree, links: Links, w: Walker, k: Meter, level: nat, m1: nat, mid: Path, rest1: seq<Item>,
                      deep1: nat, cost1: nat, m2: nat, q: Path, rest: seq<Item>, deep2: nat, cost2: nat)
    requires Stretch(tree, links, m1, w, k, mid, rest1, level, deep1, cost1)
    requires Stretch(tree, links, m2, Walker(mid, rest1), Past(k, |w.todo| - |rest1|, level, deep1, cost1), q, rest,
                     level, deep2, cost2)
    ensures Stretch(tree, links, m1 + m2, w, k, q, rest, level, Max(deep1, deep2), cost1 + cost2)
  {
    hide StepN, MeterStep;
    MeterAdds(tree, links, m1, m2, w, Walker(mid, rest1), k);
    var n1, n2 := |w.todo| - |rest1|, |rest1| - |rest|;
    assert k.levels[n1..][n2..] == k.levels[n1 + n2..];
  }

  lemma NoMoves(tree: Tree, links: Links, cwd: Path, rest: seq<Item>, k: Meter, level: nat)
    requires |k.levels| == |rest| && level <= k.deepest
    ensures Stretch(tree, links, 0, Walker(cwd, rest), k, cwd, rest, level, 0, 0)
  {
    assert k.levels[0..] == k.levels;
  }

  /** What is left of a finished walk after its first move. */
  lemma FirstMove(tree: Tree, links: Links, n: nat, w: Walker, p: Path)
    requires w.todo != [] && StepN(tree, links, n, w) == Some(Walker(p, []))
    ensures n > 0 && Step(tree, links, w).Some?
    ensures StepN(tree, links, n - 1, Step(tree, links, w).value) == Some(Walker(p, []))
  {
  }

  /** One move that splices nothing. */
  lemma PlainMove(tree: Tree, links: Links, w: Walker, k: Meter, item: Item, rest: seq<Item>, level: nat)
    requires w.todo == [item] + rest && |k.levels| == |w.todo| && AtLevel(k, 1, level)
    requires !Splices(links, w) && Step(tree, links, w).Some?
    ensures Stretch(tree, links, 1, w, k, Step(tree, links, w).value.cwd, rest, level, 0, StepCost(links, w))
  {
    assert w.todo[1..] == rest;
    var w' := Step(tree, links, w).value;
    assert w' == Walker(w'.cwd, rest);
    assert StepN(tree, links, 0, w') == Some(w');
    assert MeterN(tree, links, 0, w', MeterStep(links, w, k)) == MeterStep(links, w, k);
  }

  // ---- exact needs of the resolver

  /** Success, with that path and cost, exactly if there is enough. */
  predicate Meets(o: Outcome, enough: bool, cost: nat, q: Path) {
    if enough then o.result == Ok(q) && |o.visits| == cost else o.result.Err?
  }

  ghost predicate ComponentsNeed(tree: Tree, links: Links, todo: seq<Component>, cwd: Path, deep: nat, cost: nat, q: Path)
  {
    forall fuel: nat, steps: nat :: fuel > 0 ==>
      Meets(ResolveComponents(tree, links, todo, cwd, fuel, steps), fuel > deep && steps >= cost, cost, q)
  }

  ghost predicate VisitNeeds(tree: Tree, links: Links, c: Component, cwd: Path, deep: nat, cost: nat, q: Path) {
    forall fuel: nat, steps: nat :: fuel > 0 && steps > 0 ==>
      Meets(Visit(tree, links, c, cwd, fuel, steps), fuel > deep && steps >= cost, cost, q)
  }

  ghost predicate PathNeeds(tree: Tree, links: Links, raw: RawPath, deep: nat, cost: nat, q: Path) {
    forall fuel: nat, steps: nat ::
      Meets(ResolvePath(tree, links, raw, fuel, steps), fuel > deep && steps >= cost, cost, q)
  }

  lemma NothingNeedsNothing(tree: Tree, links: Links, cwd: Path)
    ensures ComponentsNeed(tree, links, [], cwd, 0, 0, cwd)
  {
  }

  lemma NeedsAdd(tree: Tree, links: Links, todo: seq<Component>, cwd: Path, deep1: nat, cost1: nat, mid: Path,
                 deep2: nat, cost2: nat, q: Path)
    requires todo != [] && cost1 > 0
    requires VisitNeeds(tree, links, todo[0], cwd, deep1, cost1, mid)
    requires ComponentsNeed(tree, links, todo[1..], mid, deep2, cost2, q)
    ensures ComponentsNeed(tree, links, todo, cwd, Max(deep1, deep2), cost1 + cost2, q)
  {
    forall fuel: nat, steps: nat | fuel > 0
      ensures Meets(ResolveComponents(tree, links, todo, cwd, fuel, steps),
                    fuel > Max(deep1, deep2) && steps >= cost1 + cost2, cost1 + cost2, q)
    {
      if steps > 0 {
        var one := Visit(tree, links, todo[0], cwd, fuel, steps);
        assert Meets(one, fuel > deep1 && steps >= cost1, cost1, mid);
        if one.result.Ok? {
          assert Meets(ResolveComponents(tree, links, todo[1..], mid, fuel, steps - cost1),
                       fuel > deep2 && steps - cost1 >= cost2, cost2, q);
        }
      }
    }
  }

  lemma PlainVisitNeeds(tree: Tree, links: Links, c: Component, cwd: Path)
    requires IsDir(tree, cwd) && !c.RootDir? && (c.ParentDir? ==> cwd != [])
    requires c.Normal? ==> cwd + [c.name] !in links
    ensures VisitNeeds(tree, links, c, cwd, 0, 1,
                       match c case Normal(name) => cwd + [name] case ParentDir => Parent(cwd) case _ => cwd)
  {
  }

  lemma LinkVisitNeeds(tree: Tree, links: Links, name: Name, cwd: Path, deep: nat, cost: nat, q: Path)
    requires IsDir(tree, cwd) && cwd + [name] in links
    requires PathNeeds(tree, links, Expansion(cwd + [name], links[cwd + [name]]), deep, cost, q)
    ensures VisitNeeds(tree, links, Normal(name), cwd, deep + 1, 1 + cost, q)
  {
    var raw := Expansion(cwd + [name], links[cwd + [name]]);
    forall fuel: nat, steps: nat | fuel > 0 && steps > 0
      ensures Meets(Visit(tree, links, Normal(name), cwd, fuel, steps),
                    fuel > deep + 1 && steps >= 1 + cost, 1 + cost, q)
    {
      assert Meets(ResolvePath(tree, links, raw, fuel - 1, steps - 1),
                   fuel - 1 > deep && steps - 1 >= cost, cost, q);
    }
  }

  /** From the needs of a path's components at the root. */
  lemma RootPathNeeds(tree: Tree, links: Links, raw: RawPath, deep: nat, cost: nat, q: Path)
    requires ComponentsNeed(tree, links, Components(raw), [], deep, cost, q)
    requires RequiresDirectory(raw) ==> IsDir(tree, q)
    ensures PathNeeds(tree, links, raw, deep, cost, q)
  {
    forall fuel: nat, steps: nat
      ensures Meets(ResolvePath(tree, links, raw, fuel, steps), fuel > deep && steps >= cost, cost, q)
    {
      if fuel > 0 {
        assert Meets(ResolveComponents(tree, links, Components(raw), [], fuel, steps),
                     fuel > deep && steps >= cost, cost, q);
      }
    }
  }

  /** A target joined to the directory below which it is walked. */
  lemma JoinedPathNeeds(tree: Tree, links: Links, base: Path, target: RawPath, deep: nat, cost: nat, q: Path)
    requires Grounded(tree, links, base) && IsDir(tree, base) && base != [] && !IsAbsolute(target)
    requires ComponentsNeed(tree, links, Body(target), base, deep, cost, q)
    requires RequiresDirectory(Join(base, target)) ==> IsDir(tree, q)
    ensures PathNeeds(tree, links, Join(base, target), deep, |base| + cost, q)
  {
    JoinComponents(base, target);
    var todo := Normals(base) + Body(target);
    forall fuel: nat, steps: nat | fuel > 0
      ensures Meets(ResolveComponents(tree, links, todo, [], fuel, steps),
                    fuel > deep && steps >= |base| + cost, |base| + cost, q)
    {
      RewalkFromRoot(tree, links, base, Body(target), fuel, steps);
      if steps >= |base| {
        assert Meets(ResolveComponents(tree, links, Body(target), base, fuel, steps - |base|),
                     fuel > deep && steps - |base| >= cost, cost, q);
      }
    }
    RootPathNeeds(tree, links, Join(base, target), deep, |base| + cost, q);
  }

  // ---- every finished walk is metered by what the resolver needs

  /** `.` comes only first, and only at the root. */
  ghost predicate DotOnlyAtRoot(todo: seq<Component>, cwd: Path) {
    forall i :: 0 <= i < |todo| && todo[i].CurDir? ==> i == 0 && cwd == []
  }

  lemma BodyHasNoDot(target: RawPath, cwd: Path)
    ensures DotOnlyAtRoot(Body(target), cwd) && DotOnlyAtRoot(Components(target), [])
  {
    BodyIsPlain(target);
    forall i | 0 <= i < |Body(target)| ensures !Body(target)[i].CurDir? {
      assert Body(target)[i] in Body(target);
    }
  }

  lemma {:induction false} WalkIsMetered(tree: Tree, links: Links, n: nat, todo: seq<Component>, cwd: Path,
                                         rest: seq<Item>, p: Path, k: Meter, level: nat)
    returns (q: Path, m: nat, deep: nat, cost: nat)
    requires IsDir(tree, []) && Grounded(tree, links, cwd) && DotOnlyAtRoot(todo, cwd)
    requires StepN(tree, links, n, Walker(cwd, Entering(todo) + rest)) == Some(Walker(p, []))
    requires |k.levels| == |todo| + |rest| && AtLevel(k, |todo|, level)
    ensures m <= n && Grounded(tree, links, q)
    ensures Stretch(tree, links, m, Walker(cwd, Entering(todo) + rest), k, q, rest, level, deep, cost)
    ensures ComponentsNeed(tree, links, todo, cwd, deep, cost, q)
    ensures StepN(tree, links, n - m, Walker(q, rest)) == Some(Walker(p, []))
    decreases n, 3
  {
    hide StepN, MeterN, ResolveComponents, Visit, Stretch, ComponentsNeed, VisitNeeds, Grounded;
    var w := Walker(cwd, Entering(todo) + rest);
    if todo == [] {
      assert Entering(todo) + rest == rest;
      NoMoves(tree, links, cwd, rest, k, level);
      NothingNeedsNothing(tree, links, cwd);
      return cwd, 0, 0, 0;
    }
    EnteringSplits(todo, rest);
    var rest1 := Entering(todo[1..]) + rest;
    var mid, m1, deep1, cost1 := VisitIsMetered(tree, links, n, todo[0], cwd, rest1, p, k, level);
    var k1 := Past(k, 1, level, deep1, cost1);
    var m2, deep2, cost2;
    q, m2, deep2, cost2 := WalkIsMetered(tree, links, n - m1, todo[1..], mid, rest, p, k1, level);
    StretchesJoin(tree, links, w, k, level, m1, mid, rest1, deep1, cost1, m2, q, rest, deep2, cost2);
    NeedsAdd(tree, links, todo, cwd, deep1, cost1, mid, deep2, cost2, q);
    m, deep, cost := m1 + m2, Max(deep1, deep2), cost1 + cost2;
  }

  lemma {:induction false} VisitIsMetered(tree: Tree, links: Links, n: nat, c: Component, cwd: Path,
                                          rest: seq<Item>, p: Path, k: Meter, level: nat)
    returns (q: Path, m: nat, deep: nat, cost: nat)
    requires IsDir(tree, []) && Grounded(tree, links, cwd) && (c.CurDir? ==> cwd == [])
    requires StepN(tree, links, n, Walker(cwd, [Enter(c)] + rest)) == Some(Walker(p, []))
    requires |k.levels| == 1 + |rest| && AtLevel(k, 1, level)
    ensures 0 < m <= n && cost > 0 && Grounded(tree, links, q)
    ensures Stretch(tree, links, m, Walker(cwd, [Enter(c)] + rest), k, q, rest, level, deep, cost)
    ensures VisitNeeds(tree, links, c, cwd, deep, cost, q)
    ensures StepN(tree, links, n - m, Walker(q, rest)) == Some(Walker(p, []))
    decreases n, 2
  {
    hide StepN, MeterN, Visit, Stretch, VisitNeeds, Grounded, Items;
    var w := Walker(cwd, [Enter(c)] + rest);
    assert w.todo[1..] == rest;
    FirstMove(tree, links, n, w, p);
    if Splices(links, w) {
      q, m, deep, cost := LinkIsMetered(tree, links, n, c.name, cwd, rest, p, k, level);
    } else {
      PlainMove(tree, links, w, k, Enter(c), rest, level);
      PlainVisitNeeds(tree, links, c, cwd);
      q, m, deep, cost := Step(tree, links, w).value.cwd, 1, 0, 1;
    }
    NeededIsGrounded(tree, links, c, cwd, deep, cost, q);
  }

  lemma NeededIsGrounded(tree: Tree, links: Links, c: Component, cwd: Path, deep: nat, cost: nat, q: Path)
    requires Grounded(tree, links, cwd) && VisitNeeds(tree, links, c, cwd, deep, cost, q) && cost > 0
    ensures Grounded(tree, links, q)
  {
    assert Meets(Visit(tree, links, c, cwd, deep + 1, cost), true, cost, q);
    VisitIsGrounded(tree, links, c, cwd, deep + 1, cost);
  }

  lemma {:induction false} LinkIsMetered(tree: Tree, links: Links, n: nat, name: Name, cwd: Path,
                                         rest: seq<Item>, p: Path, k: Meter, level: nat)
    returns (q: Path, m: nat, deep: nat, cost: nat)
    requires IsDir(tree, []) && Grounded(tree, links, cwd) && cwd + [name] in links
    requires n > 0 && StepN(tree, links, n, Walker(cwd, [Enter(Normal(name))] + rest)) == Some(Walker(p, []))
    requires |k.levels| == 1 + |rest| && AtLevel(k, 1, level)
    ensures 0 < m <= n && cost > 0
    ensures Stretch(tree, links, m, Walker(cwd, [Enter(Normal(name))] + rest), k, q, rest, level, deep, cost)
    ensures VisitNeeds(tree, links, Normal(name), cwd, deep, cost, q)
    ensures StepN(tree, links, n - m, Walker(q, rest)) == Some(Walker(p, []))
    decreases n, 1
  {
    hide StepN, Step, MeterN, MeterStep, Visit, Stretch, VisitNeeds, PathNeeds, Items, AtLevel;
    var link := links[cwd + [name]];
    var base := if link.hard then [] else cwd;
    var w := Walker(cwd, [Enter(Normal(name))] + rest);
    FirstMove(tree, links, n, w, p);
    LinkStep(tree, links, cwd, name, rest);
    SpliceLevels(links, w, k, level);
    var k1 := MeterStep(links, w, k);
    assert Splices(links, w) && Spliced(links, w) == link;
    var m1, deep1, cost1;
    q, m1, deep1, cost1 := TargetIsMetered(tree, links, n - 1, base, link.target, rest, p, k1, level + 1);
    assert Expansion(cwd + [name], link) == Join(base, link.target);
    LinkVisitNeeds(tree, links, name, cwd, deep1, |base| + cost1, q);
    m, deep, cost := 1 + m1, deep1 + 1, 1 + |base| + cost1;
    SpliceThenTarget(tree, links, w, k, base, link.target, rest, level, m1, q, deep1, cost1);
  }

  lemma LinkStep(tree: Tree, links: Links, cwd: Path, name: Name, rest: seq<Item>)
    requires cwd + [name] in links
    ensures Parent(cwd + [name]) == cwd
    ensures var w := Walker(cwd, [Enter(Normal(name))] + rest);
            var link := links[cwd + [name]];
            Step(tree, links, w)
            == if IsDir(tree, cwd) then Some(Walker(if link.hard then [] else cwd, Items(link.target) + rest))
               else None
  {
    assert ([Enter(Normal(name))] + rest)[1..] == rest;
  }

  lemma SpliceLevels(links: Links, w: Walker, k: Meter, level: nat)
    requires w.todo != [] && |k.levels| == |w.todo| && AtLevel(k, 1, level) && Splices(links, w)
    ensures var target := Spliced(links, w).target;
            AtLevel(MeterStep(links, w, k), |Items(target)|, level + 1)
            && |MeterStep(links, w, k).levels| == |Items(target)| + |w.todo| - 1
  {
  }

  /** A splicing move and then the spliced items. */
  lemma SpliceThenTarget(tree: Tree, links: Links, w: Walker, k: Meter, base: Path, target: RawPath, rest: seq<Item>,
                         level: nat, m: nat, q: Path, deep: nat, cost: nat)
    requires |w.todo| == 1 + |rest| && |k.levels| == |w.todo| && AtLevel(k, 1, level) && Splices(links, w)
    requires target == Spliced(links, w).target && base == (if Spliced(links, w).hard then [] else w.cwd)
    requires Step(tree, links, w) == Some(Walker(base, Items(target) + rest))
    requires Stretch(tree, links, m, Walker(base, Items(target) + rest), MeterStep(links, w, k), q, rest,
                     level + 1, deep, cost)
    ensures Stretch(tree, links, 1 + m, w, k, q, rest, level, deep + 1, 1 + |base| + cost)
  {
    var k1 := MeterStep(links, w, k);
    assert k1.levels[|Items(target)|..] == k.levels[1..];
  }

  lemma {:induction false} TargetIsMetered(tree: Tree, links: Links, n: nat, base: Path, target: RawPath,
                                           rest: seq<Item>, p: Path, k: Meter, level: nat)
    returns (q: Path, m: nat, deep: nat, cost: nat)
    requires IsDir(tree, []) && Grounded(tree, links, base) && IsDir(tree, base)
    requires StepN(tree, links, n, Walker(base, Items(target) + rest)) == Some(Walker(p, []))
    requires |k.levels| == |Items(target)| + |rest| && AtLevel(k, |Items(target)|, level)
    ensures m <= n
    ensures Stretch(tree, links, m, Walker(base, Items(target) + rest), k, q, rest, level, deep, cost)
    ensures PathNeeds(tree, links, Join(base, target), deep, |base| + cost, q)
    ensures StepN(tree, links, n - m, Walker(q, rest)) == Some(Walker(p, []))
    decreases n, 6
  {
    hide StepN, MeterN, Stretch, PathNeeds, Grounded, Items;
    ItemsSplit(target, rest);
    if base == [] {
      q, m, deep, cost := AtRootIsMetered(tree, links, n, target, rest, p, k, level);
    } else {
      q, m, deep, cost := BelowIsMetered(tree, links, n, base, target, rest, p, k, level);
    }
  }

  lemma {:induction false} AtRootIsMetered(tree: Tree, links: Links, n: nat, target: RawPath,
                                           rest: seq<Item>, p: Path, k: Meter, level: nat)
    returns (q: Path, m: nat, deep: nat, cost: nat)
    requires IsDir(tree, [])
    requires StepN(tree, links, n, Walker([], Spelled(target, rest))) == Some(Walker(p, []))
    requires |k.levels| == |Spelled(target, rest)| && AtLevel(k, |k.levels| - |rest|, level)
    ensures m <= n
    ensures Stretch(tree, links, m, Walker([], Spelled(target, rest)), k, q, rest, level, deep, cost)
    ensures PathNeeds(tree, links, Join([], target), deep, cost, q)
    ensures StepN(tree, links, n - m, Walker(q, rest)) == Some(Walker(p, []))
    decreases n, 5
  {
    hide StepN, MeterN, Stretch, PathNeeds, ComponentsNeed;
    BodyHasNoDot(target, []);
    q, m, deep, cost := CheckedIsMetered(tree, links, n, Components(target), [], target, rest, p, k, level);
    RootPathNeeds(tree, links, target, deep, cost, q);
  }

  /** A spelling's components and directory check, before what follows. */
  function Spelled(target: RawPath, rest: seq<Item>): seq<Item> {
    Entering(Components(target)) + (Checks(target) + rest)
  }

  /** Components, then the directory check of their spelling. */
  lemma {:induction false} CheckedIsMetered(tree: Tree, links: Links, n: nat, todo: seq<Component>, base: Path,
                                            target: RawPath, rest: seq<Item>, p: Path, k: Meter, level: nat)
    returns (q: Path, m: nat, deep: nat, cost: nat)
    requires IsDir(tree, []) && Grounded(tree, links, base) && DotOnlyAtRoot(todo, base)
    requires StepN(tree, links, n, Walker(base, Entering(todo) + (Checks(target) + rest))) == Some(Walker(p, []))
    requires |k.levels| == |todo| + |Checks(target)| + |rest| && AtLevel(k, |todo| + |Checks(target)|, level)
    ensures m <= n
    ensures Stretch(tree, links, m, Walker(base, Entering(todo) + (Checks(target) + rest)), k, q, rest,
                    level, deep, cost)
    ensures ComponentsNeed(tree, links, todo, base, deep, cost, q)
    ensures RequiresDirectory(target) ==> IsDir(tree, q)
    ensures StepN(tree, links, n - m, Walker(q, rest)) == Some(Walker(p, []))
    decreases n, 4
  {
    hide StepN, MeterN, Stretch, ComponentsNeed, Grounded;
    var rest1 := Checks(target) + rest;
    var w := Walker(base, Entering(todo) + rest1);
    q, m, deep, cost := WalkIsMetered(tree, links, n, todo, base, rest1, p, k, level);
    if RequiresDirectory(target) {
      var k1 := Past(k, |todo|, level, deep, cost);
      FirstMove(tree, links, n - m, Walker(q, rest1), p);
      PlainMove(tree, links, Walker(q, rest1), k1, MustBeDirectory, rest, level);
      assert rest1[1..] == rest;
      StretchesJoin(tree, links, w, k, level, m, q, rest1, deep, cost, 1, q, rest, 0, 0);
      m := m + 1;
    } else {
      assert rest1 == rest;
    }
  }

  /** Below the root the joined path has no leading `.`, and the walker passes
      over one at no cost. */
  lemma {:induction false} BelowIsMetered(tree: Tree, links: Links, n: nat, base: Path, target: RawPath,
                                          rest: seq<Item>, p: Path, k: Meter, level: nat)
    returns (q: Path, m: nat, deep: nat, cost: nat)
    requires IsDir(tree, []) && Grounded(tree, links, base) && IsDir(tree, base) && base != []
    requires StepN(tree, links, n, Walker(base, Spelled(target, rest))) == Some(Walker(p, []))
    requires |k.levels| == |Spelled(target, rest)| && AtLevel(k, |k.levels| - |rest|, level)
    ensures m <= n
    ensures Stretch(tree, links, m, Walker(base, Spelled(target, rest)), k, q, rest, level, deep, cost)
    ensures PathNeeds(tree, links, Join(base, target), deep, |base| + cost, q)
    ensures StepN(tree, links, n - m, Walker(q, rest)) == Some(Walker(p, []))
    decreases n, 5
  {
    hide StepN, MeterN, Stretch, PathNeeds, ComponentsNeed, Grounded, AtLevel, Entering, Join;
    NotAbsolute(tree, links, n, base, target, rest, p);
    if target[0].Dot? {
      q, m, deep, cost := DotIsMetered(tree, links, n, base, target, rest, p, k, level);
    } else {
      JoinComponents(base, target);
      BodyHasNoDot(target, base);
      q, m, deep, cost := CheckedIsMetered(tree, links, n, Body(target), base, target, rest, p, k, level);
    }
    JoinRequiresDirectory(base, target);
    if Body(target) == [] {
      EmptyStaysPut(tree, links, base, deep, cost, q);
    }
    JoinedPathNeeds(tree, links, base, target, deep, cost, q);
  }

  lemma {:induction false} DotIsMetered(tree: Tree, links: Links, n: nat, base: Path, target: RawPath,
                                        rest: seq<Item>, p: Path, k: Meter, level: nat)
    returns (q: Path, m: nat, deep: nat, cost: nat)
    requires IsDir(tree, []) && Grounded(tree, links, base) && IsDir(tree, base) && base != []
    requires !IsAbsolute(target) && target[0].Dot?
    requires StepN(tree, links, n, Walker(base, Spelled(target, rest))) == Some(Walker(p, []))
    requires |k.levels| == |Spelled(target, rest)| && AtLevel(k, |k.levels| - |rest|, level)
    ensures m <= n
    ensures Stretch(tree, links, m, Walker(base, Spelled(target, rest)), k, q, rest, level, deep, cost)
    ensures ComponentsNeed(tree, links, Body(target), base, deep, cost, q)
    ensures RequiresDirectory(target) ==> IsDir(tree, q)
    ensures StepN(tree, links, n - m, Walker(q, rest)) == Some(Walker(p, []))
    decreases n, 4
  {
    hide StepN, MeterN, Stretch, ComponentsNeed, Grounded;
    var w := Walker(base, Spelled(target, rest));
    var after := Entering(Body(target)) + (Checks(target) + rest);
    DotComesFirst(target, rest);
    FirstMove(tree, links, n, w, p);
    PlainMove(tree, links, w, k, Enter(CurDir), after, level);
    BodyHasNoDot(target, base);
    var k1 := Past(k, 1, level, 0, 0);
    var m1;
    q, m1, deep, cost := CheckedIsMetered(tree, links, n - 1, Body(target), base, target, rest, p, k1, level);
    StretchesJoin(tree, links, w, k, level, 1, base, after, 0, 0, m1, q, rest, deep, cost);
    m := 1 + m1;
  }

  lemma DotComesFirst(target: RawPath, rest: seq<Item>)
    requires !IsAbsolute(target) && target[0].Dot?
    ensures Spelled(target, rest) == [Enter(CurDir)] + (Entering(Body(target)) + (Checks(target) + rest))
    ensures Spelled(target, rest)[1..] == Entering(Body(target)) + (Checks(target) + rest)
  {
    assert Components(target)[0] == CurDir && Components(target)[1..] == Body(target);
    EnteringSplits(Components(target), Checks(target) + rest);
  }

  lemma EmptyStaysPut(tree: Tree, links: Links, base: Path, deep: nat, cost: nat, q: Path)
    requires ComponentsNeed(tree, links, [], base, deep, cost, q)
    ensures q == base
  {
    assert Meets(ResolveComponents(tree, links, [], base, deep + 1, cost), true, cost, q);
  }

  lemma NotAbsolute(tree: Tree, links: Links, n: nat, base: Path, target: RawPath, rest: seq<Item>, p: Path)
    requires StepN(tree, links, n, Walker(base, Spelled(target, rest))) == Some(Walker(p, []))
    ensures !IsAbsolute(target)
  {
  }

  // ---- main results

  /** Exactly when the resolver succeeds, for a path whose lookup ends: at any
      depth and budget, if and only if the walk nests less deep than the fuel
      and costs no more than the budget; and that is the cost charged. */
  lemma LookupResolvesExactlyWithin(tree: Tree, links: Links, raw: RawPath, n: nat, p: Path, fuel: nat, steps: nat)
    requires IsDir(tree, []) && StepN(tree, links, n, Walker([], Items(raw))) == Some(Walker(p, []))
    ensures var meter := Metered(tree, links, n, raw);
            var o := ResolvePath(tree, links, raw, fuel, steps);
            && (o.result.Ok? <==> meter.deepest < fuel && meter.cost <= steps)
            && (o.result.Ok? ==> o.result.path == p && |o.visits| == meter.cost)
  {
    var k := Meter(Fill(|Items(raw)|, 0), 0, 0);
    assert Items(raw) + [] == Items(raw);
    var q, m, deep, cost := TargetIsMetered(tree, links, n, [], raw, [], p, k, 0);
    assert n == m && q == p;
    assert Join([], raw) == raw;
    assert Meets(ResolvePath(tree, links, raw, fuel, steps), fuel > deep && steps >= cost, cost, q);
  }

  /** At the depth the installer starts from. */
  lemma SourceLimitsAreExact(tree: Tree, links: Links, raw: RawPath, n: nat, p: Path, steps: nat)
    requires IsDir(tree, []) && StepN(tree, links, n, Walker([], Items(raw))) == Some(Walker(p, []))
    ensures var meter := Metered(tree, links, n, raw);
            ResolvePath(tree, links, raw, Fuel(0), steps).result.Ok?
            <==> meter.deepest <= MAX_DEPTH && meter.cost <= steps
  {
    LookupResolvesExactlyWithin(tree, links, raw, n, p, Fuel(0), steps);
  }

  /** A path resolves with some depth and budget if and only if its lookup
      ends, and ends there. */
  lemma ResolverAgreesWithLookup(tree: Tree, links: Links, raw: RawPath, p: Path)
    requires IsDir(tree, [])
    ensures (exists fuel: nat, steps: nat :: ResolvePath(tree, links, raw, fuel, steps).result == Ok(p))
       <==> LooksUp(tree, links, raw, p)
  {
    if fuel: nat, steps: nat :| ResolvePath(tree, links, raw, fuel, steps).result == Ok(p) {
      ResolverIsSound(tree, links, raw, fuel, steps);
    }
    if n: nat :| StepN(tree, links, n, Walker([], Items(raw))) == Some(Walker(p, [])) {
      var meter := Metered(tree, links, n, raw);
      LookupResolvesExactlyWithin(tree, links, raw, n, p, meter.deepest + 1, meter.cost);
      assert ResolvePath(tree, links, raw, meter.deepest + 1, meter.cost).result == Ok(p);
    }
  }

  // ---- chains of links: lookups that end and are refused for depth

  /** Links in the root, each naming the next; the last name is no link. */
  ghost predicate IsChain(tree: Tree, links: Links, names: seq<Name>) {
    && names != [] && IsDir(tree, []) && [names[|names| - 1]] !in links
    && forall i :: 0 <= i < |names| - 1 ==> ChainLink(links, names[i], names[i + 1])
  }

  predicate ChainLink(links: Links, name: Name, next: Name) {
    [name] in links && links[[name]] == Link([Named(next)], false)
  }

  function At(names: seq<Name>, i: nat): Walker
    requires i < |names|
  {
    Walker([], [Enter(Normal(names[i]))])
  }

  lemma NameItems(name: Name)
    ensures Items([Named(name)]) == [Enter(Normal(name))]
  {
    assert Body([Named(name)]) == [Normal(name)] + Body([]);
    assert Entering([Normal(name)]) == [Enter(Normal(name))] + Entering([]);
  }

  lemma {:induction false} ChainIsWalked(tree: Tree, links: Links, names: seq<Name>, i: nat)
    requires IsChain(tree, links, names) && i < |names|
    ensures StepN(tree, links, |names| - i, At(names, i)) == Some(Walker([names[|names| - 1]], []))
    ensures MeterN(tree, links, |names| - i, At(names, i), Meter([i], i, i)) == Meter([], |names| - 1, |names|)
    decreases |names| - i
  {
    hide Components, Body, Entering;
    var w := At(names, i);
    assert w.cwd + [names[i]] == [names[i]] && w.todo[1..] == [];
    if i == |names| - 1 {
      var end := Walker([names[i]], []);
      assert Step(tree, links, w) == Some(end);
      assert StepN(tree, links, 0, end) == Some(end) && MeterStep(links, w, Meter([i], i, i)) == Meter([], i, i + 1);
      assert MeterN(tree, links, 0, end, Meter([], i, i + 1)) == Meter([], i, i + 1);
    } else {
      assert ChainLink(links, names[i], names[i + 1]);
      NameItems(names[i + 1]);
      assert Items([Named(names[i + 1])]) + w.todo[1..] == [Enter(Normal(names[i + 1]))];
      assert Step(tree, links, w) == Some(At(names, i + 1));
      assert MeterStep(links, w, Meter([i], i, i)) == Meter([i + 1], i + 1, i + 1);
      ChainIsWalked(tree, links, names, i + 1);
    }
  }

  /** A chain of `|names| - 1` links looks up to its last name; the resolver
      follows it if and only if it has a level of fuel and a visit for each
      name. */
  lemma ChainResolvesExactlyWithin(tree: Tree, links: Links, names: seq<Name>, fuel: nat, steps: nat)
    requires IsChain(tree, links, names)
    ensures LooksUp(tree, links, [Named(names[0])], [names[|names| - 1]])
    ensures ResolvePath(tree, links, [Named(names[0])], fuel, steps).result.Ok?
            <==> |names| <= fuel && |names| <= steps
  {
    var raw: RawPath := [Named(names[0])];
    var n, p := |names|, [names[|names| - 1]];
    NameItems(names[0]);
    assert Fill(|Items(raw)|, 0) == [0];
    ChainIsWalked(tree, links, names, 0);
    assert StepN(tree, links, n, Walker([], Items(raw))) == Some(Walker(p, []));
    LookupResolvesExactlyWithin(tree, links, raw, n, p, fuel, steps);
  }

  /** A name for each number. */
  function Unary(i: nat): (name: Name)
    ensures |name| == i + 1
  {
    seq(i + 1, _ => 'l')
  }

  function UnaryLinks(n: nat): Links {
    if n == 0 then map[] else UnaryLinks(n - 1)[[Unary(n - 1)] := Link([Named(Unary(n))], false)]
  }

  lemma {:induction false} UnaryLinksChain(n: nat)
    ensures forall p :: p in UnaryLinks(n) ==> |p| == 1 && |p[0]| <= n
    ensures forall i: nat :: i < n ==> ChainLink(UnaryLinks(n), Unary(i), Unary(i + 1))
  {
    if n > 0 {
      UnaryLinksChain(n - 1);
      forall i: nat | i < n ensures ChainLink(UnaryLinks(n), Unary(i), Unary(i + 1)) {
        if i < n - 1 {
          assert ChainLink(UnaryLinks(n - 1), Unary(i), Unary(i + 1));
          assert [Unary(i)][0] != [Unary(n - 1)][0];
        }
      }
    }
  }

  lemma ChainOfLinks(n: nat) returns (tree: Tree, links: Links, names: seq<Name>)
    ensures |names| == n + 1 && IsChain(tree, links, names)
    ensures [names[n]] in tree && tree[[names[n]]].File?
  {
    names := seq(n + 1, i requires 0 <= i => Unary(i));
    links := UnaryLinks(n);
    tree := map[[] := Dir, [names[n]] := File(0)];
    UnaryLinksChain(n);
    forall i | 0 <= i < n ensures ChainLink(links, names[i], names[i + 1]) {
      assert ChainLink(links, Unary(i), Unary(i + 1));
    }
    assert [names[n]][0] == Unary(n);
  }

  /** A chain of `n` links to a file, which looks up; the installer's resolver
      takes it if and only if it has at most 64 links and the budget covers its
      names. */
  ghost predicate FollowedUpToTheDepth(tree: Tree, links: Links, names: seq<Name>, n: nat) {
    && |names| == n + 1 && IsChain(tree, links, names)
    && [names[n]] in tree && tree[[names[n]]].File?
    && LooksUp(tree, links, [Named(names[0])], [names[n]])
    && forall steps: nat :: ResolvePath(tree, links, [Named(names[0])], Fuel(0), steps).result.Ok?
                            <==> n <= MAX_DEPTH && n + 1 <= steps
  }

  /** There is one of every length, so from 65 links on a path that looks up is
      refused at every budget. */
  lemma ChainsAreFollowedUpToTheDepth(n: nat)
    ensures exists tree, links, names :: FollowedUpToTheDepth(tree, links, names, n)
  {
    var tree, links, names := ChainOfLinks(n);
    ChainResolvesExactlyWithin(tree, links, names, Fuel(0), 0);
    forall steps: nat
      ensures ResolvePath(tree, links, [Named(names[0])], Fuel(0), steps).result.Ok?
              <==> n <= MAX_DEPTH && n + 1 <= steps
    {
      ChainResolvesExactlyWithin(tree, links, names, Fuel(0), steps);
    }
    assert FollowedUpToTheDepth(tree, links, names, n);
  }
}
