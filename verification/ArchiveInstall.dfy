/** The two-phase link installer: every link is validated against the virtual
    graph before any is placed, and what ends up on disk is looked up by the
    operating system exactly where validation said. */
module ArchiveInstall {
  import opened Common
  import opened ArchivePaths
  import opened ArchiveResolve
  import opened ArchiveWalk
  import opened ArchiveMeter
  import opened ArchiveRefusal

  datatype DanglingLinks = Reject | PreserveMissingLeaf

  datatype InstallError =
    | ParentBlocked
    | Collides
    | Unresolvable(cause: ResolveError)
    | Dangling
    | NotARegularFile
    | PlacementFailed

  /** A validated link and where it leads. */
  datatype Placement = Placement(at: Path, link: Link, resolved: Path)

  datatype Verdict = Valid(placement: Placement) | Invalid(error: InstallError)

  datatype Plan =
    | Rejected(tree: Tree, error: InstallError)
    | Accepted(tree: Tree, placements: seq<Placement>)

  datatype Installed = Done | Failed(error: InstallError)

  /** Every entry's parent is a directory of the tree. */
  ghost predicate WellFormed(tree: Tree) {
    IsDir(tree, []) && forall p :: p in tree && p != [] ==> IsDir(tree, Parent(p))
  }

  /** `order` lists the keys of the link map once each. */
  ghost predicate Enumerates(order: seq<Path>, links: Links) {
    && (forall p :: p in order <==> p in links)
    && (forall i, j :: 0 <= i < j < |order| ==> order[i] != order[j])
  }

  // ---- phase one: parent directories

  predicate CanMakeDirs(tree: Tree, p: Path)
    decreases |p|
  {
    (p in tree ==> tree[p].Dir?) && (p == [] || CanMakeDirs(tree, Parent(p)))
  }

  /** `create_dir_all`: every missing prefix becomes a directory. */
  function MakeDirs(tree: Tree, p: Path): (t: Tree)
    decreases |p|
  {
    var above := if p == [] then tree else MakeDirs(tree, Parent(p));
    if p in above then above else above[p := Dir]
  }

  lemma {:induction false} MakeDirsAddsOnlyDirectories(tree: Tree, p: Path)
    requires CanMakeDirs(tree, p)
    ensures forall q :: q in tree ==> q in MakeDirs(tree, p) && MakeDirs(tree, p)[q] == tree[q]
    ensures forall q :: q in MakeDirs(tree, p) && q !in tree ==> MakeDirs(tree, p)[q] == Dir
    ensures forall i :: 0 <= i <= |p| ==> IsDir(MakeDirs(tree, p), p[..i])
    ensures WellFormed(tree) ==> WellFormed(MakeDirs(tree, p))
    ensures forall q :: q in MakeDirs(tree, p) && q !in tree ==> |q| <= |p|
    decreases |p|
  {
    assert p[..|p|] == p;
    if p != [] {
      var up := Parent(p);
      MakeDirsAddsOnlyDirectories(tree, up);
      forall i | 0 <= i < |p|
        ensures p[..i] == up[..i]
      {
      }
      assert IsDir(MakeDirs(tree, up), up[..|up|]);
      assert up[..|up|] == up;
    }
  }

  /** Directories can be made exactly if nothing on the way is a file. */
  lemma {:induction false} DirsCanBeMadeExactly(tree: Tree, p: Path)
    ensures CanMakeDirs(tree, p) <==> forall i :: 0 <= i <= |p| && p[..i] in tree ==> tree[p[..i]].Dir?
    decreases |p|
  {
    assert p[..|p|] == p;
    if p != [] {
      var up := Parent(p);
      DirsCanBeMadeExactly(tree, up);
      assert forall i :: 0 <= i < |p| ==> p[..i] == up[..i];
    }
  }

  /** Making some directories does not keep others from being made. */
  lemma DirsStayMakeable(tree: Tree, p: Path, q: Path)
    requires CanMakeDirs(tree, p)
    ensures CanMakeDirs(MakeDirs(tree, p), q) <==> CanMakeDirs(tree, q)
  {
    hide CanMakeDirs, MakeDirs;
    MakeDirsAddsOnlyDirectories(tree, p);
    DirsCanBeMadeExactly(tree, q);
    DirsCanBeMadeExactly(MakeDirs(tree, p), q);
  }

  /** The first loop of the installer over the links still to do. */
  function MakeParents(tree: Tree, order: seq<Path>): (r: Plan)
    requires [] !in order
    ensures r.Rejected? ==> r.error == ParentBlocked
    decreases |order|
  {
    if order == [] then Accepted(tree, [])
    else if !CanMakeDirs(tree, Parent(order[0])) then Rejected(tree, ParentBlocked)
    else MakeParents(MakeDirs(tree, Parent(order[0])), order[1..])
  }

  ghost predicate AddsOnlyDirectories(before: Tree, after: Tree) {
    && (forall q :: q in before ==> q in after && after[q] == before[q])
    && (forall q :: q in after && q !in before ==> after[q] == Dir)
  }

  lemma {:induction false} MakeParentsAddsOnlyDirectories(tree: Tree, order: seq<Path>)
    requires [] !in order && WellFormed(tree)
    ensures WellFormed(MakeParents(tree, order).tree)
    ensures AddsOnlyDirectories(tree, MakeParents(tree, order).tree)
    ensures MakeParents(tree, order).Accepted? ==>
              forall p, i :: p in order && 0 <= i < |p| ==> IsDir(MakeParents(tree, order).tree, p[..i])
    decreases |order|
  {
    if order != [] && CanMakeDirs(tree, Parent(order[0])) {
      var first := order[0];
      var next := MakeDirs(tree, Parent(first));
      MakeDirsAddsOnlyDirectories(tree, Parent(first));
      MakeParentsAddsOnlyDirectories(next, order[1..]);
      var all := MakeParents(tree, order);
      if all.Accepted? {
        forall p, i | p in order && 0 <= i < |p|
          ensures IsDir(all.tree, p[..i])
        {
          if p == first {
            assert p[..i] == Parent(first)[..i];
            assert IsDir(next, Parent(first)[..i]);
          } else {
            assert p in order[1..];
          }
        }
      }
    }
  }

  // ---- phase two: validation

  function Judge(tree: Tree, at: Path, link: Link, resolved: Result, policy: DanglingLinks): Verdict {
    if resolved.Err? then Invalid(Unresolvable(resolved.error))
    else if resolved.path !in tree && (link.hard || policy.Reject?) then Invalid(Dangling)
    else if link.hard && !tree[resolved.path].File? then Invalid(NotARegularFile)
    else Valid(Placement(at, link, resolved.path))
  }

  datatype Checked = Checked(verdict: Verdict, visits: seq<Component>)

  function ValidateOne(tree: Tree, links: Links, at: Path, steps: nat, policy: DanglingLinks): (c: Checked)
    requires at != [] && at in links
    ensures |c.visits| <= steps
  {
    if at in tree then Checked(Invalid(Collides), [])
    else
      var o := ResolvePath(tree, links, Names(at), Fuel(0), steps);
      Checked(Judge(tree, at, links[at], o.result, policy), o.visits)
  }

  /** Validation of the links in `order`, sharing one visit budget; `visits`
      is everything visited, also when it stops early. */
  datatype Validation = Validation(placements: seq<Placement>, error: Option<InstallError>, visits: seq<Component>)

  function ValidateAll(tree: Tree, links: Links, order: seq<Path>, steps: nat, policy: DanglingLinks): (v: Validation)
    requires [] !in order && forall p :: p in order ==> p in links
    ensures |v.visits| <= steps
  {
    if order == [] then Validation([], None, [])
    else
      var one := ValidateOne(tree, links, order[0], steps, policy);
      match one.verdict
      case Invalid(e) => Validation([], Some(e), one.visits)
      case Valid(p) =>
        var rest := ValidateAll(tree, links, order[1..], steps - |one.visits|, policy);
        Validation([p] + rest.placements, rest.error, one.visits + rest.visits)
  }

  /** `rest` is what `whole` still has to do with the placements so far. */
  ghost predicate Resumes(whole: Validation, steps: nat, rest: Validation, left: nat, placements: seq<Placement>) {
    && whole.error == rest.error
    && whole.placements == placements + rest.placements
    && steps - |whole.visits| == left - |rest.visits|
  }

  lemma ValidateNext(tree: Tree, links: Links, order: seq<Path>, i: nat, left: nat, policy: DanglingLinks,
                     whole: Validation, steps: nat, placements: seq<Placement>)
    requires i < |order| && [] !in order && forall p :: p in order ==> p in links
    requires Resumes(whole, steps, ValidateAll(tree, links, order[i..], left, policy), left, placements)
    ensures var one := ValidateOne(tree, links, order[i], left, policy);
            match one.verdict
            case Invalid(e) => whole.error == Some(e) && steps - |whole.visits| == left - |one.visits|
            case Valid(p) =>
              Resumes(whole, steps, ValidateAll(tree, links, order[i + 1..], left - |one.visits|, policy),
                      left - |one.visits|, placements + [p])
  {
    hide ValidateOne;
    assert order[i..][0] == order[i] && order[i..][1..] == order[i + 1..];
    var one := ValidateOne(tree, links, order[i], left, policy);
    if one.verdict.Valid? {
      var rest := ValidateAll(tree, links, order[i + 1..], left - |one.visits|, policy).placements;
      assert placements + ([one.verdict.placement] + rest) == (placements + [one.verdict.placement]) + rest;
    }
  }

  function MakePlan(tree: Tree, links: Links, order: seq<Path>, steps: nat, policy: DanglingLinks): Plan
    requires [] !in order && forall p :: p in order ==> p in links
  {
    var parents := MakeParents(tree, order);
    if parents.Rejected? then parents
    else
      var v := ValidateAll(parents.tree, links, order, steps, policy);
      if v.error.Some? then Rejected(parents.tree, v.error.value) else Accepted(parents.tree, v.placements)
  }

  // ---- what is accepted

  /** The parent pass succeeds exactly if no link has a file above it. */
  lemma {:induction false} ParentsAreMadeExactly(tree: Tree, order: seq<Path>)
    requires [] !in order
    ensures MakeParents(tree, order).Accepted? <==> forall at :: at in order ==> CanMakeDirs(tree, Parent(at))
    decreases |order|
  {
    hide CanMakeDirs, MakeDirs;
    if order != [] {
      var first, rest := order[0], order[1..];
      assert order == [first] + rest;
      if CanMakeDirs(tree, Parent(first)) {
        forall at | at in rest
          ensures CanMakeDirs(MakeDirs(tree, Parent(first)), Parent(at)) <==> CanMakeDirs(tree, Parent(at))
        {
          DirsStayMakeable(tree, Parent(first), Parent(at));
        }
        ParentsAreMadeExactly(MakeDirs(tree, Parent(first)), rest);
      }
    }
  }

  /** Lookup of the link's own path ends at `p` after `n` moves. */
  ghost predicate EndsAfter(tree: Tree, links: Links, at: Path, n: nat, p: Path)
    requires at != []
  {
    StepN(tree, links, n, Walker([], Items(Names(at)))) == Some(Walker(p, []))
  }

  /** A link that leads, within the depth, to an existing entry (of the right
      kind if it is hard) or, where that is allowed, to a missing leaf. */
  ghost predicate Acceptable(tree: Tree, links: Links, at: Path, policy: DanglingLinks, n: nat, p: Path)
    requires at != [] && at in links
  {
    && at !in tree
    && EndsAfter(tree, links, at, n, p) && Metered(tree, links, n, Names(at)).deepest <= MAX_DEPTH
    && (p !in tree ==> policy == PreserveMissingLeaf && !links[at].hard)
    && (links[at].hard ==> p in tree && tree[p].File?)
  }

  ghost predicate IsAcceptable(tree: Tree, links: Links, at: Path, policy: DanglingLinks)
    requires at != [] && at in links
  {
    exists n: nat, p :: Acceptable(tree, links, at, policy, n, p)
  }

  /** What the walker charges for the link's lookup, if that ends. */
  ghost function CostOf(tree: Tree, links: Links, at: Path): nat
    requires at != []
  {
    if n: nat, p :| EndsAfter(tree, links, at, n, p) then Metered(tree, links, n, Names(at)).cost else 0
  }

  lemma CostIsUnique(tree: Tree, links: Links, at: Path, n: nat, p: Path)
    requires at != [] && EndsAfter(tree, links, at, n, p)
    ensures CostOf(tree, links, at) == Metered(tree, links, n, Names(at)).cost
  {
    var w := Walker([], Items(Names(at)));
    forall m: nat, q | EndsAfter(tree, links, at, m, q) ensures m == n {
      FinishedIsLonger(tree, links, m, n, w, Walker(q, []), p);
      FinishedIsLonger(tree, links, n, m, w, Walker(p, []), q);
    }
  }

  /** One link is valid exactly if it is acceptable and its lookup is within
      the visits left, which it is charged. */
  lemma LinksAreValidExactly(tree: Tree, links: Links, at: Path, steps: nat, policy: DanglingLinks)
    requires IsDir(tree, []) && at != [] && at in links
    ensures var one := ValidateOne(tree, links, at, steps, policy);
            && (one.verdict.Valid? <==> IsAcceptable(tree, links, at, policy) && CostOf(tree, links, at) <= steps)
            && (one.verdict.Valid? ==> |one.visits| == CostOf(tree, links, at))
  {
    hide ResolvePath, StepN, MeterN, CostOf, Items, Names;
    var raw := Names(at);
    var o := ResolvePath(tree, links, raw, Fuel(0), steps);
    if at !in tree && o.result.Ok? {
      var n := EndOfLookup(tree, links, at, Fuel(0), steps);
      CostIsUnique(tree, links, at, n, o.result.path);
      LookupResolvesExactlyWithin(tree, links, raw, n, o.result.path, Fuel(0), steps);
      assert Acceptable(tree, links, at, policy, n, o.result.path)
             <==> Judge(tree, at, links[at], o.result, policy).Valid?;
    }
    forall n: nat, p | Acceptable(tree, links, at, policy, n, p) && CostOf(tree, links, at) <= steps
      ensures o.result == Ok(p)
    {
      CostIsUnique(tree, links, at, n, p);
      LookupResolvesExactlyWithin(tree, links, raw, n, p, Fuel(0), steps);
    }
  }

  /** An invalid link is so for the reason given: an entry is in its place, it
      leads nowhere or, being hard, to no regular file, its lookup fails for
      the reason the resolver names, or a limit was met. */
  lemma InvalidLinksSayWhy(tree: Tree, links: Links, at: Path, steps: nat, policy: DanglingLinks)
    requires IsDir(tree, []) && at != [] && at in links
    requires ValidateOne(tree, links, at, steps, policy).verdict.Invalid?
    ensures match ValidateOne(tree, links, at, steps, policy).verdict.error
            case Collides => at in tree
            case Dangling =>
              (links[at].hard || policy.Reject?) && exists n: nat, p :: EndsAfter(tree, links, at, n, p) && p !in tree
            case NotARegularFile =>
              links[at].hard && exists n: nat, p :: EndsAfter(tree, links, at, n, p) && IsDir(tree, p)
            case Unresolvable(e) => IsLimit(e) || exists n: nat :: Sticks(tree, links, n, Walker([], Items(Names(at))), e)
            case _ => false
  {
    hide ResolvePath, StepN, Items, Names, Sticks;
    var o := ResolvePath(tree, links, Names(at), Fuel(0), steps);
    if at !in tree && o.result.Ok? {
      var n := EndOfLookup(tree, links, at, Fuel(0), steps);
    } else if at !in tree && !IsLimit(o.result.error) {
      var n := RefusalsNameTheFailure(tree, links, Names(at), Fuel(0), steps);
      assert Sticks(tree, links, n, Walker([], Items(Names(at))), o.result.error);
    }
  }

  lemma EndOfLookup(tree: Tree, links: Links, at: Path, fuel: nat, steps: nat) returns (n: nat)
    requires IsDir(tree, []) && at != [] && ResolvePath(tree, links, Names(at), fuel, steps).result.Ok?
    ensures EndsAfter(tree, links, at, n, ResolvePath(tree, links, Names(at), fuel, steps).result.path)
  {
    hide ResolvePath, StepN;
    ResolverIsSound(tree, links, Names(at), fuel, steps);
    n :| StepN(tree, links, n, Walker([], Items(Names(at))))
         == Some(Walker(ResolvePath(tree, links, Names(at), fuel, steps).result.path, []));
  }

  ghost function TotalCost(tree: Tree, links: Links, order: seq<Path>): nat
    requires [] !in order
  {
    if order == [] then 0 else CostOf(tree, links, order[0]) + TotalCost(tree, links, order[1..])
  }

  /** Validation succeeds exactly if every link is acceptable and all lookups
      together are within the step limit. */
  lemma {:induction false} ValidationAcceptsExactly(tree: Tree, links: Links, order: seq<Path>, steps: nat,
                                                    policy: DanglingLinks)
    requires IsDir(tree, []) && [] !in order && forall p :: p in order ==> p in links
    ensures ValidateAll(tree, links, order, steps, policy).error.None?
            <==> (forall at :: at in order ==> IsAcceptable(tree, links, at, policy))
                 && TotalCost(tree, links, order) <= steps
    decreases |order|
  {
    hide ValidateOne, IsAcceptable, CostOf;
    if order != [] {
      var one := ValidateOne(tree, links, order[0], steps, policy);
      assert order == [order[0]] + order[1..];
      LinksAreValidExactly(tree, links, order[0], steps, policy);
      if one.verdict.Valid? {
        ValidationAcceptsExactly(tree, links, order[1..], steps - |one.visits|, policy);
      }
    }
  }

  /** A set of links is installed exactly if no link has a file above it and,
      with the parents made, every link is acceptable and all lookups together
      are within the step limit, in whatever order they are taken. */
  lemma PlansAreAcceptedExactly(tree: Tree, links: Links, order: seq<Path>, steps: nat, policy: DanglingLinks)
    requires WellFormed(tree) && [] !in order && forall p :: p in order ==> p in links
    ensures var made := MakeParents(tree, order).tree;
            MakePlan(tree, links, order, steps, policy).Accepted?
            <==> && (forall at :: at in order ==> CanMakeDirs(tree, Parent(at)))
                 && (forall at :: at in order ==> IsAcceptable(made, links, at, policy))
                 && TotalCost(made, links, order) <= steps
  {
    hide CanMakeDirs, MakeParents, ValidateAll, IsAcceptable, TotalCost;
    ParentsAreMadeExactly(tree, order);
    MakeParentsAddsOnlyDirectories(tree, order);
    ValidationAcceptsExactly(MakeParents(tree, order).tree, links, order, steps, policy);
  }

  /** What validation established about one placement. */
  ghost predicate Vetted(tree: Tree, links: Links, p: Placement) {
    && p.at != [] && p.at in links && p.link == links[p.at] && p.at !in tree
    && LooksUp(tree, links, Names(p.at), p.resolved)
    && Grounded(tree, links, p.resolved)
    && (p.link.hard ==> p.resolved in tree && tree[p.resolved].File?)
    && (p.link.hard ==> LooksUp(tree, links, p.link.target, p.resolved))
  }

  lemma VettedBy(tree: Tree, links: Links, at: Path, steps: nat, policy: DanglingLinks)
    requires IsDir(tree, []) && at != [] && at in links && Grounded(tree, links, Parent(at))
    requires ValidateOne(tree, links, at, steps, policy).verdict.Valid?
    ensures var p := ValidateOne(tree, links, at, steps, policy).verdict.placement;
            p.at == at && Vetted(tree, links, p)
  {
    hide StepN, LooksUp, Grounded, Names, ResolvePath;
    var raw: RawPath := Names(at);
    var resolved := ResolvePath(tree, links, raw, Fuel(0), steps).result.path;
    assert LooksUp(tree, links, raw, resolved) by {
      ResolverIsSound(tree, links, raw, Fuel(0), steps);
    }
    assert Grounded(tree, links, resolved) by {
      ResolvedPathIsConfined(tree, links, raw, 0, steps);
    }
    if links[at].hard {
      assert Parent(at) + [at[|at| - 1]] == at;
      HardTargetLooksUp(tree, links, Parent(at), at[|at| - 1], steps);
    }
  }

  lemma HardTargetLooksUp(tree: Tree, links: Links, parent: Path, name: Name, steps: nat)
    requires IsDir(tree, []) && Grounded(tree, links, parent)
    requires parent + [name] in links && links[parent + [name]].hard
    requires ResolvePath(tree, links, Names(parent + [name]), Fuel(0), steps).result.Ok?
    ensures LooksUp(tree, links, links[parent + [name]].target,
                    ResolvePath(tree, links, Names(parent + [name]), Fuel(0), steps).result.path)
  {
    hide Grounded, LooksUp, StepN, Names, Body;
    var link := links[parent + [name]];
    var fuel := Fuel(0);
    EntryFromParent(tree, links, parent, name, fuel, steps);
    var left := steps - |parent|;
    var one := Visit(tree, links, Normal(name), parent, fuel, left);
    assert ResolveComponents(tree, links, [Normal(name)], parent, fuel, left).result == one.result;
    assert Join([], link.target) == link.target;
    ResolverIsSound(tree, links, link.target, fuel - 1, left - 1);
  }

  ghost predicate PrefixFree(order: seq<Path>) {
    forall p, q :: p in order && q in order && |p| < |q| ==> q[..|p|] != p
  }

  /** Validation accepts only links none of which lies below another. */
  lemma {:induction false} ValidatedPathsAreAbsent(tree: Tree, links: Links, order: seq<Path>, steps: nat,
                                                   policy: DanglingLinks)
    requires [] !in order && forall p :: p in order ==> p in links
    requires ValidateAll(tree, links, order, steps, policy).error.None?
    ensures forall p :: p in order ==> p !in tree
  {
    hide ResolvePath, Judge, Names;
    if order != [] {
      var one := ValidateOne(tree, links, order[0], steps, policy);
      ValidatedPathsAreAbsent(tree, links, order[1..], steps - |one.visits|, policy);
    }
  }

  lemma AcceptedLinksArePrefixFree(tree: Tree, links: Links, order: seq<Path>, steps: nat, policy: DanglingLinks)
    requires [] !in order && (forall p :: p in order ==> p in links) && WellFormed(tree)
    requires MakePlan(tree, links, order, steps, policy).Accepted?
    ensures PrefixFree(order)
  {
    var made := MakeParents(tree, order).tree;
    MakeParentsAddsOnlyDirectories(tree, order);
    ValidatedPathsAreAbsent(made, links, order, steps, policy);
    forall p, q | p in order && q in order && |p| < |q|
      ensures q[..|p|] != p
    {
      assert IsDir(made, q[..|p|]);
    }
  }

  /** In a prefix-free plan each link's parent is reached without any link. */
  lemma ParentIsGrounded(tree: Tree, links: Links, order: seq<Path>, at: Path)
    requires Enumerates(order, links) && PrefixFree(order) && [] !in order && at in order
    requires forall p, i :: p in order && 0 <= i < |p| ==> IsDir(tree, p[..i])
    ensures Grounded(tree, links, Parent(at))
  {
    var up := Parent(at);
    forall i | 0 < i <= |up|
      ensures up[..i] !in links
    {
      assert up[..i] == at[..i];
      assert at[..|at[..i]|] == at[..i];
    }
    forall i | 0 <= i < |up|
      ensures IsDir(tree, up[..i])
    {
      assert up[..i] == at[..i];
    }
  }

  ghost predicate AllVetted(tree: Tree, links: Links, order: seq<Path>, ps: seq<Placement>) {
    |ps| == |order| && forall i :: 0 <= i < |ps| ==> ps[i].at == order[i] && Vetted(tree, links, ps[i])
  }

  lemma {:induction false} ValidationVetsAll(tree: Tree, links: Links, order: seq<Path>, steps: nat,
                                             policy: DanglingLinks)
    requires IsDir(tree, []) && [] !in order
    requires forall p :: p in order ==> p in links && Grounded(tree, links, Parent(p))
    requires ValidateAll(tree, links, order, steps, policy).error.None?
    ensures AllVetted(tree, links, order, ValidateAll(tree, links, order, steps, policy).placements)
  {
    hide ValidateOne, Vetted, ResolvePath, Judge, Grounded;
    if order != [] {
      var one := ValidateOne(tree, links, order[0], steps, policy);
      VettedBy(tree, links, order[0], steps, policy);
      ValidationVetsAll(tree, links, order[1..], steps - |one.visits|, policy);
    }
  }

  lemma AcceptedLinksAreVetted(tree: Tree, links: Links, order: seq<Path>, steps: nat, policy: DanglingLinks)
    requires Enumerates(order, links) && [] !in order && WellFormed(tree)
    requires MakePlan(tree, links, order, steps, policy).Accepted?
    ensures var plan := MakePlan(tree, links, order, steps, policy);
            && AllVetted(plan.tree, links, order, plan.placements)
            && WellFormed(plan.tree) && AddsOnlyDirectories(tree, plan.tree)
            && PrefixFree(order)
    ensures var plan := MakePlan(tree, links, order, steps, policy);
            forall p, i :: p in order && 0 <= i < |p| ==> IsDir(plan.tree, p[..i])
  {
    var made := MakeParents(tree, order).tree;
    MakeParentsAddsOnlyDirectories(tree, order);
    AcceptedLinksArePrefixFree(tree, links, order, steps, policy);
    forall p | p in order
      ensures Grounded(made, links, Parent(p))
    {
      ParentIsGrounded(made, links, order, p);
    }
    ValidationVetsAll(made, links, order, steps, policy);
  }

  // ---- phase three: placement

  /** Hard links placed so far, as further names of existing files. */
  function WithHardLinks(tree: Tree, ps: seq<Placement>): Tree
    requires forall p :: p in ps && p.link.hard ==> p.resolved in tree
  {
    if ps == [] then tree
    else
      var before := WithHardLinks(tree, ps[..|ps| - 1]);
      var p := ps[|ps| - 1];
      if p.link.hard then before[p.at := tree[p.resolved]] else before
  }

  function WithSymlinks(ps: seq<Placement>): Links {
    if ps == [] then map[]
    else
      var before := WithSymlinks(ps[..|ps| - 1]);
      var p := ps[|ps| - 1];
      if p.link.hard then before else before[p.at := p.link]
  }

  ghost predicate DistinctPlaces(ps: seq<Placement>) {
    forall i, j :: 0 <= i < j < |ps| ==> ps[i].at != ps[j].at
  }

  lemma {:induction false} HardLinksPlaced(tree: Tree, ps: seq<Placement>)
    requires DistinctPlaces(ps)
    requires forall p :: p in ps ==> p.at !in tree && (p.link.hard ==> p.resolved in tree)
    ensures forall q :: q in WithHardLinks(tree, ps) <==> q in tree || exists p :: p in ps && p.link.hard && p.at == q
    ensures forall q :: q in tree ==> WithHardLinks(tree, ps)[q] == tree[q]
    ensures forall p :: p in ps && p.link.hard ==> WithHardLinks(tree, ps)[p.at] == tree[p.resolved]
  {
    if ps != [] {
      var front, last := ps[..|ps| - 1], ps[|ps| - 1];
      assert ps == front + [last];
      HardLinksPlaced(tree, front);
    }
  }

  lemma {:induction false} SymlinksPlaced(ps: seq<Placement>)
    requires DistinctPlaces(ps)
    ensures forall q :: q in WithSymlinks(ps) <==> exists p :: p in ps && !p.link.hard && p.at == q
    ensures forall p :: p in ps && !p.link.hard ==> WithSymlinks(ps)[p.at] == p.link
  {
    if ps != [] {
      var front, last := ps[..|ps| - 1], ps[|ps| - 1];
      assert ps == front + [last];
      SymlinksPlaced(front);
    }
  }

  /** A plan whose places are distinct, free and in existing directories. */
  ghost predicate Placeable(tree: Tree, ps: seq<Placement>) {
    && DistinctPlaces(ps)
    && (forall p :: p in ps ==> p.at != [] && p.at !in tree && IsDir(tree, Parent(p.at)))
    && (forall p :: p in ps && p.link.hard ==> p.resolved in tree && tree[p.resolved].File?)
  }

  lemma NextPlaceIsFree(tree: Tree, ps: seq<Placement>, i: nat)
    requires Placeable(tree, ps) && i < |ps|
    ensures var p := ps[i];
            var placed := WithHardLinks(tree, ps[..i]);
            && p.at != [] && p.at !in placed && p.at !in WithSymlinks(ps[..i])
            && IsDir(placed, Parent(p.at))
            && (p.link.hard ==> p.resolved in placed && placed[p.resolved] == tree[p.resolved]
                                && placed[p.resolved].File?)
            && WithHardLinks(tree, ps[..i + 1])
               == (if p.link.hard then placed[p.at := tree[p.resolved]] else placed)
            && WithSymlinks(ps[..i + 1])
               == (if p.link.hard then WithSymlinks(ps[..i]) else WithSymlinks(ps[..i])[p.at := p.link])
  {
    hide WithHardLinks, WithSymlinks;
    var done := ps[..i];
    assert forall p :: p in done ==> p in ps;
    HardLinksPlaced(tree, done);
    SymlinksPlaced(done);
    assert ps[i] in ps;
    assert forall q :: q in done ==> q.at != ps[i].at;
    assert ps[..i + 1][..i] == done && ps[..i + 1][i] == ps[i];
    OneMorePlaced(tree, ps[..i + 1]);
  }

  lemma OneMorePlaced(tree: Tree, ps: seq<Placement>)
    requires ps != [] && forall p :: p in ps && p.link.hard ==> p.resolved in tree
    ensures var p, done := ps[|ps| - 1], ps[..|ps| - 1];
            && WithHardLinks(tree, ps)
               == (if p.link.hard then WithHardLinks(tree, done)[p.at := tree[p.resolved]] else WithHardLinks(tree, done))
            && WithSymlinks(ps)
               == (if p.link.hard then WithSymlinks(done) else WithSymlinks(done)[p.at := p.link])
  {
  }

  /** The destination directory as the installer changes it. */
  class Destination {
    var nodes: Tree
    var symlinks: Links

    constructor (tree: Tree)
      ensures nodes == tree && symlinks == map[]
    {
      nodes := tree;
      symlinks := map[];
    }

    predicate Exists(p: Path)
      reads this
    {
      p in nodes || p in symlinks
    }

    /** `link(2)`: fails when the new name exists, its directory does not or
        the old name is not a file. */
    method HardLink(existing: Path, at: Path) returns (ok: bool)
      requires at != []
      modifies this`nodes
      ensures ok <==> !old(Exists(at)) && IsDir(old(nodes), Parent(at)) && existing in old(nodes) && old(nodes)[existing].File?
      ensures nodes == if ok then old(nodes)[at := old(nodes)[existing]] else old(nodes)
    {
      ok := !Exists(at) && IsDir(nodes, Parent(at)) && existing in nodes && nodes[existing].File?;
      if ok {
        nodes := nodes[at := nodes[existing]];
      }
    }

    /** `symlink(2)`: fails when the new name exists or its directory does not. */
    method Symlink(link: Link, at: Path) returns (ok: bool)
      requires at != []
      modifies this`symlinks
      ensures ok <==> !old(Exists(at)) && IsDir(nodes, Parent(at))
      ensures symlinks == if ok then old(symlinks)[at := link] else old(symlinks)
    {
      ok := !Exists(at) && IsDir(nodes, Parent(at));
      if ok {
        symlinks := symlinks[at := link];
      }
    }

    method MakeParentDirectories(order: seq<Path>) returns (ok: bool)
      requires [] !in order
      modifies this`nodes
      ensures ok <==> MakeParents(old(nodes), order).Accepted?
      ensures nodes == MakeParents(old(nodes), order).tree
    {
      var i := 0;
      while i < |order|
        invariant 0 <= i <= |order|
        invariant MakeParents(old(nodes), order) == MakeParents(nodes, order[i..])
      {
        var parent := Parent(order[i]);
        if !CanMakeDirs(nodes, parent) {
          return false;
        }
        assert order[i..][1..] == order[i + 1..];
        nodes := MakeDirs(nodes, parent);
        i := i + 1;
      }
      ok := true;
    }

    method ValidateLink(links: Links, at: Path, steps: nat, policy: DanglingLinks)
      returns (verdict: Verdict, left: nat)
      requires at != [] && at in links
      ensures verdict == ValidateOne(nodes, links, at, steps, policy).verdict
      ensures left == steps - |ValidateOne(nodes, links, at, steps, policy).visits|
    {
      if at in nodes {
        return Invalid(Collides), steps;
      }
      var resolved;
      resolved, left := ResolveLinkPath(nodes, links, Names(at), 0, steps);
      verdict := Judge(nodes, at, links[at], resolved, policy);
    }

    /** One link of the order, seen as a step of validating them all. */
    method ValidateInTurn(links: Links, order: seq<Path>, i: nat, steps: nat, policy: DanglingLinks,
                          ghost whole: Validation, ghost allowed: nat, ghost placements: seq<Placement>)
      returns (verdict: Verdict, left: nat)
      requires i < |order| && [] !in order && forall p :: p in order ==> p in links
      requires Resumes(whole, allowed, ValidateAll(nodes, links, order[i..], steps, policy), steps, placements)
      ensures verdict.Invalid? ==> whole.error == Some(verdict.error) && allowed - |whole.visits| == left
      ensures verdict.Valid? ==>
                Resumes(whole, allowed, ValidateAll(nodes, links, order[i + 1..], left, policy), left,
                        placements + [verdict.placement])
    {
      hide ValidateOne, ValidateAll;
      ValidateNext(nodes, links, order, i, steps, policy, whole, allowed, placements);
      verdict, left := ValidateLink(links, order[i], steps, policy);
    }

    method ValidateLinks(links: Links, order: seq<Path>, steps: nat, policy: DanglingLinks)
      returns (placements: seq<Placement>, error: Option<InstallError>, left: nat)
      requires [] !in order && forall p :: p in order ==> p in links
      ensures error == ValidateAll(nodes, links, order, steps, policy).error
      ensures left == steps - |ValidateAll(nodes, links, order, steps, policy).visits|
      ensures error.None? ==> placements == ValidateAll(nodes, links, order, steps, policy).placements
    {
      ghost var tree, whole := nodes, ValidateAll(nodes, links, order, steps, policy);
      ghost var rest := whole;
      placements, left := [], steps;
      assert order[0..] == order;
      var i := 0;
      while i < |order|
        invariant 0 <= i <= |order|
        invariant rest == ValidateAll(tree, links, order[i..], left, policy)
        invariant Resumes(whole, steps, rest, left, placements)
      {
        var verdict;
        verdict, left := ValidateInTurn(links, order, i, left, policy, whole, steps, placements);
        if verdict.Invalid? {
          return placements, Some(verdict.error), left;
        }
        placements := placements + [verdict.placement];
        i := i + 1;
        rest := ValidateAll(tree, links, order[i..], left, policy);
      }
      assert order[i..] == [];
      error := None;
    }

    method Place(p: Placement) returns (ok: bool)
      requires p.at != []
      modifies this
      ensures ok <==> && !old(Exists(p.at)) && IsDir(old(nodes), Parent(p.at))
                      && (p.link.hard ==> p.resolved in old(nodes) && old(nodes)[p.resolved].File?)
      ensures ok && p.link.hard ==> nodes == old(nodes)[p.at := old(nodes)[p.resolved]]
      ensures ok && !p.link.hard ==> symlinks == old(symlinks)[p.at := p.link]
      ensures !ok || !p.link.hard ==> nodes == old(nodes)
      ensures !ok || p.link.hard ==> symlinks == old(symlinks)
    {
      if p.link.hard {
        ok := HardLink(p.resolved, p.at);
      } else {
        ok := Symlink(p.link, p.at);
      }
    }

    /** Placement of a vetted plan never fails. */
    method PlaceLinks(placements: seq<Placement>) returns (ok: bool)
      requires symlinks == map[] && Placeable(nodes, placements)
      modifies this
      ensures ok
      ensures nodes == WithHardLinks(old(nodes), placements)
      ensures symlinks == WithSymlinks(placements)
    {
      ghost var tree := nodes;
      var i := 0;
      while i < |placements|
        invariant 0 <= i <= |placements|
        invariant nodes == WithHardLinks(tree, placements[..i])
        invariant symlinks == WithSymlinks(placements[..i])
      {
        NextPlaceIsFree(tree, placements, i);
        ok := Place(placements[i]);
        if !ok {
          return;
        }
        i := i + 1;
      }
      assert placements[..i] == placements;
      ok := true;
    }

    /** The installer: nothing is placed unless everything was validated, and
        then everything is. */
    method InstallLinks(links: Links, order: seq<Path>, steps: nat, policy: DanglingLinks)
      returns (outcome: Installed)
      requires WellFormed(nodes) && symlinks == map[]
      requires Enumerates(order, links) && [] !in order
      modifies this
      ensures var plan := MakePlan(old(nodes), links, order, steps, policy);
              plan.Rejected? ==> && outcome == Failed(plan.error) && nodes == plan.tree && symlinks == map[]
                                 && AddsOnlyDirectories(old(nodes), nodes)
      ensures var plan := MakePlan(old(nodes), links, order, steps, policy);
              plan.Accepted? ==> && Placeable(plan.tree, plan.placements) && outcome == Done
                                 && nodes == WithHardLinks(plan.tree, plan.placements)
                                 && symlinks == WithSymlinks(plan.placements)
    {
      PlanIsSafe(nodes, links, order, steps, policy);
      var made := MakeParentDirectories(order);
      if !made {
        return Failed(ParentBlocked);
      }
      var placements, error, _ := ValidateLinks(links, order, steps, policy);
      if error.Some? {
        return Failed(error.value);
      }
      var _ := PlaceLinks(placements);
      outcome := Done;
    }
  }

  lemma PlanIsSafe(tree: Tree, links: Links, order: seq<Path>, steps: nat, policy: DanglingLinks)
    requires WellFormed(tree) && Enumerates(order, links) && [] !in order
    ensures var plan := MakePlan(tree, links, order, steps, policy);
            && AddsOnlyDirectories(tree, plan.tree)
            && (plan.Accepted? ==> Placeable(plan.tree, plan.placements))
  {
    var plan := MakePlan(tree, links, order, steps, policy);
    MakeParentsAddsOnlyDirectories(tree, order);
    if plan.Accepted? {
      AcceptedLinksAreVetted(tree, links, order, steps, policy);
      PlacementsAreFree(plan.tree, links, order, plan.placements);
    }
  }

  lemma PlacementsAreFree(tree: Tree, links: Links, order: seq<Path>, ps: seq<Placement>)
    requires Enumerates(order, links) && [] !in order && AllVetted(tree, links, order, ps)
    requires forall p, i :: p in order && 0 <= i < |p| ==> IsDir(tree, p[..i])
    ensures Placeable(tree, ps)
  {
    forall p | p in ps
      ensures p.at != [] && p.at !in tree && IsDir(tree, Parent(p.at))
    {
      var i :| 0 <= i < |ps| && ps[i] == p;
      assert order[i] in order;
      assert IsDir(tree, p.at[..|p.at| - 1]);
    }
  }

  // ---- what the operating system then sees

  /** Two names of one entry of the finished tree. */
  ghost predicate SameEntry(tree: Tree, p: Path, q: Path) {
    p == q || (p in tree && q in tree && tree[p].File? && tree[p] == tree[q])
  }

  /** The disk after a whole plan was placed. */
  ghost predicate Finished(tree: Tree, links: Links, tree': Tree, symlinks: Links) {
    && IsDir(tree, [])
    && (forall q :: q in tree ==> q in tree' && tree'[q] == tree[q])
    && (forall q :: q in symlinks <==> q in links && !links[q].hard)
    && (forall q :: q in symlinks ==> symlinks[q] == links[q])
    && (forall q :: q in links ==> q !in tree)
    && (forall q :: q in links && links[q].hard ==> HardLinkInPlace(tree, links, tree', q))
  }

  ghost predicate HardLinkInPlace(tree: Tree, links: Links, tree': Tree, q: Path)
    requires q in links
  {
    exists file :: LooksUp(tree, links, links[q].target, file) && file in tree && tree[file].File?
                   && q in tree' && tree'[q] == tree[file]
  }

  ghost predicate HasPlacement(tree: Tree, links: Links, ps: seq<Placement>, q: Path)
    requires q in links
  {
    exists p :: p in ps && p.at == q && p.link == links[q] && Vetted(tree, links, p)
  }

  lemma EveryLinkIsPlaced(tree: Tree, links: Links, order: seq<Path>, ps: seq<Placement>, q: Path)
    requires Enumerates(order, links) && AllVetted(tree, links, order, ps) && q in links
    ensures HasPlacement(tree, links, ps, q) && q !in tree
  {
    hide LooksUp, Grounded;
    var i :| 0 <= i < |order| && order[i] == q;
    assert ps[i] in ps;
  }

  lemma PlacedIsVetted(tree: Tree, links: Links, order: seq<Path>, ps: seq<Placement>, p: Placement)
    requires AllVetted(tree, links, order, ps) && p in ps
    ensures Vetted(tree, links, p)
  {
    hide Vetted;
  }

  lemma HardLinkIsInPlace(tree: Tree, links: Links, ps: seq<Placement>, q: Path)
    requires q in links && links[q].hard && HasPlacement(tree, links, ps, q) && DistinctPlaces(ps)
    requires forall p :: p in ps ==> p.at !in tree && (p.link.hard ==> p.resolved in tree)
    ensures HardLinkInPlace(tree, links, WithHardLinks(tree, ps), q)
  {
    hide LooksUp, Grounded, WithHardLinks;
    HardLinksPlaced(tree, ps);
    var p :| p in ps && p.at == q && p.link == links[q] && Vetted(tree, links, p);
  }

  lemma PlanIsFinished(tree: Tree, links: Links, order: seq<Path>, ps: seq<Placement>)
    requires Enumerates(order, links) && IsDir(tree, []) && AllVetted(tree, links, order, ps)
    requires DistinctPlaces(ps)
    ensures Finished(tree, links, WithHardLinks(tree, ps), WithSymlinks(ps))
  {
    hide LooksUp, Grounded, WithHardLinks, WithSymlinks, HardLinkInPlace, AllVetted, Enumerates;
    forall p | p in ps ensures Vetted(tree, links, p) {
      PlacedIsVetted(tree, links, order, ps, p);
    }
    HardLinksPlaced(tree, ps);
    SymlinksPlaced(ps);
    forall q | q in links ensures HasPlacement(tree, links, ps, q) && q !in tree {
      EveryLinkIsPlaced(tree, links, order, ps, q);
    }
    forall q | q in links && links[q].hard
      ensures HardLinkInPlace(tree, links, WithHardLinks(tree, ps), q)
    {
      HardLinkIsInPlace(tree, links, ps, q);
    }
  }

  /** On the finished disk the walker goes wherever it went through the virtual
      graph; only a hard link is now reached under its own name. */
  lemma {:induction false} FinishedWalkAgrees(tree: Tree, links: Links, tree': Tree, symlinks: Links,
                                              n: nat, w: Walker, p: Path)
    returns (m: nat, p': Path)
    requires Finished(tree, links, tree', symlinks)
    requires StepN(tree, links, n, w) == Some(Walker(p, []))
    ensures StepN(tree', symlinks, m, w) == Some(Walker(p', [])) && SameEntry(tree', p', p)
  {
    if n == 0 {
      return 0, p;
    }
    if EntersHardLink(links, w) {
      p' := HardLinkIsReached(tree, links, tree', symlinks, n, w, p);
      return 1, p';
    }
    FinishedStep(tree, links, tree', symlinks, w);
    var next := Step(tree, links, w).value;
    m, p' := FinishedWalkAgrees(tree, links, tree', symlinks, n - 1, next, p);
    m := m + 1;
  }

  lemma HardLinkIsReached(tree: Tree, links: Links, tree': Tree, symlinks: Links, n: nat, w: Walker, p: Path)
    returns (at: Path)
    requires Finished(tree, links, tree', symlinks) && n > 0 && w.todo != [] && EntersHardLink(links, w)
    requires StepN(tree, links, n, w) == Some(Walker(p, []))
    ensures StepN(tree', symlinks, 1, w) == Some(Walker(at, [])) && SameEntry(tree', at, p)
  {
    at := w.cwd + [w.todo[0].component.name];
    FinishedStep(tree, links, tree', symlinks, w);
    HardLinkEndsTheWalk(tree, links, tree', symlinks, n - 1, at, w.todo[1..], p);
    assert StepN(tree', symlinks, 0, Walker(at, [])) == Some(Walker(at, []));
  }

  predicate EntersHardLink(links: Links, w: Walker)
    requires w.todo != []
  {
    && w.todo[0].Enter? && w.todo[0].component.Normal?
    && w.cwd + [w.todo[0].component.name] in links
    && links[w.cwd + [w.todo[0].component.name]].hard
  }

  lemma FinishedStep(tree: Tree, links: Links, tree': Tree, symlinks: Links, w: Walker)
    requires Finished(tree, links, tree', symlinks) && w.todo != [] && Step(tree, links, w).Some?
    ensures EntersHardLink(links, w) ==>
              var at := w.cwd + [w.todo[0].component.name];
              && Step(tree, links, w) == Some(Walker([], Items(links[at].target) + w.todo[1..]))
              && Step(tree', symlinks, w) == Some(Walker(at, w.todo[1..]))
    ensures !EntersHardLink(links, w) ==> Step(tree', symlinks, w) == Step(tree, links, w)
  {
  }

  lemma HardLinkEndsTheWalk(tree: Tree, links: Links, tree': Tree, symlinks: Links,
                            n: nat, at: Path, rest: seq<Item>, p: Path)
    requires Finished(tree, links, tree', symlinks) && at in links && links[at].hard
    requires StepN(tree, links, n, Walker([], Items(links[at].target) + rest)) == Some(Walker(p, []))
    ensures rest == [] && SameEntry(tree', at, p)
  {
    var target := links[at].target;
    assert HardLinkInPlace(tree, links, tree', at);
    var file :| LooksUp(tree, links, target, file) && file in tree && tree[file].File?
                && at in tree' && tree'[at] == tree[file];
    var m, q := FinishesAlone(tree, links, n, [], Items(target), rest, p);
    LookupIsUnique(tree, links, target, q, file);
  }

  /** After a successful installation every link of the archive is looked up,
      by the operating system and on the real disk, inside the destination and
      at the very entry its validation had found. */
  lemma InstalledLinksLeadWhereValidated(tree: Tree, links: Links, order: seq<Path>, steps: nat,
                                         policy: DanglingLinks, i: nat)
    requires Enumerates(order, links) && [] !in order && WellFormed(tree) && i < |order|
    requires MakePlan(tree, links, order, steps, policy).Accepted?
    ensures var plan := MakePlan(tree, links, order, steps, policy);
            && AllVetted(plan.tree, links, order, plan.placements)
            && exists p' :: LooksUp(WithHardLinks(plan.tree, plan.placements), WithSymlinks(plan.placements),
                                    Names(order[i]), p')
                            && SameEntry(WithHardLinks(plan.tree, plan.placements), p', plan.placements[i].resolved)
  {
    AcceptedLinksAreVetted(tree, links, order, steps, policy);
    var plan := MakePlan(tree, links, order, steps, policy);
    var ps := plan.placements;
    PlacementsAreFree(plan.tree, links, order, ps);
    PlanIsFinished(plan.tree, links, order, ps);
    var w := Walker([], Items(Names(order[i])));
    assert LooksUp(plan.tree, links, Names(order[i]), ps[i].resolved);
    var n: nat :| StepN(plan.tree, links, n, w) == Some(Walker(ps[i].resolved, []));
    var m, p' := FinishedWalkAgrees(plan.tree, links, WithHardLinks(plan.tree, ps), WithSymlinks(ps), n, w,
                                    ps[i].resolved);
    assert LooksUp(WithHardLinks(plan.tree, ps), WithSymlinks(ps), Names(order[i]), p');
  }
}
