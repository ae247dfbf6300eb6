/** The pruning policy: which cache generations go, and why the checks made
    before anything is deleted leave almost nothing for the checks after. */
module CachePruning {
  import opened Common
  import opened CacheEviction

  // ---- reading keys

  predicate Below(a: Version, b: Version) {
    || a.major < b.major
    || (a.major == b.major && a.minor < b.minor)
    || (a.major == b.major && a.minor == b.minor && a.patch < b.patch)
  }

  /** The first number that differs decides. */
  lemma VersionsCompareByTheFirstDifference(a: Version, b: Version)
    ensures a.major != b.major ==> (Below(a, b) <==> a.major < b.major)
    ensures a.major == b.major && a.minor != b.minor ==> (Below(a, b) <==> a.minor < b.minor)
    ensures a.major == b.major && a.minor == b.minor ==> (Below(a, b) <==> a.patch < b.patch)
  {
  }

  /** The part of a lock-scoped key that is not the lock hash. */
  datatype Shape =
    | CookShape(stem: string, version: Option<Version>, tail: Tail)
    | BuildShape(stem: string)
    | RegistryShape(stem: string)

  datatype Generation = Generation(shape: Shape, lock: Hash)

  function LockGeneration(key: Key): Option<Generation> {
    match key
    case CookBase(stem, Some(lock), version, tail) => Some(Generation(CookShape(stem, version, tail), lock))
    case BuildCache(stem, Some(lock)) => Some(Generation(BuildShape(stem), lock))
    case CargoRegistry(stem, Some(lock)) => Some(Generation(RegistryShape(stem), lock))
    case _ => None
  }

  predicate IsMainCook(c: Cache) {
    c.main && c.key.CookBase?
  }

  predicate HasVersion(c: Cache, v: Version) {
    IsMainCook(c) && c.key.version == Some(v)
  }

  predicate IsStaleCook(c: Cache, current: Version) {
    IsMainCook(c) && c.key.version.Some? && Below(c.key.version.value, current)
  }

  predicate IsRetiredCross(c: Cache, current: Version) {
    HasVersion(c, current) && c.key.tail.DisabledCross?
  }

  predicate IsNativeCook(c: Cache, current: Version) {
    HasVersion(c, current) && c.key.tail.NativeLinux? && c.size > 0
  }

  predicate OfShape(c: Cache, shape: Shape) {
    c.main && LockGeneration(c.key).Some? && LockGeneration(c.key).value.shape == shape
  }

  predicate IsCurrentRow(c: Cache, shape: Shape, lock: Hash) {
    OfShape(c, shape) && LockGeneration(c.key).value.lock == lock
  }

  predicate IsStaleRow(c: Cache, shape: Shape, lock: Hash) {
    OfShape(c, shape) && LockGeneration(c.key).value.lock != lock
  }

  /** A stale generation whose exact shape has a non-empty current one. */
  ghost predicate IsSuperseded(c: Cache, caches: seq<Cache>, lock: Hash) {
    && c.main && LockGeneration(c.key).Some?
    && IsStaleRow(c, LockGeneration(c.key).value.shape, lock)
    && exists d :: d in caches && d.size > 0 && IsCurrentRow(d, LockGeneration(c.key).value.shape, lock)
  }

  predicate IsOrphan(c: Cache, lock: Hash) {
    c.main && LockGeneration(c.key).Some? && LockGeneration(c.key).value.lock != lock
  }

  predicate IsAnchor(c: Cache, arch: Arch, lock: Hash) {
    c.main && c.size > 0 && c.key.DylintOutput? && c.key.arch == arch && c.key.output == lock
  }

  predicate IsOldOutput(c: Cache, lock: Hash, cutoff: int) {
    && c.main && c.key.DylintOutput? && c.key.output != lock
    && c.created.Some? && c.created.value <= cutoff
  }

  // ---- the checks

  datatype PolicyError =
    | Unclassifiable
    | FutureGeneration
    | NoCurrentGeneration
    | WrongGenerations
    | NoNativeCook
    | CrossCookRemains
    | NoReplacement
    | GenerationsRemain
    | OverBudget

  /** What the first check demands. */
  ghost predicate CurrentGenerationPresent(caches: seq<Cache>, current: Version) {
    && (forall c :: c in caches && IsMainCook(c) ==>
          c.key.version.Some? && !Below(current, c.key.version.value))
    && exists c :: c in caches && HasVersion(c, current)
  }

  method RequireCurrentGenerationPresent(caches: seq<Cache>, current: Version) returns (e: Option<PolicyError>)
    ensures e.None? <==> CurrentGenerationPresent(caches, current)
    ensures e == Some(NoCurrentGeneration) ==> forall c :: c in caches ==> !HasVersion(c, current)
    ensures e.Some? ==> e.value.Unclassifiable? || e.value.FutureGeneration? || e.value.NoCurrentGeneration?
  {
    var found := false;
    for i := 0 to |caches|
      invariant forall c :: c in caches[..i] && IsMainCook(c) ==>
                  c.key.version.Some? && !Below(current, c.key.version.value)
      invariant found <==> exists c :: c in caches[..i] && HasVersion(c, current)
    {
      var c := caches[i];
      assert caches[..i + 1] == caches[..i] + [c];
      if IsMainCook(c) {
        assert c in caches;
        if c.key.version.None? {
          return Some(Unclassifiable);
        }
        if Below(current, c.key.version.value) {
          return Some(FutureGeneration);
        }
        if HasVersion(c, current) {
          found := true;
        }
      }
    }
    assert caches[..|caches|] == caches;
    e := if found then None else Some(NoCurrentGeneration);
  }

  ghost predicate SingleGeneration(caches: seq<Cache>, current: Version) {
    && (forall c :: c in caches && IsMainCook(c) ==> c.key.version == Some(current))
    && exists c :: c in caches && IsMainCook(c)
  }

  method RequireSingleCurrentGeneration(caches: seq<Cache>, current: Version) returns (e: Option<PolicyError>)
    ensures e.None? <==> SingleGeneration(caches, current)
    ensures e == Some(Unclassifiable) <==> exists c :: c in caches && IsMainCook(c) && c.key.version.None?
    ensures e.Some? ==> e.value.Unclassifiable? || e.value.WrongGenerations?
  {
    var unknown, other, found := false, false, false;
    for i := 0 to |caches|
      invariant unknown <==> exists c :: c in caches[..i] && IsMainCook(c) && c.key.version.None?
      invariant other <==> exists c :: c in caches[..i] && IsMainCook(c) && c.key.version.Some?
                                       && c.key.version.value != current
      invariant found <==> exists c :: c in caches[..i] && HasVersion(c, current)
    {
      var c := caches[i];
      assert caches[..i + 1] == caches[..i] + [c];
      if IsMainCook(c) {
        if c.key.version.None? {
          unknown := true;
        } else if HasVersion(c, current) {
          found := true;
        } else {
          other := true;
        }
      }
    }
    assert caches[..|caches|] == caches;
    e := if unknown then Some(Unclassifiable) else if other || !found then Some(WrongGenerations) else None;
  }

  ghost predicate RetainsNative(caches: seq<Cache>, current: Version, gone: set<nat>) {
    exists c :: && c in caches && c.id !in gone && c.main && c.size > 0
                && c.key.CookBase? && c.key.version == Some(current) && c.key.tail.NativeLinux?
  }

  predicate IsUnclassifiable(c: Cache, gone: set<nat>) {
    c.id !in gone && IsMainCook(c) && c.key.version.None?
  }

  predicate IsKeptNative(c: Cache, current: Version, gone: set<nat>) {
    c.id !in gone && IsNativeCook(c, current)
  }

  /** Entry `i` is the first that settles the check, one way or the other. */
  ghost predicate Settles(caches: seq<Cache>, current: Version, gone: set<nat>, i: nat) {
    && i < |caches|
    && (IsUnclassifiable(caches[i], gone) || IsKeptNative(caches[i], current, gone))
    && Undecided(caches, current, gone, i)
  }

  /** A native entry that stays comes before any unclassifiable one. */
  ghost predicate NativeComesFirst(caches: seq<Cache>, current: Version, gone: set<nat>) {
    exists i: nat :: Settles(caches, current, gone, i) && IsKeptNative(caches[i], current, gone)
  }

  ghost predicate Undecided(caches: seq<Cache>, current: Version, gone: set<nat>, n: nat) {
    n <= |caches|
    && forall j :: 0 <= j < n ==> !IsUnclassifiable(caches[j], gone) && !IsKeptNative(caches[j], current, gone)
  }

  /** The first unclassifiable or native entry that stays decides; without
      either the check fails for want of a native one. */
  method RequireRetainedNativeCookBase(caches: seq<Cache>, current: Version, gone: set<nat>)
    returns (e: Option<PolicyError>)
    ensures e.None? <==> NativeComesFirst(caches, current, gone)
    ensures e == Some(NoNativeCook) <==> Undecided(caches, current, gone, |caches|)
    ensures e.Some? ==> e.value.Unclassifiable? || e.value.NoNativeCook?
    ensures e.None? ==> RetainsNative(caches, current, gone)
    ensures e == Some(NoNativeCook) ==> !RetainsNative(caches, current, gone)
    ensures e == Some(Unclassifiable) ==> exists c :: c in caches && IsUnclassifiable(c, gone)
  {
    for i := 0 to |caches|
      invariant Undecided(caches, current, gone, i)
    {
      var c := caches[i];
      if c.main && c.id !in gone && c.key.CookBase? {
        if c.key.version.None? {
          assert c in caches;
          return Some(Unclassifiable);
        }
        if IsNativeCook(c, current) {
          assert c in caches;
          return None;
        }
      }
    }
    e := Some(NoNativeCook);
  }

  ghost predicate CrossRetired(caches: seq<Cache>, current: Version) {
    forall c :: c in caches && c.main && c.key.CookBase? && c.key.tail.DisabledCross? ==>
      c.key.version != Some(current)
  }

  /** A group that still mixes generations. */
  ghost predicate Mixed(caches: seq<Cache>, shape: Shape, lock: Hash) {
    && (exists c :: c in caches && IsStaleRow(c, shape, lock))
    && (exists c :: c in caches && IsCurrentRow(c, shape, lock))
  }

  ghost predicate HasReplacement(caches: seq<Cache>, shape: Shape, lock: Hash) {
    exists c :: c in caches && c.size > 0 && IsCurrentRow(c, shape, lock)
  }

  ghost predicate LocksRetired(caches: seq<Cache>, lock: Hash) {
    forall shape :: !Mixed(caches, shape, lock)
  }

  /** The rows of each shape, as the source groups them. */
  ghost predicate Groups(groups: map<Shape, seq<Cache>>, caches: seq<Cache>) {
    && (forall c :: c in caches && c.main && LockGeneration(c.key).Some? ==>
          LockGeneration(c.key).value.shape in groups)
    && (forall shape, c :: shape in groups ==> (c in groups[shape] <==> c in caches && OfShape(c, shape)))
  }

  method GroupByShape(caches: seq<Cache>) returns (groups: map<Shape, seq<Cache>>)
    ensures Groups(groups, caches)
  {
    groups := map[];
    for i := 0 to |caches|
      invariant Groups(groups, caches[..i])
    {
      var c := caches[i];
      assert caches[..i + 1] == caches[..i] + [c];
      if c.main && LockGeneration(c.key).Some? {
        var shape := LockGeneration(c.key).value.shape;
        groups := groups[shape := (if shape in groups then groups[shape] else []) + [c]];
      }
    }
    assert caches[..|caches|] == caches;
  }

  method AnyRow(rows: seq<Cache>, shape: Shape, lock: Hash, current: bool, nonempty: bool) returns (any: bool)
    ensures any <==> exists c :: c in rows && (nonempty ==> c.size > 0)
                                 && if current then IsCurrentRow(c, shape, lock) else IsStaleRow(c, shape, lock)
  {
    any := false;
    for i := 0 to |rows|
      invariant any <==> exists c :: c in rows[..i] && (nonempty ==> c.size > 0)
                                     && if current then IsCurrentRow(c, shape, lock) else IsStaleRow(c, shape, lock)
    {
      assert rows[..i + 1] == rows[..i] + [rows[i]];
      if && (nonempty ==> rows[i].size > 0)
         && (if current then IsCurrentRow(rows[i], shape, lock) else IsStaleRow(rows[i], shape, lock)) {
        any := true;
      }
    }
    assert rows[..|rows|] == rows;
  }

  method RequireLockGenerationsRetired(caches: seq<Cache>, lock: Hash) returns (e: Option<PolicyError>)
    ensures e.None? <==> LocksRetired(caches, lock)
    ensures e.Some? ==> e.value == NoReplacement || e.value == GenerationsRemain
    ensures e == Some(NoReplacement) ==> exists shape :: Mixed(caches, shape, lock) && !HasReplacement(caches, shape, lock)
    ensures e == Some(GenerationsRemain) ==>
              exists shape :: Mixed(caches, shape, lock) && HasReplacement(caches, shape, lock)
  {
    var groups := GroupByShape(caches);
    var shapes := groups.Keys;
    while shapes != {}
      invariant shapes <= groups.Keys
      invariant forall shape :: shape in groups && shape !in shapes ==> !Mixed(caches, shape, lock)
      decreases |shapes|
    {
      var shape :| shape in shapes;
      shapes := shapes - {shape};
      var rows := groups[shape];
      var stale := AnyRow(rows, shape, lock, false, false);
      var present := AnyRow(rows, shape, lock, true, false);
      if stale && present {
        var nonempty := AnyRow(rows, shape, lock, true, true);
        assert Mixed(caches, shape, lock);
        return Some(if nonempty then GenerationsRemain else NoReplacement);
      }
    }
    e := None;
  }

  method RequireDisabledCrossCooksRetired(caches: seq<Cache>, current: Version) returns (e: Option<PolicyError>)
    ensures e == Some(Unclassifiable) <==> exists c :: c in caches && IsMainCook(c) && c.key.version.None?
    ensures e == Some(CrossCookRemains) ==> !CrossRetired(caches, current)
    ensures e.None? ==> CrossRetired(caches, current)
    ensures e.Some? ==> e.value.Unclassifiable? || e.value.CrossCookRemains?
  {
    var remaining, bad := RetiredCrossTargetCookBases(caches, current);
    if bad {
      return Some(Unclassifiable);
    }
    if remaining != [] {
      assert remaining[0] in remaining;
      return Some(CrossCookRemains);
    }
    e := None;
  }

  // ---- the selection passes

  method StaleCookBases(caches: seq<Cache>, current: Version) returns (r: seq<Cache>, bad: bool)
    ensures bad <==> exists c :: c in caches && IsMainCook(c) && c.key.version.None?
    ensures !bad ==> forall c :: c in r <==> c in caches && IsStaleCook(c, current)
  {
    r, bad := [], false;
    for i := 0 to |caches|
      invariant !bad && forall c :: c in caches[..i] && IsMainCook(c) ==> c.key.version.Some?
      invariant forall c :: c in r <==> c in caches[..i] && IsStaleCook(c, current)
    {
      var c := caches[i];
      assert caches[..i + 1] == caches[..i] + [c];
      if IsMainCook(c) {
        if c.key.version.None? {
          assert c in caches;
          return [], true;
        }
        if Below(c.key.version.value, current) {
          r := r + [c];
        }
      }
    }
    assert caches[..|caches|] == caches;
  }

  method RetiredCrossTargetCookBases(caches: seq<Cache>, current: Version) returns (r: seq<Cache>, bad: bool)
    ensures bad <==> exists c :: c in caches && IsMainCook(c) && c.key.version.None?
    ensures !bad ==> forall c :: c in r <==> c in caches && IsRetiredCross(c, current)
  {
    r, bad := [], false;
    for i := 0 to |caches|
      invariant !bad && forall c :: c in caches[..i] && IsMainCook(c) ==> c.key.version.Some?
      invariant forall c :: c in r <==> c in caches[..i] && IsRetiredCross(c, current)
    {
      var c := caches[i];
      assert caches[..i + 1] == caches[..i] + [c];
      if IsMainCook(c) {
        if c.key.version.None? {
          assert c in caches;
          return [], true;
        }
        if IsRetiredCross(c, current) {
          r := r + [c];
        }
      }
    }
    assert caches[..|caches|] == caches;
  }

  method StaleRows(rows: seq<Cache>, shape: Shape, lock: Hash) returns (r: seq<Cache>)
    ensures forall c :: c in r <==> c in rows && IsStaleRow(c, shape, lock)
  {
    r := [];
    for i := 0 to |rows|
      invariant forall c :: c in r <==> c in rows[..i] && IsStaleRow(c, shape, lock)
    {
      assert rows[..i + 1] == rows[..i] + [rows[i]];
      if IsStaleRow(rows[i], shape, lock) {
        r := r + [rows[i]];
      }
    }
    assert rows[..|rows|] == rows;
  }

  method SupersededLockGenerations(caches: seq<Cache>, lock: Hash) returns (r: seq<Cache>)
    ensures forall c :: c in r <==> c in caches && IsSuperseded(c, caches, lock)
  {
    var groups := GroupByShape(caches);
    var shapes := groups.Keys;
    r := [];
    while shapes != {}
      invariant shapes <= groups.Keys
      invariant forall c :: c in r <==> c in caches && IsSuperseded(c, caches, lock)
                                        && LockGeneration(c.key).value.shape !in shapes
      decreases |shapes|
    {
      var shape :| shape in shapes;
      shapes := shapes - {shape};
      var replaced := AnyRow(groups[shape], shape, lock, true, true);
      if replaced {
        var stale := StaleRows(groups[shape], shape, lock);
        r := r + stale;
      }
    }
  }

  /** Entries not excluded, in order. */
  function Kept(caches: seq<Cache>, gone: set<nat>): seq<Cache> {
    if caches == [] then []
    else (if caches[0].id in gone then [] else [caches[0]]) + Kept(caches[1..], gone)
  }

  lemma {:induction false} KeptMembers(caches: seq<Cache>, gone: set<nat>)
    ensures forall c :: c in Kept(caches, gone) <==> c in caches && c.id !in gone
  {
    if caches != [] {
      KeptMembers(caches[1..], gone);
      assert caches == [caches[0]] + caches[1..];
    }
  }

  function Orphans(caches: seq<Cache>, lock: Hash): seq<Cache> {
    if caches == [] then []
    else (if IsOrphan(caches[0], lock) then [caches[0]] else []) + Orphans(caches[1..], lock)
  }

  lemma {:induction false} OrphanMembers(caches: seq<Cache>, lock: Hash)
    ensures forall c :: c in Orphans(caches, lock) <==> c in caches && IsOrphan(c, lock)
  {
    if caches != [] {
      OrphanMembers(caches[1..], lock);
      assert caches == [caches[0]] + caches[1..];
    }
  }

  function AnchoredArches(caches: seq<Cache>, lock: Hash): set<Arch> {
    set c | c in caches && c.main && c.size > 0 && c.key.DylintOutput? && c.key.output == lock :: c.key.arch
  }

  function OldOutputs(caches: seq<Cache>, arches: set<Arch>, lock: Hash, cutoff: int): seq<Cache> {
    if caches == [] then []
    else
      (if IsOldOutput(caches[0], lock, cutoff) && caches[0].key.arch in arches then [caches[0]] else [])
      + OldOutputs(caches[1..], arches, lock, cutoff)
  }

  lemma {:induction false} OldOutputMembers(caches: seq<Cache>, arches: set<Arch>, lock: Hash, cutoff: int)
    ensures forall c :: c in OldOutputs(caches, arches, lock, cutoff)
                   <==> c in caches && IsOldOutput(c, lock, cutoff) && c.key.arch in arches
  {
    if caches != [] {
      OldOutputMembers(caches[1..], arches, lock, cutoff);
      assert caches == [caches[0]] + caches[1..];
    }
  }

  lemma {:induction false} NoArchesNoOutputs(caches: seq<Cache>, lock: Hash, cutoff: int)
    ensures OldOutputs(caches, {}, lock, cutoff) == []
  {
    if caches != [] {
      NoArchesNoOutputs(caches[1..], lock, cutoff);
    }
  }

  method OverBudgetOrphans(caches: seq<Cache>, lock: Hash, excluded: set<nat>, budget: nat)
    returns (retired: seq<Cache>)
    ensures var kept := Kept(caches, excluded);
            IsMinimalLruPrefix(retired, Orphans(kept, lock), Total(kept), budget)
    ensures forall c :: c in retired ==> c in caches && c.id !in excluded && IsOrphan(c, lock)
  {
    var kept := Kept(caches, excluded);
    KeptMembers(caches, excluded);
    OrphanMembers(kept, lock);
    var usage := Total(kept);
    if usage <= budget {
      return [];
    }
    retired := EvictOldest(Orphans(kept, lock), usage, budget);
  }

  method RetiredOldDylintOutputs(caches: seq<Cache>, lock: Hash, excluded: set<nat>, cutoff: int, budget: nat)
    returns (retired: seq<Cache>)
    ensures var kept := Kept(caches, excluded);
            IsMinimalLruPrefix(retired, OldOutputs(kept, AnchoredArches(kept, lock), lock, cutoff), Total(kept), budget)
    ensures forall c :: c in retired ==> && c in caches && c.id !in excluded && IsOldOutput(c, lock, cutoff)
                                         && c.key.arch in AnchoredArches(Kept(caches, excluded), lock)
  {
    var kept := Kept(caches, excluded);
    var arches := AnchoredArches(kept, lock);
    KeptMembers(caches, excluded);
    OldOutputMembers(kept, arches, lock, cutoff);
    var usage := Total(kept);
    if usage <= budget {
      return [];
    }
    var eligible := OldOutputs(kept, arches, lock, cutoff);
    if arches == {} {
      NoArchesNoOutputs(kept, lock, cutoff);
      return [];
    }
    retired := EvictOldest(eligible, usage, budget);
  }

  // ---- the plan

  ghost predicate IsOutdated(c: Cache, caches: seq<Cache>, current: Version, lock: Hash) {
    IsStaleCook(c, current) || IsRetiredCross(c, current) || IsSuperseded(c, caches, lock)
  }

  function Ids(xs: seq<Cache>): set<nat> {
    set c | c in xs :: c.id
  }

  /** `first` are the outdated entries' ids, whatever the budget. */
  ghost predicate IsFirstWave(first: set<nat>, before: seq<Cache>, current: Version, lock: Hash) {
    && (forall c :: c in before ==> (c.id in first <==> IsOutdated(c, before, current, lock)))
    && (forall id :: id in first ==> exists c :: c in before && c.id == id)
  }

  /** The candidates: the first wave, then two evictions, each the shortest
      that fits the budget given what is already going. */
  ghost predicate IsPlan(before: seq<Cache>, current: Version, lock: Hash, cutoff: int, budget: nat,
                         first: set<nat>, orphans: seq<Cache>, outputs: seq<Cache>) {
    var second := first + Ids(orphans);
    var kept1, kept2 := Kept(before, first), Kept(before, second);
    && IsFirstWave(first, before, current, lock)
    && IsMinimalLruPrefix(orphans, Orphans(kept1, lock), Total(kept1), budget)
    && IsMinimalLruPrefix(outputs, OldOutputs(kept2, AnchoredArches(kept2, lock), lock, cutoff), Total(kept2), budget)
  }

  function Gone(first: set<nat>, orphans: seq<Cache>, outputs: seq<Cache>): set<nat> {
    first + Ids(orphans) + Ids(outputs)
  }

  /** The planning part of a pruning run; nothing is deleted unless the
      inventory has the current generation and keeps a native cook base. */
  method PlanPruning(before: seq<Cache>, current: Version, lock: Hash, cutoff: int, budget: nat)
    returns (e: Option<PolicyError>, first: set<nat>, orphans: seq<Cache>, outputs: seq<Cache>)
    requires DistinctIds(before)
    ensures !CurrentGenerationPresent(before, current) ==> e.Some?
    ensures CurrentGenerationPresent(before, current) ==>
              && IsPlan(before, current, lock, cutoff, budget, first, orphans, outputs)
              && e == if RetainsNative(before, current, Gone(first, orphans, outputs)) then None else Some(NoNativeCook)
  {
    first, orphans, outputs := {}, [], [];
    e := RequireCurrentGenerationPresent(before, current);
    if e.Some? {
      return;
    }
    var stale, bad := StaleCookBases(before, current);
    var cross, bad' := RetiredCrossTargetCookBases(before, current);
    var superseded := SupersededLockGenerations(before, lock);
    first := Ids(stale + cross + superseded);
    FirstWaveOf(before, current, lock, stale, cross, superseded);
    orphans := OverBudgetOrphans(before, lock, first, budget);
    outputs := RetiredOldDylintOutputs(before, lock, first + Ids(orphans), cutoff, budget);
    e := RequireRetainedNativeCookBase(before, current, Gone(first, orphans, outputs));
  }

  lemma SameId(before: seq<Cache>, c: Cache, d: Cache)
    requires DistinctIds(before) && c in before && d in before && c.id == d.id
    ensures c == d
  {
    var i :| 0 <= i < |before| && before[i] == c;
    var j :| 0 <= j < |before| && before[j] == d;
  }

  lemma FirstWaveOf(before: seq<Cache>, current: Version, lock: Hash,
                    stale: seq<Cache>, cross: seq<Cache>, superseded: seq<Cache>)
    requires DistinctIds(before)
    requires forall c :: c in stale <==> c in before && IsStaleCook(c, current)
    requires forall c :: c in cross <==> c in before && IsRetiredCross(c, current)
    requires forall c :: c in superseded <==> c in before && IsSuperseded(c, before, lock)
    ensures IsFirstWave(Ids(stale + cross + superseded), before, current, lock)
  {
    var all := stale + cross + superseded;
    forall c | c in before
      ensures c.id in Ids(all) <==> IsOutdated(c, before, current, lock)
    {
      if c.id in Ids(all) {
        var d :| d in all && d.id == c.id;
        SameId(before, c, d);
      }
      if IsOutdated(c, before, current, lock) {
        assert c in all;
      }
    }
  }

  // ---- what a plan guarantees

  /** Evicted entries come from the eligible ones. */
  lemma EvictedMembers(retired: seq<Cache>, eligible: seq<Cache>, usage: int, budget: int)
    requires IsMinimalLruPrefix(retired, eligible, usage, budget)
    ensures forall c :: c in retired ==> c in eligible
  {
    SortKeepsMembers(eligible);
    var sorted := SortByAge(eligible);
    forall c | c in retired
      ensures c in eligible
    {
      var i :| 0 <= i < |retired| && retired[i] == c;
      assert sorted[i] == c;
    }
  }

  /** Why an entry of the inventory is a candidate. */
  lemma CandidateReasons(before: seq<Cache>, current: Version, lock: Hash, cutoff: int, budget: nat,
                         first: set<nat>, orphans: seq<Cache>, outputs: seq<Cache>, c: Cache)
    requires DistinctIds(before) && IsPlan(before, current, lock, cutoff, budget, first, orphans, outputs)
    requires c in before && c.id in Gone(first, orphans, outputs)
    ensures IsOutdated(c, before, current, lock) || IsOrphan(c, lock) || IsOldOutput(c, lock, cutoff)
  {
    var second := first + Ids(orphans);
    var kept1, kept2 := Kept(before, first), Kept(before, second);
    KeptMembers(before, first);
    KeptMembers(before, second);
    if c.id in Ids(orphans) {
      EvictedMembers(orphans, Orphans(kept1, lock), Total(kept1), budget);
      OrphanMembers(kept1, lock);
      var d :| d in orphans && d.id == c.id;
      SameId(before, c, d);
    } else if c.id in Ids(outputs) {
      var arches := AnchoredArches(kept2, lock);
      EvictedMembers(outputs, OldOutputs(kept2, arches, lock, cutoff), Total(kept2), budget);
      OldOutputMembers(kept2, arches, lock, cutoff);
      var d :| d in outputs && d.id == c.id;
      SameId(before, c, d);
    }
  }

  /** Only main-branch entries are candidates; one that carries the current
      lock hash is always a cook base of an older release or of a cross target
      that opted out, and a current Dylint output never is one. */
  lemma CandidatesAreExpendable(before: seq<Cache>, current: Version, lock: Hash, cutoff: int, budget: nat,
                                first: set<nat>, orphans: seq<Cache>, outputs: seq<Cache>, c: Cache)
    requires DistinctIds(before) && IsPlan(before, current, lock, cutoff, budget, first, orphans, outputs)
    requires c in before && c.id in Gone(first, orphans, outputs)
    ensures c.main
    ensures LockGeneration(c.key).Some? && LockGeneration(c.key).value.lock == lock ==>
              IsStaleCook(c, current) || IsRetiredCross(c, current)
    ensures c.key.DylintOutput? ==> c.key.output != lock
    ensures !c.key.OtherKey?
  {
    hide IsPlan, Gone, DistinctIds, HasReplacement;
    CandidateReasons(before, current, lock, cutoff, budget, first, orphans, outputs, c);
  }

  // ---- which shapes stay mixed

  /** A stale row that only the orphan eviction could have taken. */
  predicate IsLasting(c: Cache, current: Version, lock: Hash, orphans: seq<Cache>, shape: Shape) {
    IsStaleRow(c, shape, lock) && c !in orphans && !IsStaleCook(c, current) && !IsRetiredCross(c, current)
  }

  /** The inventory has a current row of the shape, but only empty ones, and a
      stale row that is neither evicted nor outdated for another reason. */
  ghost predicate Shielded(before: seq<Cache>, current: Version, lock: Hash, orphans: seq<Cache>, shape: Shape) {
    && (exists c :: c in before && IsLasting(c, current, lock, orphans, shape))
    && (exists c :: c in before && IsCurrentRow(c, shape, lock))
    && !HasReplacement(before, shape, lock)
  }

  /** What an entry's own shape decides, whatever its lock. */
  lemma SameShapeSameFate(c: Cache, d: Cache, current: Version, shape: Shape)
    requires OfShape(c, shape) && OfShape(d, shape)
    ensures IsStaleCook(c, current) <==> IsStaleCook(d, current)
    ensures IsRetiredCross(c, current) <==> IsRetiredCross(d, current)
  {
  }

  lemma NotOrphanNorOutput(c: Cache, current: Version, lock: Hash, cutoff: int, shape: Shape)
    requires IsCurrentRow(c, shape, lock)
    ensures !IsOrphan(c, lock) && !IsOldOutput(c, lock, cutoff)
  {
  }

  /** Which rows of a shape without a replacement stay. */
  lemma StaleRowStays(before: seq<Cache>, current: Version, lock: Hash, cutoff: int, budget: nat,
                      first: set<nat>, orphans: seq<Cache>, outputs: seq<Cache>, shape: Shape, c: Cache)
    requires DistinctIds(before) && IsPlan(before, current, lock, cutoff, budget, first, orphans, outputs)
    requires c in before && IsStaleRow(c, shape, lock) && !HasReplacement(before, shape, lock)
    ensures c.id !in Gone(first, orphans, outputs) <==> IsLasting(c, current, lock, orphans, shape)
  {
    hide IsPlan, DistinctIds, Ids, Kept;
    assert !IsSuperseded(c, before, lock);
    EvictedByIdentity(before, current, lock, cutoff, budget, first, orphans, outputs, c);
  }

  lemma CurrentRowStays(before: seq<Cache>, current: Version, lock: Hash, cutoff: int, budget: nat,
                        first: set<nat>, orphans: seq<Cache>, outputs: seq<Cache>, shape: Shape, c: Cache)
    requires DistinctIds(before) && IsPlan(before, current, lock, cutoff, budget, first, orphans, outputs)
    requires c in before && IsCurrentRow(c, shape, lock)
    ensures c.id !in Gone(first, orphans, outputs) <==> !IsStaleCook(c, current) && !IsRetiredCross(c, current)
  {
    hide IsPlan, DistinctIds, Ids, Kept;
    NotOrphanNorOutput(c, current, lock, cutoff, shape);
    EvictedByIdentity(before, current, lock, cutoff, budget, first, orphans, outputs, c);
  }

  /** An evicted id is the evicted entry's own. */
  lemma EvictedByIdentity(before: seq<Cache>, current: Version, lock: Hash, cutoff: int, budget: nat,
                          first: set<nat>, orphans: seq<Cache>, outputs: seq<Cache>, c: Cache)
    requires DistinctIds(before) && IsPlan(before, current, lock, cutoff, budget, first, orphans, outputs)
    requires c in before
    ensures c.id in first <==> IsOutdated(c, before, current, lock)
    ensures c.id in Ids(orphans) <==> c in orphans
    ensures c in orphans ==> IsOrphan(c, lock)
    ensures c.id in Ids(outputs) ==> IsOldOutput(c, lock, cutoff)
  {
    var second := first + Ids(orphans);
    var kept1, kept2 := Kept(before, first), Kept(before, second);
    if c.id in Ids(orphans) {
      var d :| d in orphans && d.id == c.id;
      KeptMembers(before, first);
      OrphanMembers(kept1, lock);
      EvictedMembers(orphans, Orphans(kept1, lock), Total(kept1), budget);
      SameId(before, c, d);
    }
    if c.id in Ids(outputs) {
      var d :| d in outputs && d.id == c.id;
      var arches := AnchoredArches(kept2, lock);
      KeptMembers(before, second);
      OldOutputMembers(kept2, arches, lock, cutoff);
      EvictedMembers(outputs, OldOutputs(kept2, arches, lock, cutoff), Total(kept2), budget);
      SameId(before, c, d);
    }
  }

  /** A shape stays mixed if and only if the inventory shields it. */
  lemma MixedExactlyWhenShielded(before: seq<Cache>, current: Version, lock: Hash, cutoff: int, budget: nat,
                                 first: set<nat>, orphans: seq<Cache>, outputs: seq<Cache>, shape: Shape)
    requires DistinctIds(before) && IsPlan(before, current, lock, cutoff, budget, first, orphans, outputs)
    ensures Mixed(Kept(before, Gone(first, orphans, outputs)), shape, lock)
            <==> Shielded(before, current, lock, orphans, shape)
  {
    var gone := Gone(first, orphans, outputs);
    var remaining := Kept(before, gone);
    KeptMembers(before, gone);
    if Mixed(remaining, shape, lock) {
      var stale :| stale in remaining && IsStaleRow(stale, shape, lock);
      if HasReplacement(before, shape, lock) {
        assert false;
      }
      StaleRowStays(before, current, lock, cutoff, budget, first, orphans, outputs, shape, stale);
    }
    if Shielded(before, current, lock, orphans, shape) {
      var stale :| stale in before && IsLasting(stale, current, lock, orphans, shape);
      var row :| row in before && IsCurrentRow(row, shape, lock);
      StaleRowStays(before, current, lock, cutoff, budget, first, orphans, outputs, shape, stale);
      SameShapeSameFate(stale, row, current, shape);
      CurrentRowStays(before, current, lock, cutoff, budget, first, orphans, outputs, shape, row);
      assert stale in remaining && row in remaining;
    }
  }

  /** The lock check on what remains passes if and only if no shape of the
      inventory is shielded. */
  lemma LockCheckFailsExactlyForShieldedShapes(before: seq<Cache>, current: Version, lock: Hash, cutoff: int,
                                               budget: nat, first: set<nat>, orphans: seq<Cache>, outputs: seq<Cache>)
    requires DistinctIds(before) && IsPlan(before, current, lock, cutoff, budget, first, orphans, outputs)
    ensures LocksRetired(Kept(before, Gone(first, orphans, outputs)), lock)
            <==> NoneShielded(before, current, lock, orphans)
  {
    forall shape
      ensures Mixed(Kept(before, Gone(first, orphans, outputs)), shape, lock)
              <==> Shielded(before, current, lock, orphans, shape)
    {
      MixedExactlyWhenShielded(before, current, lock, cutoff, budget, first, orphans, outputs, shape);
    }
  }

  ghost predicate NoneShielded(before: seq<Cache>, current: Version, lock: Hash, orphans: seq<Cache>) {
    forall shape :: !Shielded(before, current, lock, orphans, shape)
  }

  /** What a candidate's own fields say: it is a cook base of an older version or
      of the current one with its cross target opted out, a row locked to another
      hash, or an output for another hash made at or before the cutoff. */
  lemma CandidatesByTheirFields(before: seq<Cache>, current: Version, lock: Hash, cutoff: int, budget: nat,
                                first: set<nat>, orphans: seq<Cache>, outputs: seq<Cache>, c: Cache)
    requires DistinctIds(before) && IsPlan(before, current, lock, cutoff, budget, first, orphans, outputs)
    requires c in before && c.id in Gone(first, orphans, outputs)
    ensures c.main
    ensures match c.key
            case CookBase(_, hash, version, tail) =>
              || (version.Some? && Below(version.value, current))
              || (version == Some(current) && tail == DisabledCross)
              || (hash.Some? && hash.value != lock)
            case BuildCache(_, hash) => hash.Some? && hash.value != lock
            case CargoRegistry(_, hash) => hash.Some? && hash.value != lock
            case DylintOutput(_, _, output) => output != lock && c.created.Some? && c.created.value <= cutoff
            case OtherKey(_) => false
  {
    CandidateReasons(before, current, lock, cutoff, budget, first, orphans, outputs, c);
  }

  /** Two lock-scoped keys that differ at most in their lock. */
  ghost predicate SameButLock(a: Key, b: Key) {
    match a
    case CookBase(stem, _, version, tail) =>
      b.CookBase? && b.stem == stem && b.version == version && b.tail == tail
    case BuildCache(stem, _) => b.BuildCache? && b.stem == stem
    case CargoRegistry(stem, _) => b.CargoRegistry? && b.stem == stem
    case _ => false
  }

  ghost predicate IsLockedElsewhere(key: Key, lock: Hash) {
    (key.CookBase? || key.BuildCache? || key.CargoRegistry?) && key.lock.Some? && key.lock.value != lock
  }

  ghost predicate IsLockedTo(key: Key, lock: Hash) {
    (key.CookBase? || key.BuildCache? || key.CargoRegistry?) && key.lock == Some(lock)
  }

  /** The converse: of the main-branch entries that stay, none is a cook base of
      an older version or an opted-out cross target or replaced by a non-empty
      twin, and rows locked to another hash or expired outputs stay only where
      their eviction came down to the budget. */
  lemma NothingMoreShouldGo(before: seq<Cache>, current: Version, lock: Hash, cutoff: int, budget: nat,
                            first: set<nat>, orphans: seq<Cache>, outputs: seq<Cache>, c: Cache)
    requires DistinctIds(before) && IsPlan(before, current, lock, cutoff, budget, first, orphans, outputs)
    requires c in before && c.id !in Gone(first, orphans, outputs) && c.main
    ensures c.key.CookBase? && c.key.version.Some? ==> !Below(c.key.version.value, current)
    ensures c.key.CookBase? && c.key.version == Some(current) ==> !c.key.tail.DisabledCross?
    ensures IsLockedElsewhere(c.key, lock) ==>
              && (forall d :: d in before && d.main && d.size > 0 && SameButLock(c.key, d.key) ==>
                    !IsLockedTo(d.key, lock))
              && Total(Kept(before, first)) - Total(orphans) <= budget
    ensures forall d :: d in before && d.id !in Gone(first, orphans, outputs) && d.main && d.size > 0
                        && c.key.DylintOutput? && d.key.DylintOutput? && d.key.arch == c.key.arch
                        && d.key.output == lock && c.key.output != lock
                        && c.created.Some? && c.created.value <= cutoff ==>
              Total(Kept(before, first + Ids(orphans))) - Total(outputs) <= budget
  {
    hide DistinctIds, Total, SortByAge;
    assert !IsOutdated(c, before, current, lock);
    if IsLockedElsewhere(c.key, lock) {
      LockedRowsAreOrphans(before, lock, c);
      StayingMeansInBudget(before, first, orphans, Orphans(Kept(before, first), lock), budget, c);
    }
    forall d | && d in before && d.id !in Gone(first, orphans, outputs) && d.main && d.size > 0
               && c.key.DylintOutput? && d.key.DylintOutput? && d.key.arch == c.key.arch
               && d.key.output == lock && c.key.output != lock
               && c.created.Some? && c.created.value <= cutoff
      ensures Total(Kept(before, first + Ids(orphans))) - Total(outputs) <= budget
    {
      ExpiredOutputsAreEligible(before, first + Ids(orphans), lock, cutoff, c, d);
      var kept := Kept(before, first + Ids(orphans));
      StayingMeansInBudget(before, first + Ids(orphans), outputs,
                           OldOutputs(kept, AnchoredArches(kept, lock), lock, cutoff), budget, c);
    }
  }

  lemma LockedRowsAreOrphans(before: seq<Cache>, lock: Hash, c: Cache)
    requires c.main && IsLockedElsewhere(c.key, lock)
    ensures forall gone: set<nat> :: c in before && c.id !in gone ==> c in Orphans(Kept(before, gone), lock)
    ensures forall d: Cache ::
              (d in before && d.main && d.size > 0 && SameButLock(c.key, d.key) && IsLockedTo(d.key, lock)
               ==> IsSuperseded(c, before, lock))
  {
    forall gone: set<nat> | c in before && c.id !in gone ensures c in Orphans(Kept(before, gone), lock) {
      KeptMembers(before, gone);
      OrphanMembers(Kept(before, gone), lock);
    }
  }

  lemma ExpiredOutputsAreEligible(before: seq<Cache>, gone: set<nat>, lock: Hash, cutoff: int, c: Cache, d: Cache)
    requires c in before && c.id !in gone && c.main && c.key.DylintOutput? && c.key.output != lock
    requires c.created.Some? && c.created.value <= cutoff
    requires d in before && d.id !in gone && d.main && d.size > 0 && d.key.DylintOutput?
    requires d.key.arch == c.key.arch && d.key.output == lock
    ensures var kept := Kept(before, gone); c in OldOutputs(kept, AnchoredArches(kept, lock), lock, cutoff)
  {
    var kept := Kept(before, gone);
    KeptMembers(before, gone);
    OldOutputMembers(kept, AnchoredArches(kept, lock), lock, cutoff);
  }

  lemma StayingMeansInBudget(before: seq<Cache>, gone: set<nat>, retired: seq<Cache>, eligible: seq<Cache>,
                             budget: nat, c: Cache)
    requires IsMinimalLruPrefix(retired, eligible, Total(Kept(before, gone)), budget)
    requires c in eligible && c.id !in Ids(retired)
    ensures Total(Kept(before, gone)) - Total(retired) <= budget
  {
    hide Total, Kept, SortByAge;
    SortKeepsMembers(eligible);
    assert |retired| == |eligible| ==> retired == SortByAge(eligible);
  }

  /** With both checks made beforehand passed, three of the four checks on
      what remains cannot fail, and the fourth passes if and only if no shape
      of the inventory is shielded. */
  lemma ChecksBeforeImplyChecksAfter(before: seq<Cache>, current: Version, lock: Hash, cutoff: int, budget: nat,
                                     first: set<nat>, orphans: seq<Cache>, outputs: seq<Cache>)
    requires DistinctIds(before) && IsPlan(before, current, lock, cutoff, budget, first, orphans, outputs)
    requires CurrentGenerationPresent(before, current)
    requires RetainsNative(before, current, Gone(first, orphans, outputs))
    ensures var remaining := Kept(before, Gone(first, orphans, outputs));
            && SingleGeneration(remaining, current)
            && RetainsNative(remaining, current, {})
            && CrossRetired(remaining, current)
            && (LocksRetired(remaining, lock) <==> NoneShielded(before, current, lock, orphans))
            && (forall shape :: Mixed(remaining, shape, lock) ==> !HasReplacement(before, shape, lock))
  {
    var gone := Gone(first, orphans, outputs);
    var remaining := Kept(before, gone);
    KeptMembers(before, gone);
    var native :| native in before && native.id !in gone && IsNativeCook(native, current);
    assert native in remaining;
    forall c | c in remaining && IsMainCook(c)
      ensures c.key.version == Some(current)
    {
      assert c.id !in first && !IsStaleCook(c, current);
      Trichotomy(c.key.version.value, current);
    }
    forall c | c in remaining
      ensures !IsRetiredCross(c, current)
    {
      assert c.id !in first;
    }
    LockCheckFailsExactlyForShieldedShapes(before, current, lock, cutoff, budget, first, orphans, outputs);
    forall shape | Mixed(remaining, shape, lock) ensures !HasReplacement(before, shape, lock) {
      MixedExactlyWhenShielded(before, current, lock, cutoff, budget, first, orphans, outputs, shape);
    }
  }

  lemma Trichotomy(a: Version, b: Version)
    ensures Below(a, b) || a == b || Below(b, a)
  {
  }

  /** Each architecture that loses a Dylint output keeps a non-empty one for
      the current lock. */
  lemma AnchorsRemain(before: seq<Cache>, current: Version, lock: Hash, cutoff: int, budget: nat,
                      first: set<nat>, orphans: seq<Cache>, outputs: seq<Cache>, c: Cache)
    requires DistinctIds(before) && IsPlan(before, current, lock, cutoff, budget, first, orphans, outputs)
    requires c in outputs
    ensures c.key.DylintOutput?
    ensures exists anchor :: anchor in Kept(before, Gone(first, orphans, outputs)) && IsAnchor(anchor, c.key.arch, lock)
  {
    var second := first + Ids(orphans);
    var kept2 := Kept(before, second);
    var anchor := RetiredOutputHasAnchor(kept2, lock, cutoff, Total(kept2), budget, outputs, c);
    KeptMembers(before, second);
    KeptMembers(before, Gone(first, orphans, outputs));
    if anchor.id in Gone(first, orphans, outputs) {
      CandidatesAreExpendable(before, current, lock, cutoff, budget, first, orphans, outputs, anchor);
    }
  }

  lemma RetiredOutputHasAnchor(kept: seq<Cache>, lock: Hash, cutoff: int, usage: int, budget: int,
                               outputs: seq<Cache>, c: Cache)
    returns (anchor: Cache)
    requires IsMinimalLruPrefix(outputs, OldOutputs(kept, AnchoredArches(kept, lock), lock, cutoff), usage, budget)
    requires c in outputs
    ensures c.key.DylintOutput? && anchor in kept && IsAnchor(anchor, c.key.arch, lock)
  {
    var arches := AnchoredArches(kept, lock);
    OldOutputMembers(kept, arches, lock, cutoff);
    EvictedMembers(outputs, OldOutputs(kept, arches, lock, cutoff), usage, budget);
    anchor :| anchor in kept && IsAnchor(anchor, c.key.arch, lock);
  }

  /** Usage is conserved: what is listed is what goes plus what stays. */
  function Retired(caches: seq<Cache>, gone: set<nat>): seq<Cache> {
    if caches == [] then []
    else (if caches[0].id in gone then [caches[0]] else []) + Retired(caches[1..], gone)
  }

  lemma {:induction false} UsageIsConserved(caches: seq<Cache>, gone: set<nat>)
    ensures Total(caches) == Total(Kept(caches, gone)) + Total(Retired(caches, gone))
  {
    if caches != [] {
      UsageIsConserved(caches[1..], gone);
      TotalConcat(if caches[0].id in gone then [] else [caches[0]], Kept(caches[1..], gone));
      TotalConcat(if caches[0].id in gone then [caches[0]] else [], Retired(caches[1..], gone));
    }
  }

  ghost predicate RemainingPasses(remaining: seq<Cache>, current: Version, lock: Hash) {
    && SingleGeneration(remaining, current) && RetainsNative(remaining, current, {})
    && CrossRetired(remaining, current) && LocksRetired(remaining, lock)
  }

  /** What the four checks may report: nothing exactly when all pass, and with
      the first three passed only one of the two lock errors, each with a shape
      that shows it. */
  ghost predicate IsReport(e: Option<PolicyError>, remaining: seq<Cache>, current: Version, lock: Hash) {
    && (e.None? <==> RemainingPasses(remaining, current, lock))
    && (e.Some? ==>
          || !SingleGeneration(remaining, current) || !RetainsNative(remaining, current, {})
          || !CrossRetired(remaining, current)
          || e.value == NoReplacement || e.value == GenerationsRemain)
    && (e == Some(GenerationsRemain) ==>
          exists shape :: Mixed(remaining, shape, lock) && HasReplacement(remaining, shape, lock))
  }

  /** The four checks on what remains, in the source's order. */
  method CheckRemaining(remaining: seq<Cache>, current: Version, lock: Hash) returns (e: Option<PolicyError>)
    ensures IsReport(e, remaining, current, lock)
  {
    e := RequireSingleCurrentGeneration(remaining, current);
    if e.Some? {
      return;
    }
    e := RequireRetainedNativeCookBase(remaining, current, {});
    if e.Some? {
      return;
    }
    e := RequireDisabledCrossCooksRetired(remaining, current);
    if e.Some? {
      return;
    }
    e := RequireLockGenerationsRetired(remaining, lock);
  }

  lemma RemainingHasNoReplacement(before: seq<Cache>, gone: set<nat>, lock: Hash)
    requires forall shape :: Mixed(Kept(before, gone), shape, lock) ==> !HasReplacement(before, shape, lock)
    ensures forall shape :: Mixed(Kept(before, gone), shape, lock) ==> !HasReplacement(Kept(before, gone), shape, lock)
  {
    KeptMembers(before, gone);
  }

  /** A dry run: plan, then check what would remain and its projected usage.
      Once the inventory has its current generation, it fails only for want of
      a native cook base, for a shape whose current rows are all empty, or for
      being over budget. */
  method DryRun(before: seq<Cache>, current: Version, lock: Hash, cutoff: int, budget: nat, endpoint: int)
    returns (e: Option<PolicyError>, first: set<nat>, orphans: seq<Cache>, outputs: seq<Cache>, usage: int)
    requires DistinctIds(before)
    ensures !CurrentGenerationPresent(before, current) ==> e.Some?
    ensures CurrentGenerationPresent(before, current) ==>
              var gone := Gone(first, orphans, outputs);
              && IsPlan(before, current, lock, cutoff, budget, first, orphans, outputs)
              && e == if !RetainsNative(before, current, gone) then Some(NoNativeCook)
                      else if !NoneShielded(before, current, lock, orphans) then Some(NoReplacement)
                      else if usage > budget then Some(OverBudget) else None
    ensures CurrentGenerationPresent(before, current) && (e.None? || e == Some(OverBudget)) ==>
              var gone := Gone(first, orphans, outputs);
              && RemainingPasses(Kept(before, gone), current, lock)
              && usage == ProjectedUsage(before, gone, endpoint) >= Total(Kept(before, gone))
              && usage == (if endpoint >= Total(before) then endpoint else Total(before)) - Total(Retired(before, gone))
  {
    usage := 0;
    e, first, orphans, outputs := PlanPruning(before, current, lock, cutoff, budget);
    if e.Some? {
      return;
    }
    var gone := Gone(first, orphans, outputs);
    e := CheckRemaining(Kept(before, gone), current, lock);
    OnlyLocksCanFail(before, current, lock, cutoff, budget, first, orphans, outputs, e);
    if e.Some? {
      return;
    }
    usage := ProjectedUsage(before, gone, endpoint);
    UsageIsConserved(before, gone);
    e := if usage > budget then Some(OverBudget) else None;
  }

  /** What the checks on the remaining entries can still report. */
  lemma OnlyLocksCanFail(before: seq<Cache>, current: Version, lock: Hash, cutoff: int, budget: nat,
                         first: set<nat>, orphans: seq<Cache>, outputs: seq<Cache>, e: Option<PolicyError>)
    requires DistinctIds(before) && IsPlan(before, current, lock, cutoff, budget, first, orphans, outputs)
    requires CurrentGenerationPresent(before, current)
    requires RetainsNative(before, current, Gone(first, orphans, outputs))
    requires IsReport(e, Kept(before, Gone(first, orphans, outputs)), current, lock)
    ensures e == if NoneShielded(before, current, lock, orphans) then None else Some(NoReplacement)
  {
    ChecksBeforeImplyChecksAfter(before, current, lock, cutoff, budget, first, orphans, outputs);
    RemainingHasNoReplacement(before, Gone(first, orphans, outputs), lock);
  }

  function ProjectedUsage(before: seq<Cache>, gone: set<nat>, endpoint: int): int {
    var reclaimed := Total(Retired(before, gone));
    Larger(endpoint - reclaimed, Total(before) - reclaimed)
  }

  function Larger(a: int, b: int): int { if a >= b then a else b }

  /** Both checks beforehand pass with nothing to prune, yet the lock check on
      what remains fails. */
  ghost predicate LockCheckFailsAnyway(before: seq<Cache>, current: Version, lock: Hash) {
    && DistinctIds(before)
    && IsPlan(before, current, lock, 0, Total(before), {}, [], [])
    && CurrentGenerationPresent(before, current) && RetainsNative(before, current, {})
    && !LocksRetired(Kept(before, {}), lock)
  }

  /** An empty current row shields a stale one, whatever the lock. */
  lemma AnEmptyCurrentRowBlocksTheLockCheck(v: Version, lock: Hash, stale: Hash)
    requires stale != lock
    ensures exists before :: LockCheckFailsAnyway(before, v, lock)
  {
    var cook := Cache(1, CookBase("cook", Some(lock), Some(v), NativeLinux), true, 1, 0, None);
    var row := Cache(2, BuildCache("build", Some(stale)), true, 1, 0, None);
    var empty := Cache(3, BuildCache("build", Some(lock)), true, 0, 0, None);
    var before := ThreeRows(cook, row, empty);
    ShieldedRow(before, cook, row, empty, v, lock, BuildShape("build"));
  }

  lemma ThreeRows(cook: Cache, stale: Cache, empty: Cache) returns (before: seq<Cache>)
    requires cook.id != stale.id && stale.id != empty.id && cook.id != empty.id
    ensures DistinctIds(before) && Exactly(before, cook, stale, empty)
  {
    before := [cook, stale, empty];
  }

  ghost predicate Exactly(before: seq<Cache>, cook: Cache, stale: Cache, empty: Cache) {
    && cook in before && stale in before && empty in before
    && forall c :: c in before ==> c == cook || c == stale || c == empty
  }

  lemma ShieldedRow(before: seq<Cache>, cook: Cache, stale: Cache, empty: Cache, v: Version, lock: Hash, shape: Shape)
    requires DistinctIds(before) && Exactly(before, cook, stale, empty)
    requires IsNativeCook(cook, v) && !OfShape(cook, shape) && !IsOrphan(cook, lock)
    requires IsStaleRow(stale, shape, lock) && !stale.key.CookBase?
    requires IsCurrentRow(empty, shape, lock) && empty.size == 0 && !empty.key.CookBase?
    ensures LockCheckFailsAnyway(before, v, lock)
  {
    NothingToEvict(before, v, lock);
    ChecksAround(before, cook, stale, empty, v, lock, shape);
  }

  lemma ChecksAround(before: seq<Cache>, cook: Cache, stale: Cache, empty: Cache, v: Version, lock: Hash, shape: Shape)
    requires Exactly(before, cook, stale, empty)
    requires IsNativeCook(cook, v)
    requires IsStaleRow(stale, shape, lock) && !stale.key.CookBase?
    requires IsCurrentRow(empty, shape, lock) && !empty.key.CookBase?
    ensures CurrentGenerationPresent(before, v) && RetainsNative(before, v, {})
    ensures !LocksRetired(Kept(before, {}), lock)
  {
    NothingGone(before);
    assert HasVersion(cook, v);
    assert Mixed(before, shape, lock);
  }

  /** With nothing outdated and a budget the inventory fits, nothing goes. */
  lemma NothingToEvict(before: seq<Cache>, v: Version, lock: Hash)
    requires IsFirstWave({}, before, v, lock)
    ensures IsPlan(before, v, lock, 0, Total(before), {}, [], [])
  {
    NothingGone(before);
    assert {} + Ids([]) == {};
  }

  lemma {:induction false} NothingGone(caches: seq<Cache>)
    ensures Kept(caches, {}) == caches
  {
    if caches != [] {
      NothingGone(caches[1..]);
    }
  }

}
