/** Cache inventory entries and the least-recently-used eviction both
    over-budget passes share. */
module CacheEviction {
  import opened Common

  type Hash = string

  datatype Version = Version(major: nat, minor: nat, patch: nat)

  /** How a cook-base key ends: the native producer, a cross target whose
      producer opted out, or anything else. */
  datatype Tail = NativeLinux | DisabledCross | OtherTail(name: string)

  datatype Arch = X64 | Arm64

  /** Cache keys, parsed.  `lock` is absent where the key has no recognisable
      lock hash, `version` where it names no Soldr release. */
  datatype Key =
    | CookBase(stem: string, lock: Option<Hash>, version: Option<Version>, tail: Tail)
    | BuildCache(stem: string, lock: Option<Hash>)
    | CargoRegistry(stem: string, lock: Option<Hash>)
    | DylintOutput(arch: Arch, identity: Hash, output: Hash)
    | OtherKey(name: string)

  /** `created` is absent for unreadable or zone-less times. */
  datatype Cache = Cache(id: nat, key: Key, main: bool, size: nat, accessed: int, created: Option<int>)

  function Total(xs: seq<Cache>): nat {
    if xs == [] then 0 else xs[0].size + Total(xs[1..])
  }

  lemma {:induction false} TotalConcat(xs: seq<Cache>, ys: seq<Cache>)
    ensures Total(xs + ys) == Total(xs) + Total(ys)
  {
    if xs == [] {
      assert xs + ys == ys;
    } else {
      assert (xs + ys)[1..] == xs[1..] + ys;
      TotalConcat(xs[1..], ys);
    }
  }

  ghost predicate DistinctIds(xs: seq<Cache>) {
    forall i, j :: 0 <= i < j < |xs| ==> xs[i].id != xs[j].id
  }

  // ---- oldest first

  predicate Older(a: Cache, b: Cache) {
    a.accessed < b.accessed || (a.accessed == b.accessed && a.id <= b.id)
  }

  /** By last access, and by id among entries accessed at the same time. */
  ghost predicate OldestFirst(xs: seq<Cache>) {
    forall i, j :: 0 <= i < j < |xs| ==>
      xs[i].accessed < xs[j].accessed || (xs[i].accessed == xs[j].accessed && xs[i].id <= xs[j].id)
  }

  ghost predicate InOrder(xs: seq<Cache>) {
    forall i, j :: 0 <= i < j < |xs| ==> Older(xs[i], xs[j])
  }

  function Insert(x: Cache, xs: seq<Cache>): (r: seq<Cache>)
    ensures |r| == |xs| + 1 && multiset(r) == multiset(xs) + multiset{x}
  {
    if xs == [] then [x]
    else if Older(x, xs[0]) then
      assert multiset([x] + xs) == multiset([x]) + multiset(xs);
      [x] + xs
    else
      assert xs == [xs[0]] + xs[1..];
      var rest := Insert(x, xs[1..]);
      assert multiset([xs[0]] + rest) == multiset([xs[0]]) + multiset(rest);
      assert multiset([xs[0]] + xs[1..]) == multiset([xs[0]]) + multiset(xs[1..]);
      [xs[0]] + rest
  }

  function SortByAge(xs: seq<Cache>): (r: seq<Cache>)
    ensures |r| == |xs| && multiset(r) == multiset(xs)
  {
    if xs == [] then []
    else
      assert xs == [xs[0]] + xs[1..];
      assert multiset([xs[0]] + xs[1..]) == multiset([xs[0]]) + multiset(xs[1..]);
      Insert(xs[0], SortByAge(xs[1..]))
  }

  lemma {:induction false} InsertSorted(x: Cache, xs: seq<Cache>)
    requires InOrder(xs)
    ensures InOrder(Insert(x, xs))
  {
    if xs != [] && !Older(x, xs[0]) {
      var rest := Insert(x, xs[1..]);
      InsertSorted(x, xs[1..]);
      forall y | y in rest
        ensures Older(xs[0], y)
      {
        assert y in multiset(rest);
        if y != x {
          assert y in multiset(xs[1..]);
          var i :| 0 <= i < |xs[1..]| && xs[1..][i] == y;
          assert xs[i + 1] == y;
        }
      }
    }
  }

  lemma {:induction false} SortIsInOrder(xs: seq<Cache>)
    ensures InOrder(SortByAge(xs))
  {
    if xs != [] {
      SortIsInOrder(xs[1..]);
      InsertSorted(xs[0], SortByAge(xs[1..]));
    }
  }

  lemma SortIsSorted(xs: seq<Cache>)
    ensures OldestFirst(SortByAge(xs))
  {
    hide SortByAge;
    SortIsInOrder(xs);
  }

  lemma SortKeepsMembers(xs: seq<Cache>)
    ensures forall c :: c in SortByAge(xs) <==> c in xs
  {
    forall c
      ensures c in SortByAge(xs) <==> c in xs
    {
      assert c in SortByAge(xs) <==> c in multiset(SortByAge(xs));
      assert c in xs <==> c in multiset(xs);
    }
  }

  // ---- greedy eviction

  /** `retired` is what had to go, oldest first, and not one entry more: every
      shorter prefix leaves usage over budget, and usage ends within budget
      unless all eligible entries are gone. */
  ghost predicate IsMinimalLruPrefix(retired: seq<Cache>, eligible: seq<Cache>, usage: int, budget: int) {
    && retired <= SortByAge(eligible)
    && (forall k :: 0 <= k < |retired| ==> usage - Total(retired[..k]) > budget)
    && (usage - Total(retired) <= budget || |retired| == |eligible|)
  }

  /** Every prefix shorter than `n` leaves usage over budget. */
  ghost predicate OverBudgetBefore(sorted: seq<Cache>, n: nat, usage: int, budget: int) {
    n <= |sorted| && forall k :: 0 <= k < n ==> usage - Total(sorted[..k]) > budget
  }

  lemma OneMoreGoes(sorted: seq<Cache>, n: nat, usage: int, budget: int)
    requires OverBudgetBefore(sorted, n, usage, budget) && n < |sorted| && usage - Total(sorted[..n]) > budget
    ensures OverBudgetBefore(sorted, n + 1, usage, budget)
    ensures Total(sorted[..n + 1]) == Total(sorted[..n]) + sorted[n].size
  {
    assert sorted[..n + 1] == sorted[..n] + [sorted[n]];
    TotalConcat(sorted[..n], [sorted[n]]);
  }

  lemma PrefixIsMinimal(sorted: seq<Cache>, eligible: seq<Cache>, n: nat, usage: int, budget: int)
    requires sorted == SortByAge(eligible) && OverBudgetBefore(sorted, n, usage, budget)
    requires usage - Total(sorted[..n]) <= budget || n == |sorted|
    ensures IsMinimalLruPrefix(sorted[..n], eligible, usage, budget)
  {
    hide SortByAge, Total;
    assert forall k :: 0 <= k <= n ==> sorted[..n][..k] == sorted[..k];
  }

  method EvictOldest(eligible: seq<Cache>, usage: int, budget: int) returns (retired: seq<Cache>)
    ensures IsMinimalLruPrefix(retired, eligible, usage, budget)
    ensures OldestFirst(retired) && forall c :: c in retired ==> c in eligible
  {
    var sorted := SortByAge(eligible);
    retired := [];
    var left := usage;
    var i := 0;
    while i < |sorted| && left > budget
      invariant 0 <= i <= |sorted| && retired == sorted[..i]
      invariant left == usage - Total(sorted[..i])
      invariant OverBudgetBefore(sorted, i, usage, budget)
    {
      OneMoreGoes(sorted, i, usage, budget);
      retired := retired + [sorted[i]];
      left := left - sorted[i].size;
      i := i + 1;
    }
    PrefixIsMinimal(sorted, eligible, i, usage, budget);
    SortKeepsMembers(eligible);
    SortIsSorted(eligible);
  }

  /** There is only one such prefix: the policy decides what goes. */
  lemma EvictionIsDetermined(one: seq<Cache>, other: seq<Cache>, eligible: seq<Cache>, usage: int, budget: int)
    requires IsMinimalLruPrefix(one, eligible, usage, budget) && IsMinimalLruPrefix(other, eligible, usage, budget)
    ensures one == other
  {
    var sorted := SortByAge(eligible);
    assert one == sorted[..|one|] && other == sorted[..|other|];
    assert forall k :: 0 <= k <= |one| ==> one[..k] == sorted[..k];
    assert forall k :: 0 <= k <= |other| ==> other[..k] == sorted[..k];
  }

  /** An evicted entry is never newer than an eligible one that stays. */
  lemma EvictionIsOldestFirst(retired: seq<Cache>, eligible: seq<Cache>, usage: int, budget: int,
                              gone: Cache, kept: Cache)
    requires IsMinimalLruPrefix(retired, eligible, usage, budget)
    requires gone in retired && kept in eligible && kept !in retired
    ensures gone.accessed < kept.accessed || (gone.accessed == kept.accessed && gone.id <= kept.id)
  {
    var sorted := SortByAge(eligible);
    SortIsSorted(eligible);
    SortKeepsMembers(eligible);
    var i :| 0 <= i < |retired| && retired[i] == gone;
    assert kept in sorted;
    var j :| 0 <= j < |sorted| && sorted[j] == kept;
    assert sorted[i] == gone;
    forall k | 0 <= k < |retired|
      ensures sorted[k] != kept
    {
      assert retired[k] == sorted[k] && retired[k] in retired;
    }
  }
}
