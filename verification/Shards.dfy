/** Deterministic allocation of test modules to nine shards, its independent guard, the split of one
    module by test case, and the reconciliation of what ran with what was selected. */
module Shards {
  import opened Core
  import opened Ordering

  type Path = string
  type Suite = string
  type Shares = map<int, seq<Path>>

  const SUITES: set<Suite> := {".agentic/tests", "scripts/tests", "global/awf/tests", "global/awf-portable/tests"}
  const SHARDS: set<int> := set k | 0 <= k < 9
  const BASE_SHARDS: nat := 6
  const UPGRADE_MATRIX: Path := ".agentic/tests/test_upgrade_matrix.py"
  const EXCLUDED_MODULES: set<Path> := {"scripts/tests/test_installed_self_test.py"}

  datatype Error = DuplicatePaths

  predicate IsSplit(path: Path) {
    path == UPGRADE_MATRIX
  }

  /** The shards of a split module. */
  const SPLIT_SHARDS: seq<int> := [1, 8]

  /** The shards that share base shard `base`. */
  function Targets(base: nat): seq<int> {
    if base == 1 then [6, 7] else [base]
  }

  // ----- slices -----

  /** Every `step`-th element from `start` on. */
  function Stride(s: seq<Path>, start: nat, step: nat): seq<Path>
    requires step > 0
    decreases if start < |s| then |s| - start else 0
  {
    if start >= |s| then [] else [s[start]] + Stride(s, start + step, step)
  }

  function Keep(s: seq<Path>, f: Path -> bool): seq<Path> {
    if s == [] then []
    else
      var last := s[|s| - 1];
      Keep(s[..|s| - 1], f) + if f(last) then [last] else []
  }

  function Unsplit(s: seq<Path>): seq<Path> {
    Keep(s, p => !IsSplit(p))
  }

  function Splits(s: seq<Path>): seq<Path> {
    Keep(s, p => IsSplit(p))
  }

  function Ordered(paths: seq<Path>): seq<Path> {
    Sorted(Keep(paths, p => p !in EXCLUDED_MODULES))
  }

  function Count(s: seq<Path>, p: Path): nat {
    multiset(s)[p]
  }

  lemma {:induction false} KeepCount(s: seq<Path>, f: Path -> bool, p: Path)
    ensures Count(Keep(s, f), p) == if f(p) then Count(s, p) else 0
  {
    if s != [] {
      KeepCount(s[..|s| - 1], f, p);
      assert s == s[..|s| - 1] + [s[|s| - 1]];
    }
  }

  lemma {:induction false} StrideShift(s: seq<Path>, start: nat, step: nat)
    requires step > 0 && s != [] && start > 0
    ensures Stride(s, start, step) == Stride(s[1..], start - 1, step)
    decreases if start < |s| then |s| - start else 0
  {
    if start < |s| {
      StrideShift(s, start + step, step);
    }
  }

  lemma StrideHead(s: seq<Path>, step: nat)
    requires step > 0 && s != []
    ensures Stride(s, 0, step) == [s[0]] + Stride(s[1..], step - 1, step)
  {
    StrideShift(s, step, step);
  }

  lemma CountCons(x: Path, s: seq<Path>, p: Path)
    ensures Count([x] + s, p) == Count(s, p) + if x == p then 1 else 0
  {
  }

  /** The six slices hold every element as often as the list does. */
  lemma {:induction false} SixSlices(s: seq<Path>, p: Path)
    ensures Count(Stride(s, 0, 6), p) + Count(Stride(s, 1, 6), p) + Count(Stride(s, 2, 6), p)
            + Count(Stride(s, 3, 6), p) + Count(Stride(s, 4, 6), p) + Count(Stride(s, 5, 6), p) == Count(s, p)
  {
    if s != [] {
      hide Stride, Count;
      SixSlices(s[1..], p);
      StrideHead(s, 6);
      StrideShift(s, 1, 6);
      StrideShift(s, 2, 6);
      StrideShift(s, 3, 6);
      StrideShift(s, 4, 6);
      StrideShift(s, 5, 6);
      CountCons(s[0], Stride(s[1..], 5, 6), p);
      CountCons(s[0], s[1..], p);
      assert s == [s[0]] + s[1..];
    }
  }

  lemma {:induction false} TwoSlices(s: seq<Path>, p: Path)
    ensures Count(Stride(s, 0, 2), p) + Count(Stride(s, 1, 2), p) == Count(s, p)
  {
    if s != [] {
      hide Stride, Count;
      TwoSlices(s[1..], p);
      StrideHead(s, 2);
      StrideShift(s, 1, 2);
      CountCons(s[0], Stride(s[1..], 1, 2), p);
      CountCons(s[0], s[1..], p);
      assert s == [s[0]] + s[1..];
    }
  }

  lemma {:induction false} OneSlice(s: seq<Path>)
    ensures Stride(s, 0, 1) == s
  {
    if s != [] {
      OneSlice(s[1..]);
      StrideShift(s, 1, 1);
    }
  }

  /** A later start within one step loses at most one element. */
  lemma {:induction false} SlicesAreEven(s: seq<Path>, a: nat, b: nat, step: nat)
    requires 0 < step && a <= b <= a + step
    ensures |Stride(s, b, step)| <= |Stride(s, a, step)| <= |Stride(s, b, step)| + 1
    decreases 2 * |s| + step - a - b
  {
    if a < |s| && a < b {
      SlicesAreEven(s, b, a + step, step);
    }
  }

  lemma {:induction false} SliceAt(s: seq<Path>, start: nat, step: nat, i: nat)
    requires step > 0 && start < step && i < |s|
    ensures i % step == start ==> s[i] in Stride(s, start, step)
    decreases |s|
  {
    if start == i % step {
      SliceFrom(s, start, step, i, i / step);
    }
  }

  lemma {:induction false} SliceFrom(s: seq<Path>, start: nat, step: nat, i: nat, k: nat)
    requires step > 0 && i < |s| && i == start + step * k
    ensures s[i] in Stride(s, start, step)
    decreases k
  {
    if k > 0 {
      assert step * k == step + step * (k - 1);
      SliceFrom(s, start + step, step, i, k - 1);
    }
  }

  // ----- the share of one shard -----

  function Home(shard: int): nat
    requires shard in SHARDS
  {
    if shard in {6, 7} then 1 else shard
  }

  function Position(shard: int): nat
    requires shard in SHARDS
  {
    if shard in {6, 7} then shard - 6 else 0
  }

  function Rest(ordered: seq<Path>, base: nat): seq<Path> {
    Unsplit(Stride(ordered, base, 6))
  }

  function Share(ordered: seq<Path>, shard: int): seq<Path>
    requires shard in SHARDS
  {
    if shard in SPLIT_SHARDS then Splits(ordered)
    else Stride(Rest(ordered, Home(shard)), Position(shard), |Targets(Home(shard))|)
  }

  /** Whether the shares of a shard's base were dealt before position `position` of base `base`. */
  predicate Dealt(shard: int, base: nat, position: nat)
    requires shard in SHARDS
  {
    shard !in SPLIT_SHARDS && (Home(shard) < base || (Home(shard) == base && Position(shard) < position))
  }

  lemma DealtAtTheEnds()
    ensures forall k :: k in SHARDS ==> !Dealt(k, 0, 0) && (Dealt(k, BASE_SHARDS, 0) <==> k !in SPLIT_SHARDS)
    ensures SHARDS >= {1, 8}
  {
  }

  /** One suite: duplicates are refused; otherwise every shard gets its share, sorted. */
  method AllocateSuite(paths: seq<Path>) returns (r: Result<Shares, Error>)
    ensures r.Ok? <==> NoDuplicates(paths)
    ensures r.Ok? ==> r.value.Keys == SHARDS
    ensures r.Ok? ==> forall k :: k in SHARDS ==> r.value[k] == Sorted(Share(Ordered(paths), k))
  {
    hide Sorted, NoDuplicates, Share, Dealt, Ordered, SHARDS;
    DealtAtTheEnds();
    if !NoDuplicates(paths) {
      return Err(DuplicatePaths);
    }
    var ordered := Ordered(paths);
    var shards: Shares := map k | k in SHARDS :: [];
    for base := 0 to BASE_SHARDS
      invariant shards.Keys == SHARDS
      invariant forall k :: k in SHARDS ==> shards[k] == if Dealt(k, base, 0) then Share(ordered, k) else []
    {
      shards := DealBase(ordered, base, shards);
    }
    shards := AddSplits(ordered, shards);
    return Ok(map k | k in shards :: Sorted(shards[k]));
  }

  method DealBase(ordered: seq<Path>, base: nat, before: Shares) returns (shards: Shares)
    requires base < BASE_SHARDS && before.Keys == SHARDS
    requires forall k :: k in SHARDS ==> before[k] == if Dealt(k, base, 0) then Share(ordered, k) else []
    ensures shards.Keys == SHARDS
    ensures forall k :: k in SHARDS ==> shards[k] == if Dealt(k, base + 1, 0) then Share(ordered, k) else []
  {
    hide Stride, Keep, Rest;
    shards := before;
    var rest := Rest(ordered, base);
    var targets := Targets(base);
    for position := 0 to |targets|
      invariant shards.Keys == SHARDS
      invariant forall k :: k in SHARDS ==> shards[k] == if Dealt(k, base, position) then Share(ordered, k) else []
    {
      var shard := targets[position];
      shards := shards[shard := shards[shard] + Stride(rest, position, |targets|)];
    }
  }

  method AddSplits(ordered: seq<Path>, before: Shares) returns (shards: Shares)
    requires before.Keys == SHARDS && forall k :: k in SPLIT_SHARDS ==> before[k] == []
    ensures shards.Keys == SHARDS
    ensures forall k :: k in SHARDS ==> shards[k] == if k in SPLIT_SHARDS then Share(ordered, k) else before[k]
  {
    shards := before;
    for i := 0 to |ordered|
      invariant shards.Keys == SHARDS
      invariant forall k :: k in SHARDS ==> shards[k] == if k in SPLIT_SHARDS then Splits(ordered[..i]) else before[k]
    {
      assert ordered[..i + 1][..i] == ordered[..i];
      if IsSplit(ordered[i]) {
        shards := shards[1 := shards[1] + [ordered[i]]][8 := shards[8] + [ordered[i]]];
      }
    }
    assert ordered[..|ordered|] == ordered;
  }

  /** All suites, one independent of the other. */
  method Allocate(modules: map<Suite, seq<Path>>) returns (r: Result<map<Suite, Shares>, Error>)
    ensures r.Ok? <==> forall suite :: suite in modules ==> NoDuplicates(modules[suite])
    ensures r.Ok? ==> r.value.Keys == modules.Keys && forall suite :: suite in modules ==> Allocated(modules[suite], r.value[suite])
  {
    hide NoDuplicates, Share, Ordered, Sorted;
    var allocation: map<Suite, Shares> := map[];
    var left := modules.Keys;
    while left != {}
      invariant left <= modules.Keys && allocation.Keys == modules.Keys - left
      invariant forall suite :: suite in allocation ==>
                                  NoDuplicates(modules[suite]) && Allocated(modules[suite], allocation[suite])
      decreases left
    {
      var suite :| suite in left;
      var shares := AllocateSuite(modules[suite]);
      if shares.Err? {
        return Err(shares.error);
      }
      allocation, left := allocation[suite := shares.value], left - {suite};
    }
    return Ok(allocation);
  }

  // ----- the guard -----

  predicate Included(paths: seq<Path>, p: Path) {
    p in paths && p !in EXCLUDED_MODULES
  }

  predicate Alone(shards: Shares, p: Path, shard: int)
    requires shards.Keys == SHARDS
  {
    shard in SHARDS && forall k :: k in SHARDS ==> Count(shards[k], p) == if k == shard then 1 else 0
  }

  /** Where one path is: an ordinary module in one shard once, the split module once in each of its
      shards, anything else nowhere. */
  ghost predicate Placed(paths: seq<Path>, shards: Shares, p: Path)
    requires shards.Keys == SHARDS
  {
    if !Included(paths, p) then forall k :: k in SHARDS ==> Count(shards[k], p) == 0
    else if IsSplit(p) then forall k :: k in SHARDS ==> Count(shards[k], p) == if k in SPLIT_SHARDS then 1 else 0
    else exists shard :: Alone(shards, p, shard)
  }

  ghost predicate Sound(paths: seq<Path>, shards: Shares) {
    shards.Keys == SHARDS && forall p :: Placed(paths, shards, p)
  }

  function Copies(p: Path): nat {
    if IsSplit(p) then 2 else 1
  }

  function All(shards: Shares): multiset<Path>
    requires shards.Keys == SHARDS
  {
    multiset(shards[0]) + multiset(shards[1]) + multiset(shards[2]) + multiset(shards[3]) + multiset(shards[4])
    + multiset(shards[5]) + multiset(shards[6]) + multiset(shards[7]) + multiset(shards[8])
  }

  /** The shards in which a path occurs. */
  function Owners(shards: Shares, p: Path): set<int>
    requires shards.Keys == SHARDS
  {
    set k | k in SHARDS && p in shards[k]
  }

  /** One suite of the guard: the four complaints it collects. */
  method GuardSuite(paths: seq<Path>, shards: Shares) returns (ok: bool)
    ensures ok <==> Distributed(paths, shards)
  {
    SoundMeans(paths, shards);
    hide Distributed;
    if shards.Keys != SHARDS {
      return false;
    }
    var counts := All(shards);
    var duplicate := exists p :: p in counts && counts[p] != Copies(p);
    var misplaced := UPGRADE_MATRIX in counts && Owners(shards, UPGRADE_MATRIX) != {1, 8};
    var unknown := exists p :: p in counts && !Included(paths, p);
    var missing := exists i :: 0 <= i < |paths| && Included(paths, paths[i]) && paths[i] !in counts;
    ok := !(duplicate || unknown || missing || misplaced);
    ComplaintsAreTallies(paths, shards);
    GuardIsPlacement(paths, shards);
  }

  /** No complaint of the guard is left exactly if every path has its tally. */
  lemma ComplaintsAreTallies(paths: seq<Path>, shards: Shares)
    requires shards.Keys == SHARDS
    ensures var counts := All(shards);
            (forall p :: Tallied(paths, shards, p)) <==>
            && (forall p :: p in counts ==> counts[p] == Copies(p))
            && (UPGRADE_MATRIX in counts ==> Owners(shards, UPGRADE_MATRIX) == {1, 8})
            && (forall p :: p in counts ==> Included(paths, p))
            && (forall i :: 0 <= i < |paths| && Included(paths, paths[i]) ==> paths[i] in counts)
  {
    hide All, Owners;
    var counts := All(shards);
    if forall p :: Tallied(paths, shards, p) {
      assert forall p :: p in counts ==> Tallied(paths, shards, p);
      assert forall i :: 0 <= i < |paths| ==> Tallied(paths, shards, paths[i]);
      assert Tallied(paths, shards, UPGRADE_MATRIX);
    }
  }

  ghost predicate Tallied(paths: seq<Path>, shards: Shares, p: Path)
    requires shards.Keys == SHARDS
  {
    && All(shards)[p] == (if Included(paths, p) then Copies(p) else 0)
    && (IsSplit(p) && Included(paths, p) ==> Owners(shards, p) == {1, 8})
  }

  lemma GuardIsPlacement(paths: seq<Path>, shards: Shares)
    requires shards.Keys == SHARDS
    ensures forall p :: Tallied(paths, shards, p) <==> Placed(paths, shards, p)
  {
    forall p
      ensures Tallied(paths, shards, p) <==> Placed(paths, shards, p)
    {
      TalliedIsPlaced(paths, shards, p);
    }
  }

  lemma OwnersByCount(shards: Shares, p: Path)
    requires shards.Keys == SHARDS
    ensures forall k :: k in SHARDS ==> (k in Owners(shards, p) <==> Count(shards[k], p) > 0)
    ensures Owners(shards, p) == {1, 8} <==> forall k :: k in SHARDS ==> (Count(shards[k], p) > 0 <==> k in {1, 8})
  {
    forall k | k in SHARDS
      ensures k in Owners(shards, p) <==> Count(shards[k], p) > 0
    {
    }
    assert forall k :: k in Owners(shards, p) ==> k in SHARDS;
  }

  lemma NineShards(k: int)
    ensures k in SHARDS <==> k == 0 || k == 1 || k == 2 || k == 3 || k == 4 || k == 5 || k == 6 || k == 7 || k == 8
  {
  }

  lemma SumOfCounts(shards: Shares, p: Path)
    requires shards.Keys == SHARDS
    ensures All(shards)[p]
         == Count(shards[0], p) + Count(shards[1], p) + Count(shards[2], p) + Count(shards[3], p) + Count(shards[4], p)
            + Count(shards[5], p) + Count(shards[6], p) + Count(shards[7], p) + Count(shards[8], p)
  {
  }

  lemma NowhereIsZero(shards: Shares, p: Path)
    requires shards.Keys == SHARDS
    ensures All(shards)[p] == 0 <==> forall k :: k in SHARDS ==> Count(shards[k], p) == 0
  {
    SumOfCounts(shards, p);
    hide All, Count, SHARDS;
    forall k ensures k in SHARDS <==> 0 <= k < 9 { NineShards(k); }
  }

  lemma OnceIsAlone(shards: Shares, p: Path)
    requires shards.Keys == SHARDS
    ensures All(shards)[p] == 1 <==> exists shard :: Alone(shards, p, shard)
  {
    if All(shards)[p] == 1 {
      OnceHasAnOwner(shards, p);
    }
    if shard :| Alone(shards, p, shard) {
      AloneIsOnce(shards, p, shard);
    }
  }

  lemma OnceHasAnOwner(shards: Shares, p: Path)
    requires shards.Keys == SHARDS && All(shards)[p] == 1
    ensures exists shard :: Alone(shards, p, shard)
  {
    SumOfCounts(shards, p);
    hide All, Count, SHARDS;
    forall k ensures k in SHARDS <==> 0 <= k < 9 { NineShards(k); }
    var shard :| 0 <= shard < 9 && Count(shards[shard], p) > 0;
    assert Alone(shards, p, shard);
  }

  lemma AloneIsOnce(shards: Shares, p: Path, shard: int)
    requires shards.Keys == SHARDS && Alone(shards, p, shard)
    ensures All(shards)[p] == 1
  {
    SumOfCounts(shards, p);
    NineShards(shard);
    hide All, Count;
  }

  lemma TwiceIsInBoth(shards: Shares, p: Path)
    requires shards.Keys == SHARDS
    ensures All(shards)[p] == 2 && Owners(shards, p) == {1, 8}
            <==> forall k :: k in SHARDS ==> Count(shards[k], p) == if k in SPLIT_SHARDS then 1 else 0
  {
    SumOfCounts(shards, p);
    OwnersByCount(shards, p);
    hide All, Count, SHARDS, Owners;
    forall k ensures k in SHARDS <==> 0 <= k < 9 { NineShards(k); }
  }

  lemma TalliedIsPlaced(paths: seq<Path>, shards: Shares, p: Path)
    requires shards.Keys == SHARDS
    ensures Tallied(paths, shards, p) <==> Placed(paths, shards, p)
  {
    hide All, Owners, Count, Alone, IsSplit;
    NowhereIsZero(shards, p);
    OnceIsAlone(shards, p);
    TwiceIsInBoth(shards, p);
  }

  /** The guard over all suites. The re-enumeration lists every suite. */
  method Guard(expected: map<Suite, seq<Path>>, allocation: map<Suite, Shares>) returns (ok: bool)
    requires expected.Keys == SUITES
    ensures ok <==> && allocation.Keys == {".agentic/tests", "scripts/tests", "global/awf/tests", "global/awf-portable/tests"}
                    && forall suite :: suite in allocation ==> Distributed(expected[suite], allocation[suite])
  {
    hide Distributed;
    if allocation.Keys != SUITES {
      return false;
    }
    var left := SUITES;
    while left != {}
      invariant left <= SUITES
      invariant forall suite :: suite in SUITES - left ==> Distributed(expected[suite], allocation[suite])
      decreases left
    {
      var suite :| suite in left;
      var sound := GuardSuite(expected[suite], allocation[suite]);
      if !sound {
        return false;
      }
      left := left - {suite};
    }
    return true;
  }

  // ----- what allocation promises -----

  predicate Allocated(paths: seq<Path>, shards: Shares) {
    shards.Keys == SHARDS && forall k :: k in SHARDS ==> shards[k] == Sorted(Share(Ordered(paths), k))
  }

  lemma OrderedCount(paths: seq<Path>, p: Path)
    requires NoDuplicates(paths)
    ensures Count(Ordered(paths), p) == if Included(paths, p) then 1 else 0
  {
    OnceEach(paths);
    KeepCount(paths, q => q !in EXCLUDED_MODULES, p);
    assert p in multiset(paths) <==> p in paths;
  }

  lemma RestCount(ordered: seq<Path>, base: nat, p: Path)
    ensures Count(Rest(ordered, base), p) == if IsSplit(p) then 0 else Count(Stride(ordered, base, 6), p)
  {
    KeepCount(Stride(ordered, base, 6), q => !IsSplit(q), p);
  }

  /** How often a path occurs in each share. */
  lemma ShareCounts(ordered: seq<Path>, p: Path)
    ensures forall k :: k in SPLIT_SHARDS ==> Count(Share(ordered, k), p) == if IsSplit(p) then Count(ordered, p) else 0
    ensures IsSplit(p) ==> forall k :: k in SHARDS && k !in SPLIT_SHARDS ==> Count(Share(ordered, k), p) == 0
    ensures !IsSplit(p) ==>
              Count(Share(ordered, 0), p) + Count(Share(ordered, 2), p) + Count(Share(ordered, 3), p)
              + Count(Share(ordered, 4), p) + Count(Share(ordered, 5), p)
              + Count(Share(ordered, 6), p) + Count(Share(ordered, 7), p) == Count(ordered, p)
  {
    hide Stride, Keep, IsSplit, Share, Count;
    forall k | k in SPLIT_SHARDS
      ensures Count(Share(ordered, k), p) == if IsSplit(p) then Count(ordered, p) else 0
    {
      ShareOfSplit(ordered, k, p);
    }
    ShareOfBase(ordered, 0, p);
    ShareOfBase(ordered, 2, p);
    ShareOfBase(ordered, 3, p);
    ShareOfBase(ordered, 4, p);
    ShareOfBase(ordered, 5, p);
    ShareOfPair(ordered, p);
    SixSlices(ordered, p);
    forall k | k in SHARDS && k !in SPLIT_SHARDS && IsSplit(p)
      ensures Count(Share(ordered, k), p) == 0
    {
      NineShards(k);
    }
  }

  lemma ShareOfSplit(ordered: seq<Path>, k: int, p: Path)
    requires k in SPLIT_SHARDS
    ensures Count(Share(ordered, k), p) == if IsSplit(p) then Count(ordered, p) else 0
  {
    hide Stride, Keep, IsSplit;
    KeepCount(ordered, q => IsSplit(q), p);
  }

  lemma ShareOfBase(ordered: seq<Path>, base: nat, p: Path)
    requires base in {0, 2, 3, 4, 5}
    ensures Count(Share(ordered, base), p) == if IsSplit(p) then 0 else Count(Stride(ordered, base, 6), p)
  {
    hide Stride, Keep, IsSplit;
    RestCount(ordered, base, p);
    OneSlice(Rest(ordered, base));
  }

  lemma ShareOfPair(ordered: seq<Path>, p: Path)
    ensures Count(Share(ordered, 6), p) + Count(Share(ordered, 7), p)
         == if IsSplit(p) then 0 else Count(Stride(ordered, 1, 6), p)
  {
    hide Stride, Keep, IsSplit;
    RestCount(ordered, 1, p);
    TwoSlices(Rest(ordered, 1), p);
  }

  /** The guard accepts every allocation: each module is where it should be, as often as it should. */
  lemma AllocationIsSound(paths: seq<Path>, shards: Shares)
    requires NoDuplicates(paths) && Allocated(paths, shards)
    ensures Sound(paths, shards)
  {
    forall p
      ensures Placed(paths, shards, p)
    {
      hide Share, Sorted, Ordered, IsSplit;
      var ordered := Ordered(paths);
      OrderedCount(paths, p);
      ShareCounts(ordered, p);
      forall k | k in SHARDS
        ensures Count(shards[k], p) == Count(Share(ordered, k), p)
      {
        assert multiset(Sorted(Share(ordered, k))) == multiset(Share(ordered, k));
      }
      TallyOfShares(paths, shards, ordered, p);
      TalliedIsPlaced(paths, shards, p);
    }
  }

  lemma TallyOfShares(paths: seq<Path>, shards: Shares, ordered: seq<Path>, p: Path)
    requires shards.Keys == SHARDS && forall k :: k in SHARDS ==> Count(shards[k], p) == Count(Share(ordered, k), p)
    requires Count(ordered, p) == if Included(paths, p) then 1 else 0
    ensures Tallied(paths, shards, p)
  {
    hide Share, IsSplit, Owners, Included, All, Count, SHARDS;
    forall k ensures k in SHARDS <==> 0 <= k < 9 { NineShards(k); }
    ShareCounts(ordered, p);
    SumOfCounts(shards, p);
    if IsSplit(p) && Included(paths, p) {
      OwnersByCount(shards, p);
    }
  }

  /** The allocation is a function of the set of paths. */
  lemma OnlyTheSetMatters(paths: seq<Path>, others: seq<Path>, a: Shares, b: Shares)
    requires NoDuplicates(paths) && NoDuplicates(others) && forall p :: p in paths <==> p in others
    requires Allocated(paths, a) && Allocated(others, b)
    ensures a == b
  {
    hide Share, Sorted;
    SameElementsSameBag(paths, others);
    var kept, keptOthers := Keep(paths, q => q !in EXCLUDED_MODULES), Keep(others, q => q !in EXCLUDED_MODULES);
    forall p
      ensures multiset(kept)[p] == multiset(keptOthers)[p]
    {
      KeepCount(paths, q => q !in EXCLUDED_MODULES, p);
      KeepCount(others, q => q !in EXCLUDED_MODULES, p);
    }
    assert multiset(kept) == multiset(keptOthers);
    SortedIsUnique(kept, keptOthers);
  }

  /** The shard of an ordinary module: its rank modulo six, but for the slice that two shards share;
      there they take turns. */
  function ShardOfRank(ordered: seq<Path>, i: nat): (shard: int)
    requires i < |ordered|
    ensures shard in SHARDS
  {
    if i % 6 != 1 then i % 6 else 6 + RankInSlice(ordered, i) % 2
  }

  /** An ordinary module lands where its rank among the included paths of its suite puts it. */
  lemma RankDecides(paths: seq<Path>, shards: Shares, i: nat)
    requires NoDuplicates(paths) && Allocated(paths, shards)
    requires i < |Ordered(paths)| && !IsSplit(Ordered(paths)[i])
    ensures Alone(shards, Ordered(paths)[i], ShardOfRank(Ordered(paths), i))
  {
    hide Share, Sorted, Ordered, IsSplit;
    var ordered := Ordered(paths);
    var p := ordered[i];
    AllocationIsSound(paths, shards);
    OrderedCount(paths, p);
    RankInShare(ordered, i);
    assert p in multiset(ordered);
    assert Placed(paths, shards, p);
    var shard :| Alone(shards, p, shard);
    forall k | k in SHARDS
      ensures p in Share(ordered, k) <==> k == shard
    {
      assert p in Share(ordered, k) <==> p in multiset(Sorted(Share(ordered, k)));
      assert Count(shards[k], p) == if k == shard then 1 else 0;
    }
  }

  /** How many ordinary modules precede rank `i` in its slice. */
  function RankInSlice(ordered: seq<Path>, i: nat): nat
    requires i < |ordered|
  {
    |Rest(ordered[..i], i % 6)|
  }

  lemma {:induction false} StrideUpTo(s: seq<Path>, start: nat, step: nat, i: nat, m: nat)
    requires step > 0 && i < |s| && i == start + step * m
    ensures var all := Stride(s, start, step);
            m < |all| && all[m] == s[i] && Stride(s[..i], start, step) == all[..m]
    decreases m
  {
    if m > 0 {
      assert step * m == step + step * (m - 1);
      StrideUpTo(s, start + step, step, i, m - 1);
    }
  }

  lemma {:induction false} KeepUpTo(s: seq<Path>, f: Path -> bool, m: nat)
    requires m < |s| && f(s[m])
    ensures var n := |Keep(s[..m], f)|; n < |Keep(s, f)| && Keep(s, f)[n] == s[m]
  {
    if m == |s| - 1 {
      assert s[..|s| - 1] == s[..m];
    } else {
      KeepUpTo(s[..|s| - 1], f, m);
      assert s[..|s| - 1][..m] == s[..m];
    }
  }

  lemma RankInRest(ordered: seq<Path>, i: nat)
    requires i < |ordered| && !IsSplit(ordered[i])
    ensures var rest, j := Rest(ordered, i % 6), RankInSlice(ordered, i); j < |rest| && rest[j] == ordered[i]
  {
    hide Stride, Keep, IsSplit;
    StrideUpTo(ordered, i % 6, 6, i, i / 6);
    KeepUpTo(Stride(ordered, i % 6, 6), p => !IsSplit(p), i / 6);
  }

  lemma RankInShare(ordered: seq<Path>, i: nat)
    requires i < |ordered| && !IsSplit(ordered[i])
    ensures ordered[i] in Share(ordered, ShardOfRank(ordered, i))
  {
    hide Stride, IsSplit, Keep;
    RankInRest(ordered, i);
    var rest, j := Rest(ordered, i % 6), RankInSlice(ordered, i);
    hide Rest, RankInSlice;
    OneSlice(rest);
    SliceAt(rest, j % 2, 2, j);
  }

  /** Base slices differ in size by at most one, and so do the two shards that share base 1. */
  lemma SharesAreEven(paths: seq<Path>, shards: Shares, a: nat, b: nat)
    requires Allocated(paths, shards) && a < 6 && b < 6
    ensures |Stride(Ordered(paths), a, 6)| <= |Stride(Ordered(paths), b, 6)| + 1
    ensures |shards[7]| <= |shards[6]| <= |shards[7]| + 1
  {
    hide Sorted, Ordered;
    if a <= b {
      SlicesAreEven(Ordered(paths), a, b, 6);
    } else {
      SlicesAreEven(Ordered(paths), b, a, 6);
    }
    SlicesAreEven(Rest(Ordered(paths), 1), 0, 1, 2);
  }

  // ----- soundness in literal terms -----

  /** The path occurs once in each of these shards and in no other. */
  predicate OnlyIn(shards: Shares, p: Path, owners: set<int>)
    requires shards.Keys == {0, 1, 2, 3, 4, 5, 6, 7, 8}
  {
    forall k :: 0 <= k < 9 ==> multiset(shards[k])[p] == if k in owners then 1 else 0
  }

  /** Nine shards; the excluded module and what is not listed in none of them, the split module in
      shards 1 and 8, every other listed module in just one. */
  ghost predicate Distributed(paths: seq<Path>, shards: Shares) {
    && shards.Keys == {0, 1, 2, 3, 4, 5, 6, 7, 8}
    && forall p :: HasItsPlace(paths, shards, p)
  }

  ghost predicate HasItsPlace(paths: seq<Path>, shards: Shares, p: Path)
    requires shards.Keys == {0, 1, 2, 3, 4, 5, 6, 7, 8}
  {
    var selected := p in paths && p != "scripts/tests/test_installed_self_test.py";
    InPlace(shards, p, selected, p == ".agentic/tests/test_upgrade_matrix.py")
  }

  ghost predicate InPlace(shards: Shares, p: Path, selected: bool, split: bool)
    requires shards.Keys == {0, 1, 2, 3, 4, 5, 6, 7, 8}
  {
    if !selected then OnlyIn(shards, p, {})
    else if split then OnlyIn(shards, p, {1, 8})
    else exists k :: 0 <= k < 9 && OnlyIn(shards, p, {k})
  }

  lemma SoundMeans(paths: seq<Path>, shards: Shares)
    ensures Sound(paths, shards) <==> Distributed(paths, shards)
  {
    hide Count;
    NineKeys();
    if shards.Keys == SHARDS {
      forall p
        ensures Placed(paths, shards, p) <==> HasItsPlace(paths, shards, p)
      {
        PlaceMeans(paths, shards, p);
      }
    }
    hide Placed, HasItsPlace;
  }

  lemma NineKeys()
    ensures SHARDS == {0, 1, 2, 3, 4, 5, 6, 7, 8}
  {
  }

  lemma PlaceMeans(paths: seq<Path>, shards: Shares, p: Path)
    requires shards.Keys == SHARDS == {0, 1, 2, 3, 4, 5, 6, 7, 8}
    ensures Placed(paths, shards, p) <==> HasItsPlace(paths, shards, p)
  {
    hide InPlace, Placed, SHARDS;
    PlaceIsInPlace(paths, shards, p);
  }

  lemma PlaceIsInPlace(paths: seq<Path>, shards: Shares, p: Path)
    requires shards.Keys == SHARDS == {0, 1, 2, 3, 4, 5, 6, 7, 8}
    ensures Placed(paths, shards, p) <==> InPlace(shards, p, Included(paths, p), IsSplit(p))
  {
    OnlyInMeans(shards, p, {});
    OnlyInMeans(shards, p, {1, 8});
    forall k
      ensures Alone(shards, p, k) <==> 0 <= k < 9 && OnlyIn(shards, p, {k})
    {
      OnlyInMeans(shards, p, {k});
      NineShards(k);
    }
    hide Alone, Count, OnlyIn, SHARDS, Included, IsSplit;
  }

  lemma OnlyInMeans(shards: Shares, p: Path, owners: set<int>)
    requires shards.Keys == SHARDS == {0, 1, 2, 3, 4, 5, 6, 7, 8}
    ensures OnlyIn(shards, p, owners) <==> forall k :: k in SHARDS ==> Count(shards[k], p) == if k in owners then 1 else 0
  {
    forall k ensures k in SHARDS <==> 0 <= k < 9 { NineShards(k); }
    hide SHARDS;
  }

  /** A duplicate-free inventory is allocated, and the guard accepts what was allocated. */
  method AllocateAndGuard(modules: map<Suite, seq<Path>>) returns (r: Result<map<Suite, Shares>, Error>)
    requires modules.Keys == SUITES
    ensures r.Ok? <==> forall suite :: suite in modules ==> NoDuplicates(modules[suite])
    ensures r.Ok? ==> r.value.Keys == {".agentic/tests", "scripts/tests", "global/awf/tests", "global/awf-portable/tests"}
    ensures r.Ok? ==> forall suite :: suite in r.value ==> Distributed(modules[suite], r.value[suite])
  {
    hide NoDuplicates, Sound, Allocated, Distributed;
    r := Allocate(modules);
    if r.Ok? {
      forall suite | suite in SUITES
        ensures Sound(modules[suite], r.value[suite]) && Distributed(modules[suite], r.value[suite])
      {
        AllocationIsSound(modules[suite], r.value[suite]);
        SoundMeans(modules[suite], r.value[suite]);
      }
      var accepted := Guard(modules, r.value);
      assert accepted;
    }
  }

  // ----- splitting one module by its cases -----

  /** A case with the name of its test method, if it has one. */
  datatype Case = Case(id: string, name: Option<string>, loader: bool)

  /** Discovered tests: cases in suites in suites. */
  datatype Tests = One(c: Case) | Many(tests: seq<Tests>)

  function Flatten(t: Tests): seq<Case> {
    match t case One(c) => [c] case Many(tests) => FlattenAll(tests)
  }

  function FlattenAll(tests: seq<Tests>): seq<Case> {
    if tests == [] then [] else Flatten(tests[0]) + FlattenAll(tests[1..])
  }

  /** Flattening lists the cases from left to right: a case is itself, and the cases of a suite are
      those of its front and then those of its back, wherever it is cut. */
  lemma {:induction false} FlattenLaws(c: Case, a: seq<Tests>, b: seq<Tests>, t: Tests)
    ensures Flatten(One(c)) == [c] && Flatten(Many([])) == [] && Flatten(Many([t])) == Flatten(t)
    ensures Flatten(Many(a + b)) == Flatten(Many(a)) + Flatten(Many(b))
  {
    assert [t][1..] == [];
    assert Flatten(t) + [] == Flatten(t);
    if a == [] {
      assert a + b == b && [] + FlattenAll(b) == FlattenAll(b);
    } else {
      FlattenLaws(c, a[1..], b, t);
      ConcatTail(a, b);
      assert Flatten(a[0]) + (FlattenAll(a[1..]) + FlattenAll(b)) == (Flatten(a[0]) + FlattenAll(a[1..])) + FlattenAll(b);
    }
  }

  const ID: Case -> string := (c: Case) => c.id

  function Cases(t: Tests): (cases: seq<Case>)
    ensures multiset(cases) == multiset(Flatten(t))
  {
    SortedBy(ID, Flatten(t))
  }

  datatype Half = Whole | Half(cases: seq<Case>)

  datatype SplitError = NamesNotUnique | NameAbsent | SecondHalfEmpty | NotItsShard

  predicate InFirst(first: set<string>, c: Case) {
    c.name.Some? && c.name.value in first
  }

  function Names(cases: seq<Case>): seq<Option<string>> {
    seq(|cases|, i requires 0 <= i < |cases| => cases[i].name)
  }

  function Select(first: set<string>, cases: seq<Case>, wanted: bool): seq<Case> {
    if cases == [] then []
    else
      var last := cases[|cases| - 1];
      Select(first, cases[..|cases| - 1], wanted) + if InFirst(first, last) == wanted then [last] else []
  }

  predicate AnyFromLoader(cases: seq<Case>) {
    exists i :: 0 <= i < |cases| && cases[i].loader
  }

  predicate NamesFit(first: set<string>, cases: seq<Case>) {
    && NoDuplicates(Names(cases))
    && (forall n :: n in first ==> Some(n) in Names(cases))
    && exists i :: 0 <= i < |cases| && !InFirst(first, cases[i])
  }

  /** One shard's half of the split module's cases, in the order of their identifiers. */
  method SplitCases(first: set<string>, tests: Tests, shard: int) returns (r: Result<Half, SplitError>)
    ensures r == Ok(Whole) <==> AnyFromLoader(Cases(tests))
    ensures r.Ok? <==> AnyFromLoader(Cases(tests)) || (NamesFit(first, Cases(tests)) && (shard == 1 || shard == 8))
    ensures r.Ok? && r.value.Half? ==> r.value.cases == Select(first, Cases(tests), shard == 1)
    ensures r == Err(NamesNotUnique) <==> !AnyFromLoader(Cases(tests)) && !NoDuplicates(Names(Cases(tests)))
    ensures r == Err(NameAbsent) ==> exists n :: n in first && Some(n) !in Names(Cases(tests))
    ensures r == Err(SecondHalfEmpty) ==> forall i :: 0 <= i < |Cases(tests)| ==> InFirst(first, Cases(tests)[i])
    ensures r == Err(NotItsShard) ==> NamesFit(first, Cases(tests)) && shard != 1 && shard != 8
  {
    hide Cases, NoDuplicates, InFirst;
    var cases := Cases(tests);
    if AnyFromLoader(cases) {
      return Ok(Whole);
    }
    var names := Names(cases);
    if !NoDuplicates(names) {
      return Err(NamesNotUnique);
    }
    if exists n :: n in first && Some(n) !in names {
      return Err(NameAbsent);
    }
    if forall i :: 0 <= i < |cases| ==> InFirst(first, cases[i]) {
      return Err(SecondHalfEmpty);
    }
    if shard !in SPLIT_SHARDS {
      return Err(NotItsShard);
    }
    var wanted := shard == SPLIT_SHARDS[0];
    var half: seq<Case> := [];
    for i := 0 to |cases|
      invariant half == Select(first, cases[..i], wanted)
    {
      assert cases[..i + 1][..i] == cases[..i];
      if InFirst(first, cases[i]) == wanted {
        half := half + [cases[i]];
      }
    }
    assert cases[..|cases|] == cases;
    return Ok(Half(half));
  }

  lemma {:induction false} SelectCounts(first: set<string>, cases: seq<Case>, wanted: bool, c: Case)
    ensures multiset(Select(first, cases, wanted))[c] == if InFirst(first, c) == wanted then multiset(cases)[c] else 0
  {
    if cases != [] {
      SelectCounts(first, cases[..|cases| - 1], wanted, c);
      assert cases == cases[..|cases| - 1] + [cases[|cases| - 1]];
    }
  }

  lemma {:induction false} SelectAscends(first: set<string>, cases: seq<Case>, wanted: bool)
    requires AscendingBy(ID, cases)
    ensures AscendingBy(ID, Select(first, cases, wanted))
  {
    hide AtMost, InFirst;
    if cases != [] {
      var front, last := cases[..|cases| - 1], cases[|cases| - 1];
      SelectAscends(first, front, wanted);
      var half := Select(first, front, wanted);
      forall j | 0 <= j < |half|
        ensures AtMost(ID(half[j]), ID(last))
      {
        SelectMembers(first, front, wanted);
        assert half[j] in front;
      }
    }
  }

  lemma SelectMembers(first: set<string>, cases: seq<Case>, wanted: bool)
    ensures forall c :: c in Select(first, cases, wanted) <==> c in cases && InFirst(first, c) == wanted
  {
    hide Select, InFirst;
    forall c
      ensures c in Select(first, cases, wanted) <==> c in cases && InFirst(first, c) == wanted
    {
      SelectCounts(first, cases, wanted, c);
      assert c in Select(first, cases, wanted) <==> c in multiset(Select(first, cases, wanted));
      assert c in cases <==> c in multiset(cases);
    }
  }

  lemma HalvesAddUp(first: set<string>, cases: seq<Case>)
    ensures multiset(Select(first, cases, true)) + multiset(Select(first, cases, false)) == multiset(cases)
  {
    hide Select, InFirst;
    forall c
      ensures multiset(Select(first, cases, true))[c] + multiset(Select(first, cases, false))[c] == multiset(cases)[c]
    {
      SelectCounts(first, cases, true, c);
      SelectCounts(first, cases, false, c);
    }
  }

  /** The halves are disjoint, together hold exactly the discovered cases, and neither is empty. */
  lemma HalvesPartition(first: set<string>, tests: Tests)
    requires first != {} && NamesFit(first, Cases(tests))
    ensures var a, b := Select(first, Cases(tests), true), Select(first, Cases(tests), false);
            && multiset(a) + multiset(b) == multiset(Flatten(tests))
            && (forall c :: !(c in a && c in b))
            && a != [] && b != []
            && (forall n :: n in first <==> exists c :: c in a && c.name == Some(n))
  {
    hide Select, Cases, Flatten, NoDuplicates;
    var cases := Cases(tests);
    var a, b := Select(first, cases, true), Select(first, cases, false);
    HalvesAddUp(first, cases);
    SelectMembers(first, cases, true);
    SelectMembers(first, cases, false);
    forall n | n in first
      ensures exists c :: c in a && c.name == Some(n)
    {
      var i :| 0 <= i < |cases| && Names(cases)[i] == Some(n);
      assert cases[i] in a;
    }
    var n :| n in first;
    var i :| 0 <= i < |cases| && !InFirst(first, cases[i]);
    assert cases[i] in b;
  }

  /** Each half is in the order of its identifiers, and cases that share one stay in the order in
      which they were discovered. */
  lemma HalvesAreOrdered(first: set<string>, tests: Tests, wanted: bool, id: string)
    ensures AscendingBy(ID, Select(first, Cases(tests), wanted))
    ensures WithKey(ID, id, Select(first, Cases(tests), wanted)) == WithKey(ID, id, Select(first, Flatten(tests), wanted))
  {
    SortedByAscends(ID, Flatten(tests));
    SelectAscends(first, Cases(tests), wanted);
    SortedByIsStable(ID, id, Flatten(tests));
    SelectWithKey(first, Cases(tests), wanted, id);
    SelectWithKey(first, Flatten(tests), wanted, id);
  }

  lemma {:induction false} WithKeySnoc(id: string, cases: seq<Case>, last: Case)
    ensures WithKey(ID, id, cases + [last]) == WithKey(ID, id, cases) + if last.id == id then [last] else []
  {
    if cases != [] {
      ConcatTail(cases, [last]);
      WithKeySnoc(id, cases[1..], last);
    }
  }

  lemma {:induction false} SelectWithKey(first: set<string>, cases: seq<Case>, wanted: bool, id: string)
    ensures WithKey(ID, id, Select(first, cases, wanted)) == Select(first, WithKey(ID, id, cases), wanted)
  {
    hide InFirst, WithKey;
    WithKeyOfNone(id);
    if cases != [] {
      var front, last := cases[..|cases| - 1], cases[|cases| - 1];
      SelectWithKey(first, front, wanted, id);
      assert cases == front + [last];
      WithKeySnoc(id, front, last);
      WithKeySnoc(id, Select(first, front, wanted), last);
      assert (WithKey(ID, id, front) + [last])[..|WithKey(ID, id, front)|] == WithKey(ID, id, front);
      assert Select(first, front, wanted) + [] == Select(first, front, wanted);
      assert WithKey(ID, id, front) + [] == WithKey(ID, id, front);
    }
  }

  lemma WithKeyOfNone(id: string)
    ensures WithKey(ID, id, []) == []
  {
  }

  // ----- reconciliation -----

  /** What ran is what was selected, each module once. */
  ghost predicate EachOnce(selected: seq<Path>, executed: seq<Path>) {
    forall p :: Count(executed, p) == Count(selected, p) <= 1
  }

  /** Exactly one record for each selected module. */
  method Reconcile(selected: seq<Path>, executed: seq<Path>) returns (ok: bool)
    ensures ok <==> EachOnce(selected, executed)
  {
    ok := multiset(selected) == multiset(executed) && NoDuplicates(executed);
    OnceEach(executed);
    assert forall p :: p in executed <==> p in multiset(executed);
    if EachOnce(selected, executed) {
      assert forall p :: multiset(selected)[p] == Count(selected, p) == Count(executed, p) == multiset(executed)[p];
      assert multiset(selected) == multiset(executed);
      assert forall p :: p in executed ==> Count(executed, p) == 1;
    }
  }

  /** When every shard of a suite ran and reconciled, every ordinary module of the inventory ran
      once, the split module once in each of its two shards, and nothing else ran. */
  lemma EverythingRan(paths: seq<Path>, shards: Shares, executed: Shares)
    requires NoDuplicates(paths) && Allocated(paths, shards) && executed.Keys == SHARDS
    requires forall k :: k in SHARDS ==> EachOnce(shards[k], executed[k])
    ensures Distributed(paths, executed)
    ensures forall p :: All(executed)[p] == if Included(paths, p) then Copies(p) else 0
  {
    AllocationIsSound(paths, shards);
    SoundMeans(paths, executed);
    hide Distributed;
    forall p
      ensures Placed(paths, executed, p)
      ensures All(executed)[p] == if Included(paths, p) then Copies(p) else 0
    {
      hide Allocated, NoDuplicates, Included, All;
      SamePlace(paths, shards, executed, p);
      TalliedIsPlaced(paths, executed, p);
    }
  }

  lemma SamePlace(paths: seq<Path>, shards: Shares, executed: Shares, p: Path)
    requires shards.Keys == executed.Keys == SHARDS && Placed(paths, shards, p)
    requires forall k :: k in SHARDS ==> EachOnce(shards[k], executed[k])
    ensures Placed(paths, executed, p)
  {
    hide Included, IsSplit, SHARDS;
    assert forall k :: k in SHARDS ==> Count(executed[k], p) == Count(shards[k], p);
    hide EachOnce, Count;
    if shard :| Alone(shards, p, shard) {
      assert Alone(executed, p, shard);
    }
  }
}
