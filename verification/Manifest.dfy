/** The release manifest: an index from paths to digests, its three-way merge, and its advisory text
    with one printer and two parsers. */
module Manifest {
  import opened Core
  import opened Ordering

  type Index = map<string, string>

  // ----- three-way merge -----

  /** The merge of one entry; a missing entry is a value like any other. */
  function MergeValue<T(==)>(base: Option<T>, ours: Option<T>, theirs: Option<T>): Option<T> {
    if ours == theirs then ours
    else if ours == base then theirs
    else if theirs == base then ours
    else ours
  }

  datatype Error = MetadataConflict | DuplicateEntry | TitleMissing | NotLfText | HeaderIncomplete | MalformedRow
                 | UnsupportedFormat | InvalidEntry | NotJson

  function MergeMetadata<T(==)>(base: T, ours: T, theirs: T): Result<T, Error> {
    if ours == theirs then Ok(ours)
    else if ours == base then Ok(theirs)
    else if theirs == base then Ok(ours)
    else Err(MetadataConflict)
  }

  function At<T>(m: map<string, T>, k: string): Option<T> {
    if k in m then Some(m[k]) else None
  }

  predicate Conflict<T(==)>(base: Option<T>, ours: Option<T>, theirs: Option<T>) {
    ours != base && theirs != base && ours != theirs
  }

  /** The merge of whole maps. */
  function Merged<T(==)>(base: map<string, T>, ours: map<string, T>, theirs: map<string, T>): map<string, T> {
    map k | k in base.Keys + ours.Keys + theirs.Keys && MergeValue(At(base, k), At(ours, k), At(theirs, k)).Some?
      :: MergeValue(At(base, k), At(ours, k), At(theirs, k)).value
  }

  /** What our side did not change comes from the other side; what it did change stays. */
  lemma MergedAt<T>(base: map<string, T>, ours: map<string, T>, theirs: map<string, T>)
    ensures forall k :: At(Merged(base, ours, theirs), k)
                     == if At(ours, k) == At(base, k) then At(theirs, k) else At(ours, k)
  {
  }

  /** The two sides may be exchanged exactly if no entry was changed differently by both. */
  lemma MergeIsSymmetricExactly<T>(base: map<string, T>, ours: map<string, T>, theirs: map<string, T>)
    ensures Merged(base, ours, theirs) == Merged(base, theirs, ours)
            <==> forall k :: !Conflict(At(base, k), At(ours, k), At(theirs, k))
  {
    MergedAt(base, ours, theirs);
    MergedAt(base, theirs, ours);
    var a, b := Merged(base, ours, theirs), Merged(base, theirs, ours);
    hide Merged;
    if forall k :: !Conflict(At(base, k), At(ours, k), At(theirs, k)) {
      assert forall k :: At(a, k) == At(b, k);
      SameMap(a, b);
    }
    if a == b {
      forall k
        ensures !Conflict(At(base, k), At(ours, k), At(theirs, k))
      {
        assert At(a, k) == At(b, k);
      }
    }
  }

  lemma SameMap<T>(a: map<string, T>, b: map<string, T>)
    requires forall k :: At(a, k) == At(b, k)
    ensures a == b
  {
    assert forall k :: k in a <==> At(a, k).Some?;
    assert forall k :: k in b <==> At(b, k).Some?;
    assert a.Keys == b.Keys;
    assert forall k :: k in a ==> At(a, k) == Some(a[k]) && At(b, k) == Some(b[k]);
  }

  // ----- keys in order -----

  ghost predicate Enumerates(s: seq<string>, keys: set<string>) {
    NoDuplicates(s) && forall k :: k in s <==> k in keys
  }

  lemma {:induction false} CanEnumerate(keys: set<string>)
    ensures exists s :: Enumerates(s, keys)
    decreases |keys|
  {
    if keys == {} {
      assert Enumerates([], keys);
    } else {
      var k :| k in keys;
      CanEnumerate(keys - {k});
      var s :| Enumerates(s, keys - {k});
      assert Enumerates(s + [k], keys);
    }
  }

  /** The keys in ascending order. */
  ghost function KeysInOrder(keys: set<string>): seq<string> {
    CanEnumerate(keys);
    var s :| Enumerates(s, keys);
    Sorted(s)
  }

  lemma KeysInOrderIs(keys: set<string>, s: seq<string>)
    requires Enumerates(s, keys)
    ensures KeysInOrder(keys) == Sorted(s)
  {
    CanEnumerate(keys);
    var t :| Enumerates(t, keys) && KeysInOrder(keys) == Sorted(t);
    SameElementsSameBag(s, t);
    SortedIsUnique(s, t);
  }

  lemma KeysInOrderEnumerates(keys: set<string>)
    ensures Enumerates(KeysInOrder(keys), keys) && Ascending(KeysInOrder(keys))
  {
    CanEnumerate(keys);
    var s :| Enumerates(s, keys);
    KeysInOrderIs(keys, s);
    SortedAscends(s);
    OnceEach(s);
    OnceEach(Sorted(s));
    assert forall k :: k in s <==> k in multiset(s);
    assert forall k :: k in Sorted(s) <==> k in multiset(Sorted(s));
  }

  method SortKeys(keys: set<string>) returns (r: seq<string>)
    ensures r == KeysInOrder(keys)
  {
    var s: seq<string>, left := [], keys;
    while left != {}
      invariant left <= keys && Enumerates(s, keys - left)
      decreases left
    {
      var k :| k in left;
      s, left := s + [k], left - {k};
    }
    KeysInOrderIs(keys, s);
    return Sorted(s);
  }

  method MergeMapping(base: Index, ours: Index, theirs: Index) returns (merged: Index)
    ensures merged == Merged(base, ours, theirs)
  {
    hide Merged, MergeValue, KeysInOrder, Enumerates;
    var all := base.Keys + ours.Keys + theirs.Keys;
    var keys := SortKeys(all);
    KeysInOrderEnumerates(all);
    ghost var target := Merged(base, ours, theirs);
    merged := map[];
    for i := 0 to |keys|
      invariant forall k :: At(merged, k) == if k in keys[..i] then At(target, k) else None
    {
      var key := keys[i];
      NextKey(keys, all, i);
      MergedEntry(base, ours, theirs, key);
      var value := MergeValue(At(base, key), At(ours, key), At(theirs, key));
      if value.Some? {
        merged := merged[key := value.value];
      }
    }
    forall k
      ensures At(merged, k) == At(target, k)
    {
      EnumeratedKeys(keys, all, k);
      MergedEntry(base, ours, theirs, k);
    }
    SameMap(merged, target);
  }

  lemma NextKey(keys: seq<string>, all: set<string>, i: nat)
    requires Enumerates(keys, all) && i < |keys|
    ensures keys[i] !in keys[..i] && keys[..i + 1] == keys[..i] + [keys[i]]
  {
  }

  lemma EnumeratedKeys(keys: seq<string>, all: set<string>, k: string)
    requires Enumerates(keys, all)
    ensures k in keys[..|keys|] <==> k in all
  {
    assert keys[..|keys|] == keys;
  }

  lemma MergedEntry<T>(base: map<string, T>, ours: map<string, T>, theirs: map<string, T>, k: string)
    ensures At(Merged(base, ours, theirs), k) == MergeValue(At(base, k), At(ours, k), At(theirs, k))
    ensures k !in base && k !in ours && k !in theirs ==> At(Merged(base, ours, theirs), k) == None
  {
  }

  // ----- the index of a tree -----

  function IndexOf<T>(hash: T -> string, tree: map<string, T>): Index {
    map p | p in tree :: hash(tree[p])
  }

  ghost predicate Injective<T(!new)>(hash: T -> string) {
    forall a, b :: hash(a) == hash(b) ==> a == b
  }

  ghost predicate InjectiveOn<T(!new)>(hash: T -> string, contents: set<T>) {
    forall a, b :: a in contents && b in contents && hash(a) == hash(b) ==> a == b
  }

  ghost predicate Commutes<T(!new)>(hash: T -> string, base: map<string, T>, ours: map<string, T>, theirs: map<string, T>) {
    Merged(IndexOf(hash, base), IndexOf(hash, ours), IndexOf(hash, theirs)) == IndexOf(hash, Merged(base, ours, theirs))
  }

  /** Merging the indexes of three trees gives the index of the trees merged file by file. */
  lemma MergeCommutesWithIndexing<T(!new)>(hash: T -> string, base: map<string, T>, ours: map<string, T>, theirs: map<string, T>)
    requires InjectiveOn(hash, base.Values + ours.Values + theirs.Values)
    ensures Commutes(hash, base, ours, theirs)
  {
    var a := Merged(IndexOf(hash, base), IndexOf(hash, ours), IndexOf(hash, theirs));
    var b := IndexOf(hash, Merged(base, ours, theirs));
    MergedAt(base, ours, theirs);
    MergedAt(IndexOf(hash, base), IndexOf(hash, ours), IndexOf(hash, theirs));
    hide Merged;
    forall k
      ensures At(a, k) == At(b, k)
    {
      IndexAt(hash, base, ours, theirs, k);
      IndexAt(hash, Merged(base, ours, theirs), ours, theirs, k);
    }
    SameMap(a, b);
  }

  function HashOf<T>(hash: T -> string, content: Option<T>): Option<string> {
    if content.Some? then Some(hash(content.value)) else None
  }

  lemma IndexAt<T(!new)>(hash: T -> string, base: map<string, T>, ours: map<string, T>, theirs: map<string, T>, k: string)
    ensures At(IndexOf(hash, base), k) == HashOf(hash, At(base, k))
    ensures At(IndexOf(hash, ours), k) == HashOf(hash, At(ours, k))
    ensures At(IndexOf(hash, theirs), k) == HashOf(hash, At(theirs, k))
    ensures InjectiveOn(hash, base.Values + ours.Values + theirs.Values) && HashOf(hash, At(ours, k)) == HashOf(hash, At(base, k)) ==>
              At(ours, k) == At(base, k)
  {
  }

  /** It does so for all trees exactly if the digest tells all contents apart. */
  lemma CommutesExactly<T(!new)>(hash: T -> string)
    ensures Injective(hash) <==>
            forall base: map<string, T>, ours: map<string, T>, theirs: map<string, T> :: Commutes(hash, base, ours, theirs)
  {
    if Injective(hash) {
      forall base: map<string, T>, ours: map<string, T>, theirs: map<string, T>
        ensures Commutes(hash, base, ours, theirs)
      {
        MergeCommutesWithIndexing(hash, base, ours, theirs);
      }
    } else {
      var a, b :| hash(a) == hash(b) && a != b;
      CollisionBreaksMerge(hash, a, b);
    }
  }

  /** A collision hides our change of a file that the other side deleted. */
  lemma CollisionBreaksMerge<T(!new)>(hash: T -> string, a: T, b: T)
    requires hash(a) == hash(b) && a != b
    ensures !Commutes(hash, map["p" := a], map["p" := b], map[])
  {
    var base, ours, theirs: map<string, T> := map["p" := a], map["p" := b], map[];
    MergedAt(base, ours, theirs);
    MergedAt(IndexOf(hash, base), IndexOf(hash, ours), IndexOf(hash, theirs));
    assert At(Merged(base, ours, theirs), "p") == Some(b);
    assert At(Merged(IndexOf(hash, base), IndexOf(hash, ours), IndexOf(hash, theirs)), "p") == None;
    assert At(IndexOf(hash, Merged(base, ours, theirs)), "p") == Some(hash(b));
  }
}
