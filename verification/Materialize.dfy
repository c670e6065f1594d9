/** Creating a release tree from a validated listing, and verifying one. The file system is a map
    from paths to nodes that may compare names more coarsely than by equality. Nothing else touches
    the tree meanwhile. */
module Materialize {
  import opened Core
  import opened TreeEntries

  /** `Special` is whatever the verifier refuses at sight: a link, a reparse point, a device, or a file
      with several names. */
  datatype Node = Directory | File(bytes: seq<Byte>, mode: nat) | Special

  type Nodes = map<Path, Node>

  /** What a name becomes when the file system compares it: the identity, or some case folding. */
  type NameKey = Name -> Name

  type Blobs = map<string, seq<Byte>>

  predicate IsOctal(c: char) {
    '0' <= c <= '7'
  }

  /** A Git mode ends in three octal digits. */
  predicate IsMode(mode: string) {
    |mode| >= 3 && IsOctal(mode[|mode| - 3]) && IsOctal(mode[|mode| - 2]) && IsOctal(mode[|mode| - 1])
  }

  function OctalValue(digits: string): nat
    requires forall c :: c in digits ==> IsOctal(c)
  {
    if digits == "" then 0
    else
      assert IsOctal(digits[|digits| - 1]);
      8 * OctalValue(digits[..|digits| - 1]) + (digits[|digits| - 1] as int - '0' as int)
  }

  /** The file mode in the last three octal digits of a Git mode. */
  function FileMode(mode: string): nat
    requires IsMode(mode)
  {
    OctalValue(mode[|mode| - 3..])
  }

  /** The number those digits spell. */
  predicate Spells(mode: string, n: int) {
    && |mode| >= 3
    && n == 64 * (mode[|mode| - 3] as int - 48) + 8 * (mode[|mode| - 2] as int - 48) + (mode[|mode| - 1] as int - 48)
  }

  lemma ModeIsSpelled(mode: string)
    requires IsMode(mode)
    ensures Spells(mode, FileMode(mode))
  {
    var digits := mode[|mode| - 3..];
    assert digits[..2][..1] == digits[..1] && digits[..1][..0] == "";
    assert OctalValue(digits[..1]) == digits[0] as int - 48;
    assert OctalValue(digits[..2]) == 8 * OctalValue(digits[..1]) + (digits[1] as int - 48);
  }

  /** Ordinary files can be read by all and written by the owner; executable ones also be run by all. */
  lemma GitModes()
    ensures IsMode("100644") && FileMode("100644") == 6 * 64 + 4 * 8 + 4
    ensures IsMode("100755") && FileMode("100755") == 7 * 64 + 5 * 8 + 5
  {
    ModeIsSpelled("100644");
    ModeIsSpelled("100755");
  }

  function Parent(p: Path): Path
    requires p != []
  {
    p[..|p| - 1]
  }

  function Last(p: Path): Name
    requires p != []
  {
    p[|p| - 1]
  }

  // ----- writing all of a file -----

  datatype Stall = Stall

  /** The write loop: the system may take any part of what is offered; no progress is an error. */
  method WriteAll(data: seq<Byte>, taken: nat -> int) returns (r: Result<seq<Byte>, Stall>)
    requires forall k :: taken(k) <= |data|
    ensures r.Ok? ==> r.value == data
    ensures (forall k :: taken(k) > 0) ==> r.Ok?
  {
    var file: seq<Byte>, view := [], data;
    var k: nat := 0;
    while view != []
      invariant file + view == data
      decreases |view|
    {
      var written := taken(k);
      if written <= 0 {
        return Err(Stall);
      }
      file, view := file + view[..Min(written, |view|)], view[Min(written, |view|)..];
      k := k + 1;
    }
    return Ok(file);
  }

  // ----- the file system -----

  /** Every node but the root lies in a directory. */
  predicate Treelike(nodes: Nodes) {
    && [] in nodes && nodes[[]] == Directory
    && forall p :: p in nodes && p != [] ==> Parent(p) in nodes && nodes[Parent(p)] == Directory
  }

  /** A directory already holds a name the file system cannot tell from this one. */
  predicate Taken(key: NameKey, nodes: Nodes, p: Path)
    requires p != []
  {
    exists q :: q in nodes && q != [] && Parent(q) == Parent(p) && key(Last(q)) == key(Last(p))
  }

  predicate IsDirectory(nodes: Nodes, p: Path) {
    p in nodes && nodes[p] == Directory
  }

  /** There is room for the prefix of length `k` as a directory. */
  predicate RoomForPrefix(key: NameKey, nodes: Nodes, p: Path, k: nat)
    requires 0 < k <= |p|
  {
    IsDirectory(nodes, p[..k]) || (IsDirectory(nodes, p[..k - 1]) ==> !Taken(key, nodes, p[..k]))
  }

  /** Every directory on the way to `p`, itself included, exists or can be made. */
  predicate RoomForDirectory(key: NameKey, nodes: Nodes, p: Path) {
    forall k :: 0 < k <= |p| ==> RoomForPrefix(key, nodes, p, k)
  }

  /** There is room for a file: its directories exist or can be made, and its name is free. */
  predicate RoomForFile(key: NameKey, nodes: Nodes, p: Path)
    requires p != []
  {
    RoomForDirectory(key, nodes, Parent(p)) && (IsDirectory(nodes, Parent(p)) ==> !Taken(key, nodes, p))
  }

  predicate IsPrefix(q: Path, p: Path) {
    q <= p
  }

  lemma PrefixOfParent(q: Path, p: Path)
    requires p != []
    ensures IsPrefix(q, p) <==> IsPrefix(q, Parent(p)) || q == p
  {
    if q <= p && q != p {
      assert q == p[..|q|] == Parent(p)[..|q|];
    }
  }

  lemma PrefixesOfParent(p: Path)
    requires p != []
    ensures forall q :: IsPrefix(q, p) <==> IsPrefix(q, Parent(p)) || q == p
  {
    forall q: Path
      ensures IsPrefix(q, p) <==> IsPrefix(q, Parent(p)) || q == p
    {
      PrefixOfParent(q, p);
    }
  }

  function MakeDirectories(nodes: Nodes, p: Path): (r: Nodes)
    ensures forall q :: q in r <==> q in nodes || IsPrefix(q, p)
    ensures forall q :: q in r ==> r[q] == if q in nodes then nodes[q] else Directory
    decreases |p|
  {
    if p == [] then (if p in nodes then nodes else nodes[p := Directory])
    else
      (PrefixesOfParent(p);
      var above := MakeDirectories(nodes, Parent(p));
      if p in above then above else above[p := Directory])
  }

  function Plant(nodes: Nodes, p: Path, file: Node): Nodes
    requires p != []
  {
    MakeDirectories(nodes, Parent(p))[p := file]
  }

  /** Directories were made up to length `k`, and for the next one there was no room. */
  predicate StopsAt(key: NameKey, before: Nodes, after: Nodes, p: Path, k: nat)
    requires k < |p|
  {
    after == MakeDirectories(before, p[..k]) && RoomForDirectory(key, before, p[..k]) && !RoomForPrefix(key, before, p, k + 1)
  }

  /** What failing to make a directory leaves: those of its ancestors for which there was room. */
  predicate StopsShort(key: NameKey, before: Nodes, after: Nodes, p: Path) {
    exists k :: 0 <= k < |p| && StopsAt(key, before, after, p, k)
  }

  lemma StopsAbove(key: NameKey, before: Nodes, after: Nodes, p: Path)
    requires p != [] && StopsShort(key, before, after, Parent(p))
    ensures StopsShort(key, before, after, p)
  {
    hide MakeDirectories, Taken;
    var k :| 0 <= k < |Parent(p)| && StopsAt(key, before, after, Parent(p), k);
    assert Parent(p)[..k] == p[..k] && Parent(p)[..k + 1] == p[..k + 1];
    assert StopsAt(key, before, after, p, k);
  }

  class Writer {
    const key: NameKey
    var nodes: Nodes
    /** The directories this writer has opened, all of them pinned. */
    var directories: set<Path>
    var files: seq<Path>

    ghost predicate Valid()
      reads this
    {
      Treelike(nodes) && forall p :: p in directories <==> IsDirectory(nodes, p)
    }

    constructor (key: NameKey)
      ensures Valid() && this.key == key && nodes == map[[] := Directory]
    {
      this.key := key;
      nodes, directories, files := map[[] := Directory], {[]}, [];
    }

    /** The memoised recursive creation of a directory. */
    method MakeDirectory(p: Path) returns (ok: bool)
      requires Valid()
      modifies this
      ensures Valid()
      ensures ok <==> RoomForDirectory(key, old(nodes), p)
      ensures ok ==> nodes == MakeDirectories(old(nodes), p) && p in directories
      ensures !ok ==> StopsShort(key, old(nodes), nodes, p)
      decreases |p|
    {
      if p in directories {
        AncestorsAreDirectories(nodes, p);
        DirectoryIsMade(nodes, p);
        return true;
      }
      ghost var before := nodes;
      var above := MakeDirectory(Parent(p));
      RoomSplits(key, before, p);
      if !above {
        StopsAbove(key, before, nodes, p);
        return false;
      }
      RoomForLast(key, before, p);
      if Taken(key, nodes, p) {
        assert StopsAt(key, before, nodes, p, |p| - 1);
        return false;
      }
      FreeIsAbsent(key, nodes, p);
      nodes := nodes[p := Directory];
      directories := directories + {p};
      return true;
    }

    method MakeFile(p: Path, bytes: seq<Byte>, mode: nat) returns (ok: bool)
      requires Valid() && p != []
      modifies this
      ensures Valid()
      ensures ok <==> RoomForFile(key, old(nodes), p)
      ensures ok ==> nodes == Plant(old(nodes), p, File(bytes, mode))
      ensures !ok ==> StopsShort(key, old(nodes), nodes, Parent(p)) || nodes == MakeDirectories(old(nodes), Parent(p))
    {
      hide StopsShort, RoomForDirectory, Taken, MakeDirectories;
      ghost var before := nodes;
      var above := MakeDirectory(Parent(p));
      if !above {
        return false;
      }
      StaysTreelike(nodes, p, File(bytes, mode));
      TakenAfterParents(key, before, p);
      if Taken(key, nodes, p) {
        return false;
      }
      FreeIsAbsent(key, nodes, p);
      nodes := nodes[p := File(bytes, mode)];
      files := files + [p];
      return true;
    }
  }

  lemma StaysTreelike(nodes: Nodes, p: Path, file: Node)
    requires Treelike(nodes) && p != [] && IsDirectory(nodes, Parent(p)) && file.File?
    ensures p !in nodes ==> Treelike(nodes[p := file])
  {
  }

  lemma FreeIsAbsent(key: NameKey, nodes: Nodes, p: Path)
    requires p != []
    ensures !Taken(key, nodes, p) ==> p !in nodes
  {
  }

  lemma {:induction false} AncestorsAreDirectories(nodes: Nodes, p: Path)
    requires Treelike(nodes) && IsDirectory(nodes, p)
    ensures forall k :: 0 <= k <= |p| ==> IsDirectory(nodes, p[..k])
    decreases |p|
  {
    assert p[..|p|] == p;
    if p != [] {
      AncestorsAreDirectories(nodes, Parent(p));
      assert forall k :: 0 <= k < |p| ==> Parent(p)[..k] == p[..k];
    }
  }

  lemma DirectoryIsMade(nodes: Nodes, p: Path)
    requires Treelike(nodes) && IsDirectory(nodes, p)
    ensures MakeDirectories(nodes, p) == nodes
  {
    AncestorsAreDirectories(nodes, p);
    assert forall q :: q <= p ==> q == p[..|q|];
  }

  lemma RoomSplits(key: NameKey, nodes: Nodes, p: Path)
    requires p != []
    ensures RoomForDirectory(key, nodes, p)
            <==> RoomForDirectory(key, nodes, Parent(p)) && RoomForPrefix(key, nodes, p, |p|)
  {
    forall k | 0 < k < |p|
      ensures RoomForPrefix(key, nodes, Parent(p), k) <==> RoomForPrefix(key, nodes, p, k)
    {
      assert Parent(p)[..k] == p[..k] && Parent(p)[..k - 1] == p[..k - 1];
    }
  }

  /** Making the ancestors changes nothing about the names next to `p`. */
  lemma TakenAfterParents(key: NameKey, nodes: Nodes, p: Path)
    requires Treelike(nodes) && p != []
    ensures Taken(key, MakeDirectories(nodes, Parent(p)), p) <==> IsDirectory(nodes, Parent(p)) && Taken(key, nodes, p)
  {
    var made := MakeDirectories(nodes, Parent(p));
    if IsDirectory(nodes, Parent(p)) {
      DirectoryIsMade(nodes, Parent(p));
    } else {
      forall q | q in made && q != []
        ensures Parent(q) != Parent(p)
      {
        if q in nodes {
          assert IsDirectory(nodes, Parent(q));
        } else {
          assert |q| < |p|;
        }
      }
    }
  }

  lemma RoomForLast(key: NameKey, nodes: Nodes, p: Path)
    requires Treelike(nodes) && p != [] && !IsDirectory(nodes, p)
    ensures Taken(key, MakeDirectories(nodes, Parent(p)), p) <==> !RoomForPrefix(key, nodes, p, |p|)
  {
    TakenAfterParents(key, nodes, p);
    assert p[..|p|] == p;
  }

  // ----- the tree a listing stands for -----

  /** The file an entry becomes. */
  function Contents(e: Entry, blobs: Blobs): Node
    requires e.oid in blobs && IsMode(e.mode)
  {
    File(blobs[e.oid], FileMode(e.mode))
  }

  predicate Supplied(entries: seq<Entry>, blobs: Blobs) {
    forall i :: 0 <= i < |entries| ==> Ready(entries[i], blobs)
  }

  predicate Ready(e: Entry, blobs: Blobs) {
    e.path != [] && e.oid in blobs && IsMode(e.mode)
  }

  /** The root, every proper prefix of a path as a directory, and the files. */
  function Layout(entries: seq<Entry>, blobs: Blobs): Nodes
    requires Supplied(entries, blobs)
  {
    if entries == [] then map[[] := Directory]
    else
      var e := entries[|entries| - 1];
      Plant(Layout(entries[..|entries| - 1], blobs), e.path, Contents(e, blobs))
  }

  /** The paths run together for `k` components and the file system sees one name in the next. */
  predicate Meet(key: NameKey, p: Path, q: Path, k: int) {
    0 <= k < |p| && k < |q| && p[..k] == q[..k] && key(p[k]) == key(q[k])
  }

  /** Two files can live in one tree: where their paths meet they really are the same, and neither
      ends there. */
  predicate Coexist(key: NameKey, p: Path, q: Path) {
    forall k :: 0 <= k < |p| && Meet(key, p, q, k) ==> p[k] == q[k] && k < |p| - 1 && k < |q| - 1
  }

  predicate AllCoexist(key: NameKey, entries: seq<Entry>) {
    forall i, j :: 0 <= i < j < |entries| ==> Coexist(key, entries[i].path, entries[j].path)
  }

  /** `q` is one of the paths or lies on the way to one. */
  predicate Covers(entries: seq<Entry>, q: Path) {
    exists i :: 0 <= i < |entries| && IsPrefix(q, entries[i].path)
  }

  /** `q` lies on the way to one of the paths. */
  predicate Inside(entries: seq<Entry>, q: Path) {
    exists i :: 0 <= i < |entries| && IsPrefix(q, entries[i].path) && q != entries[i].path
  }

  /** What is in the tree, in terms of the listing. */
  ghost predicate Holds(nodes: Nodes, entries: seq<Entry>, blobs: Blobs)
    requires Supplied(entries, blobs)
  {
    && (forall q :: q in nodes <==> q == [] || Covers(entries, q))
    && (forall q :: IsDirectory(nodes, q) <==> q == [] || Inside(entries, q))
    && (forall i :: 0 <= i < |entries| ==> entries[i].path in nodes && nodes[entries[i].path] == Contents(entries[i], blobs))
  }

  lemma PrefixesClash(key: NameKey, p: Path, q: Path)
    requires p != [] && IsPrefix(p, q)
    ensures !Coexist(key, p, q) && !Coexist(key, q, p)
  {
    var k := |p| - 1;
    assert p[..k] == q[..k] && p[k] == q[k];
    assert Meet(key, p, q, k) && Meet(key, q, p, k);
  }

  lemma CoversSnoc(entries: seq<Entry>, e: Entry, q: Path)
    ensures Covers(entries + [e], q) <==> Covers(entries, q) || IsPrefix(q, e.path)
    ensures Inside(entries + [e], q) <==> Inside(entries, q) || (IsPrefix(q, e.path) && q != e.path)
  {
    hide IsPrefix;
    var more := entries + [e];
    assert more[|entries|] == e && forall i :: 0 <= i < |entries| ==> more[i] == entries[i];
  }

  lemma HoldsAt(nodes: Nodes, entries: seq<Entry>, blobs: Blobs, q: Path)
    requires Supplied(entries, blobs) && Holds(nodes, entries, blobs)
    ensures q in nodes <==> q == [] || Covers(entries, q)
    ensures IsDirectory(nodes, q) <==> q == [] || Inside(entries, q)
  {
    hide Covers, Inside;
  }

  lemma PlantHolds(key: NameKey, nodes: Nodes, entries: seq<Entry>, blobs: Blobs, e: Entry)
    requires Supplied(entries, blobs) && Holds(nodes, entries, blobs)
    requires Ready(e, blobs)
    requires forall i :: 0 <= i < |entries| ==> Coexist(key, entries[i].path, e.path)
    ensures Holds(Plant(nodes, e.path, Contents(e, blobs)), entries + [e], blobs)
  {
    hide Coexist, IsPrefix, Covers, Inside, IsDirectory;
    var p, more := e.path, entries + [e];
    var after := Plant(nodes, p, Contents(e, blobs));
    OthersAreNoPrefixes(key, nodes, entries, blobs, p);
    forall q
      ensures q in after <==> q == [] || Covers(more, q)
      ensures IsDirectory(after, q) <==> q == [] || Inside(more, q)
    {
      HoldsAt(nodes, entries, blobs, q);
      CoversSnoc(entries, e, q);
      PlantAt(nodes, e.path, Contents(e, blobs), q);
    }
    forall i | 0 <= i < |more|
      ensures more[i].path in after && after[more[i].path] == Contents(more[i], blobs)
    {
      PlantAt(nodes, p, Contents(e, blobs), more[i].path);
    }
  }

  lemma PlantAt(nodes: Nodes, p: Path, file: Node, q: Path)
    requires p != [] && p !in nodes && file.File?
    requires forall r :: r in nodes && IsPrefix(r, p) ==> nodes[r] == Directory
    ensures q in Plant(nodes, p, file) <==> q in nodes || IsPrefix(q, p)
    ensures IsDirectory(Plant(nodes, p, file), q) <==> IsDirectory(nodes, q) || (IsPrefix(q, p) && q != p)
    ensures q in nodes ==> Plant(nodes, p, file)[q] == nodes[q]
    ensures Plant(nodes, p, file)[p] == file
  {
    PrefixOfParent(q, p);
    assert p <= p && !(p <= Parent(p));
    assert IsPrefix(p, p);
    hide IsPrefix;
  }

  /** A path that coexists with all others is new, and only directories lie on the way to it. */
  lemma OthersAreNoPrefixes(key: NameKey, nodes: Nodes, entries: seq<Entry>, blobs: Blobs, p: Path)
    requires Supplied(entries, blobs) && Holds(nodes, entries, blobs)
    requires p != [] && forall i :: 0 <= i < |entries| ==> Coexist(key, entries[i].path, p)
    ensures p !in nodes
    ensures forall q :: q in nodes && IsPrefix(q, p) ==> nodes[q] == Directory
  {
    hide Coexist, IsPrefix;
    if i :| 0 <= i < |entries| && IsPrefix(p, entries[i].path) {
      PrefixesClash(key, p, entries[i].path);
    }
    forall q | q in nodes && IsPrefix(q, p)
      ensures nodes[q] == Directory
    {
      if i :| 0 <= i < |entries| && q == entries[i].path {
        PrefixesClash(key, q, p);
      }
      assert q == [] || Inside(entries, q);
      assert IsDirectory(nodes, q);
    }
  }

  lemma LayoutSnoc(entries: seq<Entry>, blobs: Blobs, e: Entry)
    requires Supplied(entries, blobs) && Ready(e, blobs)
    ensures Supplied(entries + [e], blobs)
    ensures Layout(entries + [e], blobs) == Plant(Layout(entries, blobs), e.path, Contents(e, blobs))
  {
    hide Plant;
    var more := entries + [e];
    assert more[..|more| - 1] == entries && more[|entries|] == e;
  }

  lemma LayoutOfNothing(blobs: Blobs)
    ensures Layout([], blobs) == map[[] := Directory]
  {
  }

  lemma HoldsNothing(blobs: Blobs)
    ensures Holds(Layout([], blobs), [], blobs)
  {
  }

  lemma {:induction false} LayoutHolds(key: NameKey, entries: seq<Entry>, blobs: Blobs)
    requires Supplied(entries, blobs) && AllCoexist(key, entries)
    ensures Holds(Layout(entries, blobs), entries, blobs)
  {
    hide Coexist, Holds, Plant, Layout;
    if entries == [] {
      HoldsNothing(blobs);
    } else {
      var before, e := entries[..|entries| - 1], entries[|entries| - 1];
      LayoutHolds(key, before, blobs);
      assert forall i :: 0 <= i < |before| ==> Coexist(key, before[i].path, e.path);
      PlantHolds(key, Layout(before, blobs), before, blobs, e);
      LayoutSnoc(before, blobs, e);
      assert before + [e] == entries;
    }
  }

  /** Every node but the root lies on some path of the listing. */
  lemma OnAPath(nodes: Nodes, entries: seq<Entry>, blobs: Blobs, s: Path) returns (i: nat)
    requires Supplied(entries, blobs) && Holds(nodes, entries, blobs) && s in nodes && s != []
    ensures i < |entries| && |s| <= |entries[i].path| && s == entries[i].path[..|s|]
    ensures IsDirectory(nodes, s) ==> |s| < |entries[i].path|
  {
    hide Holds, Supplied, IsDirectory;
    HoldsAt(nodes, entries, blobs, s);
    if IsDirectory(nodes, s) {
      i :| 0 <= i < |entries| && IsPrefix(s, entries[i].path) && s != entries[i].path;
    } else {
      i :| 0 <= i < |entries| && IsPrefix(s, entries[i].path);
    }
  }

  lemma AlongAPath(nodes: Nodes, entries: seq<Entry>, blobs: Blobs, i: nat, k: nat)
    requires Supplied(entries, blobs) && Holds(nodes, entries, blobs)
    requires i < |entries| && k < |entries[i].path|
    ensures IsDirectory(nodes, entries[i].path[..k]) && entries[i].path[..k + 1] in nodes
  {
    hide Holds, Supplied, IsDirectory;
    var q := entries[i].path;
    HoldsAt(nodes, entries, blobs, q[..k]);
    HoldsAt(nodes, entries, blobs, q[..k + 1]);
    assert IsPrefix(q[..k], q) && q[..k] != q && IsPrefix(q[..k + 1], q);
  }

  /** In the tree of a listing there is room for another file exactly if it coexists with each. */
  lemma RoomMeansCoexist(key: NameKey, nodes: Nodes, entries: seq<Entry>, blobs: Blobs, p: Path)
    requires Supplied(entries, blobs) && Holds(nodes, entries, blobs) && AllCoexist(key, entries)
    requires p != []
    ensures RoomForFile(key, nodes, p) <==> forall i :: 0 <= i < |entries| ==> Coexist(key, entries[i].path, p)
  {
    hide Coexist, RoomForFile, Holds;
    if RoomForFile(key, nodes, p) {
      forall i | 0 <= i < |entries|
        ensures Coexist(key, entries[i].path, p)
      {
        RoomKeepsApart(key, nodes, entries, blobs, p, i);
      }
    }
    if forall i :: 0 <= i < |entries| ==> Coexist(key, entries[i].path, p) {
      CoexistLeavesRoom(key, nodes, entries, blobs, p);
    }
  }

  lemma RoomAtDepth(key: NameKey, nodes: Nodes, p: Path, k: nat)
    requires p != [] && RoomForFile(key, nodes, p) && k < |p| && IsDirectory(nodes, p[..k])
    ensures Taken(key, nodes, p[..k + 1]) ==> k < |p| - 1 && IsDirectory(nodes, p[..k + 1])
  {
    if k == |p| - 1 {
      assert p[..k + 1] == p;
    } else {
      assert Parent(p)[..k + 1] == p[..k + 1] && Parent(p)[..k] == p[..k];
      assert RoomForPrefix(key, nodes, Parent(p), k + 1);
    }
  }

  lemma RoomKeepsApart(key: NameKey, nodes: Nodes, entries: seq<Entry>, blobs: Blobs, p: Path, i: nat)
    requires Supplied(entries, blobs) && Holds(nodes, entries, blobs) && AllCoexist(key, entries)
    requires p != [] && RoomForFile(key, nodes, p) && i < |entries|
    ensures Coexist(key, entries[i].path, p)
  {
    hide RoomForFile, Holds, Supplied;
    var q := entries[i].path;
    forall k | 0 <= k < |q| && Meet(key, q, p, k)
      ensures q[k] == p[k] && k < |q| - 1 && k < |p| - 1
    {
      var sibling, wanted := q[..k + 1], p[..k + 1];
      AlongAPath(nodes, entries, blobs, i, k);
      assert Parent(sibling) == q[..k] == p[..k] == Parent(wanted) && Last(sibling) == q[k] && Last(wanted) == p[k];
      assert Taken(key, nodes, wanted);
      RoomAtDepth(key, nodes, p, k);
      var j := OnAPath(nodes, entries, blobs, wanted);
      var r := entries[j].path;
      assert r[..k] == wanted[..k] == p[..k] && r[k] == wanted[k] == p[k];
      assert Meet(key, q, r, k) && Meet(key, r, q, k);
      if i < j {
        assert Coexist(key, q, r);
      } else if j < i {
        assert Coexist(key, r, q);
      }
    }
  }

  lemma CoexistLeavesRoom(key: NameKey, nodes: Nodes, entries: seq<Entry>, blobs: Blobs, p: Path)
    requires Supplied(entries, blobs) && Holds(nodes, entries, blobs)
    requires p != [] && forall i :: 0 <= i < |entries| ==> Coexist(key, entries[i].path, p)
    ensures RoomForFile(key, nodes, p)
  {
    hide Holds, Supplied;
    forall k | 0 < k <= |p| && Taken(key, nodes, p[..k])
      ensures k < |p| && IsDirectory(nodes, p[..k])
    {
      TakenIsShared(key, nodes, entries, blobs, p, k);
    }
    forall k | 0 < k <= |Parent(p)|
      ensures RoomForPrefix(key, nodes, Parent(p), k)
    {
      assert Parent(p)[..k] == p[..k];
    }
    assert p[..|p|] == p;
  }

  lemma TakenIsShared(key: NameKey, nodes: Nodes, entries: seq<Entry>, blobs: Blobs, p: Path, k: nat)
    requires Supplied(entries, blobs) && Holds(nodes, entries, blobs)
    requires forall i :: 0 <= i < |entries| ==> Coexist(key, entries[i].path, p)
    requires 0 < k <= |p| && Taken(key, nodes, p[..k])
    ensures k < |p| && IsDirectory(nodes, p[..k])
  {
    hide Holds, Supplied;
    var s :| s in nodes && s != [] && Parent(s) == Parent(p[..k]) && key(Last(s)) == key(Last(p[..k]));
    var i := OnAPath(nodes, entries, blobs, s);
    var q := entries[i].path;
    SiblingsMeet(key, s, p, q, k);
    assert Coexist(key, q, p);
    SamePrefix(p, q, k);
    AlongAPath(nodes, entries, blobs, i, k);
  }

  /** A sibling that the file system takes for the prefix of length `k` lies on a path that meets it. */
  lemma SiblingsMeet(key: NameKey, s: Path, p: Path, q: Path, k: nat)
    requires 0 < k <= |p| && s != [] && |s| <= |q| && s == q[..|s|]
    requires Parent(s) == Parent(p[..k]) && key(Last(s)) == key(Last(p[..k]))
    ensures |s| == k && Meet(key, q, p, k - 1)
  {
    assert |Parent(s)| == |s| - 1 && |Parent(p[..k])| == k - 1;
    assert Parent(s) == q[..k - 1] && Parent(p[..k]) == p[..k - 1];
    assert Last(s) == q[k - 1] && Last(p[..k]) == p[k - 1];
  }

  lemma SamePrefix(p: Path, q: Path, k: nat)
    requires 0 < k <= |p| && k <= |q| && p[..k - 1] == q[..k - 1] && p[k - 1] == q[k - 1]
    ensures p[..k] == q[..k]
  {
    assert p[..k] == p[..k - 1] + [p[k - 1]] && q[..k] == q[..k - 1] + [q[k - 1]];
  }

  /** Creating a tree into a fresh root: it works exactly when all its files can live together in the
      file system's eyes, and then the root holds them, their directories, and nothing else. */
  method Create(key: NameKey, entries: seq<Entry>, blobs: Blobs) returns (ok: bool, nodes: Nodes)
    requires Supplied(entries, blobs)
    ensures ok <==> AllCoexist(key, entries)
    ensures ok ==> nodes == Layout(entries, blobs) && Treelike(nodes)
    ensures ok ==> Reflects(nodes, entries, blobs, {}, true)
  {
    hide Coexist, RoomForFile, Plant, Holds, Layout, Reflects, Disjoint;
    var writer := new Writer(key);
    LayoutOfNothing(blobs);
    for i := 0 to |entries|
      invariant writer.Valid() && writer.key == key && fresh(writer)
      invariant Supplied(entries[..i], blobs) && writer.nodes == Layout(entries[..i], blobs)
      invariant AllCoexist(key, entries[..i])
    {
      var e := entries[i];
      LayoutHolds(key, entries[..i], blobs);
      RoomMeansCoexist(key, writer.nodes, entries[..i], blobs, e.path);
      LayoutSnoc(entries[..i], blobs, e);
      assert entries[..i + 1] == entries[..i] + [e];
      var made := writer.MakeFile(e.path, blobs[e.oid], FileMode(e.mode));
      if !made {
        return false, writer.nodes;
      }
    }
    assert entries[..|entries|] == entries;
    CoexistingAreDisjoint(key, entries, blobs);
    LayoutReflects(entries, blobs);
    return true, writer.nodes;
  }

  // ----- from an accepted listing to a tree -----

  /** The file system's comparison is no coarser than case folding. */
  ghost predicate FoldsAtMost(key: NameKey, fold: CaseFold) {
    forall a, b :: key(a) == key(b) ==> Fold(fold, a) == Fold(fold, b)
  }

  /** What a Git tree guarantees of its paths: none is, or lies inside, another. */
  predicate Disjoint(entries: seq<Entry>) {
    forall i, j :: 0 <= i < |entries| && 0 <= j < |entries| && i != j ==> !IsPrefix(entries[i].path, entries[j].path)
  }

  lemma AcceptedCoexist(key: NameKey, fold: CaseFold, entries: seq<Entry>)
    requires FoldsAtMost(key, fold) && NoAliases(fold, entries) && Disjoint(entries)
    ensures AllCoexist(key, entries)
  {
    forall i, j | 0 <= i < j < |entries|
      ensures Coexist(key, entries[i].path, entries[j].path)
    {
      var p, q := entries[i].path, entries[j].path;
      forall k | 0 <= k < |p| && Meet(key, p, q, k)
        ensures p[k] == q[k] && k < |p| - 1 && k < |q| - 1
      {
        var u, v := Prefix(entries, i, k + 1), Prefix(entries, j, k + 1);
        assert u == p[..k] + [p[k]] && v == q[..k] + [q[k]];
        assert FoldParts(fold, u) == FoldParts(fold, v);
        assert !Aliases(fold, u, v);
        assert u[k] == v[k];
        assert k == |p| - 1 ==> IsPrefix(p, q);
        assert k == |q| - 1 ==> IsPrefix(q, p);
      }
    }
  }

  lemma CoexistingAreDisjoint(key: NameKey, entries: seq<Entry>, blobs: Blobs)
    requires Supplied(entries, blobs) && AllCoexist(key, entries)
    ensures Disjoint(entries)
  {
    hide Coexist, IsPrefix;
    forall i, j | 0 <= i < |entries| && 0 <= j < |entries| && i != j
      ensures !IsPrefix(entries[i].path, entries[j].path)
    {
      if IsPrefix(entries[i].path, entries[j].path) {
        PrefixesClash(key, entries[i].path, entries[j].path);
      }
    }
  }

  // ----- checking a tree against a listing -----

  /** A walk of the tree: every node but the root, in whatever order. */
  ghost predicate Walks(walk: seq<Path>, nodes: Nodes) {
    forall q :: q in walk <==> q in nodes && q != []
  }

  predicate Watched(ignored: set<Name>, q: Path) {
    q != [] && q[0] !in ignored
  }

  /** The nodes at or below a top-level name that is not ignored. */
  function Watch(ignored: set<Name>, nodes: Nodes): Nodes {
    map q | q in nodes && Watched(ignored, q) :: nodes[q]
  }

  predicate SameNode(checkModes: bool, a: Node, b: Node) {
    match a
    case Directory => b == Directory
    case File(bytes, mode) => b.File? && bytes == b.bytes && (checkModes ==> mode == b.mode)
    case Special => false
  }

  predicate SameTree(checkModes: bool, a: Nodes, b: Nodes) {
    a.Keys == b.Keys && forall q :: q in a ==> SameNode(checkModes, a[q], b[q])
  }

  function Regulars(nodes: Nodes): Nodes {
    map q | q in nodes && nodes[q].File? :: nodes[q]
  }

  function Directories(nodes: Nodes): set<Path> {
    set q | q in nodes && nodes[q] == Directory
  }

  predicate NothingSpecial(nodes: Nodes) {
    forall q :: q in nodes ==> nodes[q] != Special
  }

  /** The inventory the verifier takes: it stops at anything that is neither file nor directory. */
  method TakeInventory(nodes: Nodes, walk: seq<Path>, ignored: set<Name>) returns (r: Option<(Nodes, set<Path>)>)
    requires Walks(walk, nodes)
    ensures r.Some? <==> NothingSpecial(Watch(ignored, nodes))
    ensures r.Some? ==> r.value == (Regulars(Watch(ignored, nodes)), Directories(Watch(ignored, nodes)))
  {
    var actual: Nodes, directories: set<Path> := map[], {};
    for k := 0 to |walk|
      invariant forall q :: q in walk[..k] && Watched(ignored, q) ==> nodes[q] != Special
      invariant actual == map q | q in nodes && q in walk[..k] && Watched(ignored, q) && nodes[q].File? :: nodes[q]
      invariant directories == set q | q in nodes && q in walk[..k] && Watched(ignored, q) && nodes[q] == Directory
    {
      var q := walk[k];
      assert walk[..k + 1] == walk[..k] + [q] && q in walk;
      if Watched(ignored, q) {
        if nodes[q] == Special {
          assert q in Watch(ignored, nodes);
          return None;
        }
        if nodes[q] == Directory {
          directories := directories + {q};
        } else {
          actual := actual[q := nodes[q]];
        }
      }
    }
    assert walk[..|walk|] == walk;
    assert actual == Regulars(Watch(ignored, nodes));
    assert directories == Directories(Watch(ignored, nodes));
    return Some((actual, directories));
  }

  function Paths(entries: seq<Entry>): set<Path> {
    set i | 0 <= i < |entries| :: entries[i].path
  }

  function PathDirectories(entries: seq<Entry>): set<Path> {
    set i, k | 0 <= i < |entries| && 0 < k < |entries[i].path| :: entries[i].path[..k]
  }

  predicate Distinct(entries: seq<Entry>) {
    forall i, j :: 0 <= i < j < |entries| ==> entries[i].path != entries[j].path
  }

  function Without(entries: seq<Entry>, p: Path): (r: seq<Entry>)
    ensures forall e :: e in r <==> e in entries && e.path != p
    ensures Distinct(entries) ==> Distinct(r)
    ensures (forall e :: e in entries ==> e.path != p) ==> r == entries
  {
    if entries == [] then []
    else
      var before, last := entries[..|entries| - 1], entries[|entries| - 1];
      assert entries == before + [last];
      if last.path == p then Without(before, p) else Without(before, p) + [last]
  }

  /** An entry after which its path does not occur again. */
  predicate IsLatest(entries: seq<Entry>, e: Entry) {
    exists i :: 0 <= i < |entries| && entries[i] == e && forall j :: i < j < |entries| ==> entries[j].path != e.path
  }

  lemma LatestSnoc(before: seq<Entry>, last: Entry)
    ensures forall e :: IsLatest(before + [last], e) <==> e == last || (IsLatest(before, e) && e.path != last.path)
  {
    var entries := before + [last];
    forall e
      ensures IsLatest(entries, e) <==> e == last || (IsLatest(before, e) && e.path != last.path)
    {
      assert entries[|before|] == last && forall i :: 0 <= i < |before| ==> entries[i] == before[i];
      if i :| 0 <= i < |before| && before[i] == e && (forall j :: i < j < |before| ==> before[j].path != e.path) && e.path != last.path {
        assert entries[i] == e;
      }
    }
  }

  /** What the verifier expects: of entries with one path the last, as filling a dictionary leaves it. */
  function Latest(entries: seq<Entry>): (r: seq<Entry>)
    ensures Distinct(r) && forall e :: e in r <==> IsLatest(entries, e)
    ensures Distinct(entries) ==> r == entries
  {
    if entries == [] then []
    else
      var before, last := entries[..|entries| - 1], entries[|entries| - 1];
      assert entries == before + [last];
      LatestSnoc(before, last);
      Without(Latest(before), last.path) + [last]
  }

  lemma LatestIsSupplied(entries: seq<Entry>, blobs: Blobs)
    requires Supplied(entries, blobs)
    ensures Supplied(Latest(entries), blobs)
  {
    hide Latest, Ready;
    var latest := Latest(entries);
    forall i | 0 <= i < |latest|
      ensures Ready(latest[i], blobs)
    {
      assert latest[i] in latest && IsLatest(entries, latest[i]);
      var j :| 0 <= j < |entries| && entries[j] == latest[i];
    }
  }

  /** The verifier on any listing: it accepts exactly the trees whose watched part is the tree of the
      latest entry for each path, and none if one path lies inside another. */
  method Verify(nodes: Nodes, walk: seq<Path>, entries: seq<Entry>, blobs: Blobs, ignored: set<Name>, checkModes: bool)
      returns (ok: bool)
    requires Supplied(entries, blobs) && Walks(walk, nodes)
    ensures Supplied(Latest(entries), blobs)
    ensures ok <==> Disjoint(Latest(entries))
                    && SameTree(checkModes, Watch(ignored, nodes), Watch({}, Layout(Latest(entries), blobs)))
    ensures ok <==> Reflects(nodes, Latest(entries), blobs, ignored, checkModes)
  {
    hide Latest, Disjoint, SameTree, Watch, Layout, Reflects, Agrees;
    LatestIsSupplied(entries, blobs);
    Agreement(Watch(ignored, nodes), Latest(entries), blobs, checkModes);
    AgreesMeans(nodes, Latest(entries), blobs, ignored, checkModes);
    ok := VerifyExpected(nodes, walk, Latest(entries), blobs, ignored, checkModes);
  }

  /** Comparing inventory, bytes and modes with what is expected of each path. */
  method VerifyExpected(nodes: Nodes, walk: seq<Path>, entries: seq<Entry>, blobs: Blobs, ignored: set<Name>, checkModes: bool)
      returns (ok: bool)
    requires Supplied(entries, blobs) && Distinct(entries) && Walks(walk, nodes)
    ensures ok <==> Disjoint(entries) && SameTree(checkModes, Watch(ignored, nodes), Watch({}, Layout(entries, blobs)))
  {
    hide Disjoint, Distinct, Walks, Layout, Watch, SameTree, NothingSpecial, Regulars, Directories;
    ghost var watched := Watch(ignored, nodes);
    var inventory := TakeInventory(nodes, walk, ignored);
    Agreement(watched, entries, blobs, checkModes);
    if inventory.None? {
      return false;
    }
    var (actual, directories) := inventory.value;
    RegularsAreFiles(watched);
    if actual.Keys != Paths(entries) || directories != PathDirectories(entries) {
      return false;
    }
    for i := 0 to |entries|
      invariant forall j :: 0 <= j < i ==> SameNode(checkModes, actual[entries[j].path], Contents(entries[j], blobs))
    {
      var e := entries[i];
      assert e.path in Paths(entries);
      if actual[e.path].bytes != blobs[e.oid] {
        return false;
      }
      if checkModes && actual[e.path].mode != FileMode(e.mode) {
        return false;
      }
    }
    return true;
  }

  /** A path of the listing lies below `q`. */
  predicate LiesAbove(entries: seq<Entry>, q: Path) {
    exists i :: 0 <= i < |entries| && |q| < |entries[i].path| && q == entries[i].path[..|q|]
  }

  /** The file an entry asks for is there, with its bytes and the mode its Git mode spells. */
  predicate FileIsThere(nodes: Nodes, e: Entry, blobs: Blobs, ignored: set<Name>, checkModes: bool)
    requires Ready(e, blobs)
  {
    && e.path != [] && e.path[0] !in ignored && e.path in nodes && nodes[e.path].File?
    && nodes[e.path].bytes == blobs[e.oid] && (checkModes ==> Spells(e.mode, nodes[e.path].mode))
  }

  /** A tree and a listing, spelled out: outside the ignored top-level names there are exactly the
      files of the listing, and as directories exactly the proper prefixes of their paths. */
  ghost predicate Reflects(nodes: Nodes, entries: seq<Entry>, blobs: Blobs, ignored: set<Name>, checkModes: bool)
    requires Supplied(entries, blobs)
  {
    && (forall i :: 0 <= i < |entries| ==> FileIsThere(nodes, entries[i], blobs, ignored, checkModes))
    && (forall q :: q != [] && LiesAbove(entries, q) ==> q in nodes && nodes[q] == Directory)
    && (forall q :: q in nodes && q != [] && q[0] !in ignored ==>
          if nodes[q] == Directory then LiesAbove(entries, q)
          else nodes[q].File? && exists i :: 0 <= i < |entries| && entries[i].path == q)
  }

  lemma DirectoriesLieAbove(entries: seq<Entry>, q: Path)
    ensures q in PathDirectories(entries) <==> q != [] && LiesAbove(entries, q)
  {
    if q != [] && LiesAbove(entries, q) {
      var i :| 0 <= i < |entries| && |q| < |entries[i].path| && q == entries[i].path[..|q|];
    }
  }

  lemma SpelledOnce(mode: string, n: int)
    requires IsMode(mode)
    ensures Spells(mode, n) <==> n == FileMode(mode)
  {
    ModeIsSpelled(mode);
  }

  lemma FileMeans(nodes: Nodes, e: Entry, blobs: Blobs, ignored: set<Name>, checkModes: bool)
    requires Ready(e, blobs)
    ensures SameFile(Watch(ignored, nodes), e, blobs, checkModes) <==> FileIsThere(nodes, e, blobs, ignored, checkModes)
  {
    hide FileMode, Spells;
    if e.path in nodes && nodes[e.path].File? {
      SpelledOnce(e.mode, nodes[e.path].mode);
    }
  }

  lemma AgreesMeans(nodes: Nodes, entries: seq<Entry>, blobs: Blobs, ignored: set<Name>, checkModes: bool)
    requires Supplied(entries, blobs)
    ensures Agrees(Watch(ignored, nodes), entries, blobs, checkModes) <==> Reflects(nodes, entries, blobs, ignored, checkModes)
  {
    hide SameFile, FileIsThere, Ready, PathDirectories, LiesAbove;
    var w := Watch(ignored, nodes);
    forall i | 0 <= i < |entries|
      ensures SameFile(w, entries[i], blobs, checkModes) <==> FileIsThere(nodes, entries[i], blobs, ignored, checkModes)
    {
      FileMeans(nodes, entries[i], blobs, ignored, checkModes);
    }
    forall q: Path
      ensures q in PathDirectories(entries) <==> q != [] && LiesAbove(entries, q)
    {
      DirectoriesLieAbove(entries, q);
    }
    if Agrees(w, entries, blobs, checkModes) {
      AgreeingReflects(nodes, entries, blobs, ignored, checkModes);
    }
    if Reflects(nodes, entries, blobs, ignored, checkModes) {
      ReflectingAgrees(nodes, entries, blobs, ignored, checkModes);
    }
  }

  lemma AgreeingReflects(nodes: Nodes, entries: seq<Entry>, blobs: Blobs, ignored: set<Name>, checkModes: bool)
    requires Supplied(entries, blobs) && Agrees(Watch(ignored, nodes), entries, blobs, checkModes)
    requires forall i :: 0 <= i < |entries| ==> FileIsThere(nodes, entries[i], blobs, ignored, checkModes)
    requires forall q :: q in PathDirectories(entries) <==> q != [] && LiesAbove(entries, q)
    ensures Reflects(nodes, entries, blobs, ignored, checkModes)
  {
    hide SameFile, FileIsThere, Ready, PathDirectories, LiesAbove;
    var w := Watch(ignored, nodes);
    forall q | q != [] && LiesAbove(entries, q)
      ensures q in nodes && nodes[q] == Directory
    {
      assert q in Directories(w);
    }
    forall q | q in nodes && q != [] && q[0] !in ignored
      ensures if nodes[q] == Directory then LiesAbove(entries, q)
              else nodes[q].File? && exists i :: 0 <= i < |entries| && entries[i].path == q
    {
      assert q in w;
      if nodes[q] == Directory {
        assert q in Directories(w);
      } else {
        assert q in Regulars(w).Keys;
      }
    }
  }

  lemma ReflectingAgrees(nodes: Nodes, entries: seq<Entry>, blobs: Blobs, ignored: set<Name>, checkModes: bool)
    requires Supplied(entries, blobs) && Reflects(nodes, entries, blobs, ignored, checkModes)
    requires forall i :: 0 <= i < |entries| ==> SameFile(Watch(ignored, nodes), entries[i], blobs, checkModes)
    requires forall q :: q in PathDirectories(entries) <==> q != [] && LiesAbove(entries, q)
    ensures Agrees(Watch(ignored, nodes), entries, blobs, checkModes)
  {
    hide FileIsThere, Ready, PathDirectories;
    var w := Watch(ignored, nodes);
    forall i | 0 <= i < |entries|
      ensures entries[i].path in Regulars(w)
    {
      assert SameFile(w, entries[i], blobs, checkModes);
    }
    hide SameFile;
    forall q | q != [] && LiesAbove(entries, q)
      ensures q in Directories(w)
    {
      AboveIsWatched(nodes, entries, blobs, ignored, checkModes, q);
    }
    hide LiesAbove;
    assert Regulars(w).Keys == Paths(entries);
    assert Directories(w) == PathDirectories(entries);
  }

  lemma AboveIsWatched(nodes: Nodes, entries: seq<Entry>, blobs: Blobs, ignored: set<Name>, checkModes: bool, q: Path)
    requires Supplied(entries, blobs) && Reflects(nodes, entries, blobs, ignored, checkModes)
    requires q != [] && LiesAbove(entries, q)
    ensures Watched(ignored, q) && q in nodes && nodes[q] == Directory
  {
    var i :| 0 <= i < |entries| && |q| < |entries[i].path| && q == entries[i].path[..|q|];
    assert FileIsThere(nodes, entries[i], blobs, ignored, checkModes) && q[0] == entries[i].path[0];
  }

  /** The tree of a listing reflects it. */
  lemma LayoutReflects(entries: seq<Entry>, blobs: Blobs)
    requires Supplied(entries, blobs) && Disjoint(entries)
    ensures Reflects(Layout(entries, blobs), entries, blobs, {}, true)
  {
    hide Layout, Reflects, Agrees;
    DisjointAreDistinct(entries);
    TreeIsItself(entries, blobs);
    hide SameTree, Watch, Disjoint;
    Agreement(Watch({}, Layout(entries, blobs)), entries, blobs, true);
    AgreesMeans(Layout(entries, blobs), entries, blobs, {}, true);
  }

  lemma DisjointAreDistinct(entries: seq<Entry>)
    requires Disjoint(entries)
    ensures Distinct(entries)
  {
    forall i, j | 0 <= i < j < |entries|
      ensures entries[i].path != entries[j].path
    {
      assert !IsPrefix(entries[i].path, entries[j].path);
    }
  }

  lemma TreeIsItself(entries: seq<Entry>, blobs: Blobs)
    requires Supplied(entries, blobs) && Disjoint(entries)
    ensures SameTree(true, Watch({}, Layout(entries, blobs)), Watch({}, Layout(entries, blobs)))
  {
    hide Layout;
    LayoutShape(entries, blobs);
  }

  lemma RegularsAreFiles(nodes: Nodes)
    ensures forall q :: q in Regulars(nodes) ==> Regulars(nodes)[q].File?
  {
  }

  /** What the verifier compares, as one predicate. */
  ghost predicate Agrees(nodes: Nodes, entries: seq<Entry>, blobs: Blobs, checkModes: bool)
    requires Supplied(entries, blobs)
  {
    && NothingSpecial(nodes)
    && Regulars(nodes).Keys == Paths(entries)
    && Directories(nodes) == PathDirectories(entries)
    && forall i :: 0 <= i < |entries| ==> SameFile(nodes, entries[i], blobs, checkModes)
  }

  predicate SameFile(nodes: Nodes, e: Entry, blobs: Blobs, checkModes: bool)
    requires Ready(e, blobs)
  {
    e.path in Regulars(nodes) && SameNode(checkModes, Regulars(nodes)[e.path], Contents(e, blobs))
  }

  const EXACTLY: NameKey := (n: Name) => n

  lemma DisjointCoexist(entries: seq<Entry>)
    requires Disjoint(entries)
    ensures AllCoexist(EXACTLY, entries)
  {
    forall i, j | 0 <= i < j < |entries|
      ensures Coexist(EXACTLY, entries[i].path, entries[j].path)
    {
      var p, q := entries[i].path, entries[j].path;
      forall k | 0 <= k < |p| && Meet(EXACTLY, p, q, k)
        ensures k < |p| - 1 && k < |q| - 1
      {
        assert p[..k + 1] == p[..k] + [p[k]] == q[..k] + [q[k]] == q[..k + 1];
        assert k == |p| - 1 ==> IsPrefix(p, q);
        assert k == |q| - 1 ==> IsPrefix(q, p);
      }
    }
  }

  lemma LayoutAt(entries: seq<Entry>, blobs: Blobs, q: Path)
    requires Supplied(entries, blobs) && Disjoint(entries) && q != []
    ensures var tree := Layout(entries, blobs);
            && (IsDirectory(tree, q) <==> q in PathDirectories(entries))
            && (q in tree && tree[q].File? <==> q in Paths(entries))
            && (q in tree ==> tree[q] != Special)
  {
    var tree := Layout(entries, blobs);
    hide Layout, Disjoint;
    DisjointCoexist(entries);
    LayoutHolds(EXACTLY, entries, blobs);
    DirectoriesOfPaths(entries, q);
    hide IsPrefix, Covers, Inside, PathDirectories;
    HoldsAt(tree, entries, blobs, q);
    if q in tree {
      var i := OnAPath(tree, entries, blobs, q);
      if q !in PathDirectories(entries) {
        NotInside(entries, i, q);
      }
    }
  }

  lemma NotInside(entries: seq<Entry>, i: nat, q: Path)
    requires i < |entries| && IsPrefix(q, entries[i].path) && !Inside(entries, q)
    ensures q == entries[i].path
  {
    hide IsPrefix;
  }

  /** The tree of a listing, as the verifier sees it. */
  ghost predicate Shape(tree: Nodes, entries: seq<Entry>, blobs: Blobs)
    requires Supplied(entries, blobs)
  {
    && NothingSpecial(tree) && Regulars(tree).Keys == Paths(entries) && Directories(tree) == PathDirectories(entries)
    && forall i :: 0 <= i < |entries| ==> entries[i].path in tree && tree[entries[i].path] == Contents(entries[i], blobs)
  }

  lemma LayoutShape(entries: seq<Entry>, blobs: Blobs)
    requires Supplied(entries, blobs) && Disjoint(entries)
    ensures Shape(Watch({}, Layout(entries, blobs)), entries, blobs)
  {
    hide Layout, Disjoint, PathDirectories, Paths;
    var all := Layout(entries, blobs);
    forall q: Path | q != []
      ensures IsDirectory(all, q) <==> q in PathDirectories(entries)
      ensures q in all && all[q].File? <==> q in Paths(entries)
      ensures q in all ==> all[q] != Special
    {
      LayoutAt(entries, blobs, q);
    }
    NoRoot(entries, blobs);
    LayoutFiles(entries, blobs);
    var tree := Watch({}, all);
    assert Regulars(tree).Keys == Paths(entries);
    assert Directories(tree) == PathDirectories(entries);
  }

  lemma LayoutFiles(entries: seq<Entry>, blobs: Blobs)
    requires Supplied(entries, blobs) && Disjoint(entries)
    ensures forall i :: 0 <= i < |entries| ==>
                          entries[i].path in Layout(entries, blobs) && Layout(entries, blobs)[entries[i].path] == Contents(entries[i], blobs)
  {
    hide Layout, Disjoint, Covers, Inside, IsDirectory;
    DisjointCoexist(entries);
    LayoutHolds(EXACTLY, entries, blobs);
  }

  lemma NoRoot(entries: seq<Entry>, blobs: Blobs)
    requires Supplied(entries, blobs)
    ensures [] !in Paths(entries) && [] !in PathDirectories(entries)
  {
  }

  lemma DirectoriesOfPaths(entries: seq<Entry>, q: Path)
    ensures q in PathDirectories(entries) <==> q != [] && Inside(entries, q)
  {
    if q != [] && Inside(entries, q) {
      var i :| 0 <= i < |entries| && IsPrefix(q, entries[i].path) && q != entries[i].path;
      assert q == entries[i].path[..|q|];
    }
  }

  lemma Agreement(nodes: Nodes, entries: seq<Entry>, blobs: Blobs, checkModes: bool)
    requires Supplied(entries, blobs) && Distinct(entries)
    ensures Agrees(nodes, entries, blobs, checkModes)
            <==> Disjoint(entries) && SameTree(checkModes, nodes, Watch({}, Layout(entries, blobs)))
  {
    hide Layout, Disjoint, Distinct, Watch, Agrees, SameTree;
    var tree := Watch({}, Layout(entries, blobs));
    if Disjoint(entries) {
      LayoutShape(entries, blobs);
      if Agrees(nodes, entries, blobs, checkModes) {
        AgreeingIsSame(nodes, tree, entries, blobs, checkModes);
      }
      if SameTree(checkModes, nodes, tree) {
        SameAgrees(nodes, tree, entries, blobs, checkModes);
      }
    } else {
      NestedNeverAgrees(nodes, entries, blobs, checkModes);
    }
  }

  /** A path inside another would have to be a file and a directory. */
  lemma NestedNeverAgrees(nodes: Nodes, entries: seq<Entry>, blobs: Blobs, checkModes: bool)
    requires Supplied(entries, blobs) && Distinct(entries) && !Disjoint(entries)
    ensures !Agrees(nodes, entries, blobs, checkModes)
  {
    var i, j :| 0 <= i < |entries| && 0 <= j < |entries| && i != j && IsPrefix(entries[i].path, entries[j].path);
    var p, q := entries[i].path, entries[j].path;
    assert p != q;
    assert p == q[..|p|] && 0 < |p| < |q|;
    assert p in Paths(entries) && p in PathDirectories(entries);
    hide Paths, PathDirectories;
    assert p in Regulars(nodes) ==> p !in Directories(nodes);
  }

  lemma AgreeingIsSame(nodes: Nodes, tree: Nodes, entries: seq<Entry>, blobs: Blobs, checkModes: bool)
    requires Supplied(entries, blobs) && Shape(tree, entries, blobs) && Agrees(nodes, entries, blobs, checkModes)
    ensures SameTree(checkModes, nodes, tree)
  {
    hide PathDirectories;
    forall q
      ensures q in nodes <==> q in tree
      ensures q in nodes ==> SameNode(checkModes, nodes[q], tree[q])
    {
      assert q in nodes <==> q in Regulars(nodes) || q in Directories(nodes);
      assert q in tree <==> q in Regulars(tree) || q in Directories(tree);
      if q in Regulars(nodes) {
        var i :| 0 <= i < |entries| && entries[i].path == q;
        assert SameFile(nodes, entries[i], blobs, checkModes);
      }
    }
  }

  lemma SameAgrees(nodes: Nodes, tree: Nodes, entries: seq<Entry>, blobs: Blobs, checkModes: bool)
    requires Supplied(entries, blobs) && Shape(tree, entries, blobs) && SameTree(checkModes, nodes, tree)
    ensures Agrees(nodes, entries, blobs, checkModes)
  {
    hide PathDirectories, Paths;
    assert Regulars(nodes).Keys == Regulars(tree).Keys;
    assert Directories(nodes) == Directories(tree);
  }
}
