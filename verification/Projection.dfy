/** Projecting one raw commit tree: read the listing, fetch the blobs, create the tree, verify it. */
module Projection {
  import opened Core
  import opened TreeEntries
  import opened Materialize
  import BlobBatch
  import Listing

  datatype Failure =
    | DestinationExists | Rejected(error: Error) | NotFetched(reason: BlobBatch.Error) | NotCreated | NotVerified

  // ----- asking for the blobs -----

  /** The bytes of an object id. */
  function OidBytes(oid: string): (r: BlobBatch.Oid)
    requires IsOid(oid)
    ensures |r| == |oid| && forall i :: 0 <= i < |oid| ==> r[i] == oid[i] as int
  {
    assert forall i :: 0 <= i < |oid| ==> Hex(oid[i]);
    seq(|oid|, i requires 0 <= i < |oid| && Hex(oid[i]) => (oid[i] as int) as Byte)
  }

  lemma OidIsWord(oid: string)
    requires IsOid(oid)
    ensures BlobBatch.IsWord(OidBytes(oid))
  {
    forall b | b in OidBytes(oid)
      ensures b != BlobBatch.SPACE && b != NEWLINE && b < 128
    {
      var i :| 0 <= i < |oid| && OidBytes(oid)[i] == b;
      assert Hex(oid[i]);
    }
  }

  predicate Named(entries: seq<Entry>) {
    forall i :: 0 <= i < |entries| ==> IsOid(entries[i].oid)
  }

  function Requests(entries: seq<Entry>): (r: seq<BlobBatch.Oid>)
    requires Named(entries)
    ensures |r| == |entries|
  {
    seq(|entries|, i requires 0 <= i < |entries| => OidBytes(entries[i].oid))
  }

  /** The ids in the order of the request. */
  function Asked(entries: seq<Entry>): seq<BlobBatch.Oid>
    requires Named(entries)
  {
    BlobBatch.FirstOf(Requests(entries))
  }

  /** What a batch answer holds for the entries, if it is one. */
  function Fetch(reader: BlobBatch.IntReader, answer: seq<Byte>, entries: seq<Entry>): Result<seq<seq<Byte>>, BlobBatch.Error>
    requires Named(entries)
  {
    BlobBatch.Parse(reader, answer, Asked(entries))
  }

  /** Every entry's id names the content at its place in the answer. */
  ghost predicate Delivers(blobs: Blobs, entries: seq<Entry>, contents: seq<seq<Byte>>)
    requires Named(entries)
  {
    && |contents| == |Asked(entries)|
    && forall i, j :: 0 <= i < |entries| && 0 <= j < |contents| && Asked(entries)[j] == OidBytes(entries[i].oid) ==>
                        entries[i].oid in blobs && blobs[entries[i].oid] == contents[j]
  }

  method FetchBlobs(reader: BlobBatch.IntReader, answer: seq<Byte>, entries: seq<Entry>)
      returns (r: Result<Blobs, BlobBatch.Error>)
    requires Named(entries)
    ensures r.Ok? <==> Fetch(reader, answer, entries).Ok?
    ensures r.Err? ==> r.error == Fetch(reader, answer, entries).error
    ensures r.Ok? ==> Delivers(r.value, entries, Fetch(reader, answer, entries).value)
    ensures r.Ok? ==> forall i :: 0 <= i < |entries| ==> entries[i].oid in r.value
  {
    hide BlobBatch.Parse, BlobBatch.FirstOf, OidBytes, IsOid;
    var read := BlobBatch.ReadBlobs(reader, answer, Requests(entries));
    if read.Err? {
      return Err(read.error);
    }
    var found := read.value;
    forall i | 0 <= i < |entries|
      ensures OidBytes(entries[i].oid) in found
    {
      assert Requests(entries)[i] == OidBytes(entries[i].oid);
    }
    var blobs: Blobs := map i | 0 <= i < |entries| :: entries[i].oid := found[OidBytes(entries[i].oid)];
    return Ok(blobs);
  }

  // ----- the whole projection -----

  ghost predicate Accepted(fold: CaseFold, upper: Upper, records: seq<Record>) {
    records != [] && AllUsable(upper, records) && NoAliases(fold, ToEntries(upper, records))
  }

  lemma UsableAreNamed(upper: Upper, records: seq<Record>)
    requires AllUsable(upper, records)
    ensures Named(ToEntries(upper, records))
  {
  }

  /** What is accepted, in terms of the records: there are some, each is a regular blob all of whose parts
      are acceptable, and no two prefixes of their paths fold alike, part by part, without being alike. */
  lemma AcceptedMeans(fold: CaseFold, upper: Upper, records: seq<Record>)
    ensures Accepted(fold, upper, records) <==>
            && records != []
            && (forall i :: 0 <= i < |records| ==> Fit(upper, records[i]))
            && (forall i, m, j, n :: Leads(records, i, m) && Leads(records, j, n) ==> !Alike(fold, records, i, m, j, n))
  {
    hide Split, RelativeParts, Fit, Usable, Fold;
    forall i | 0 <= i < |records|
      ensures Usable(upper, records[i]) <==> Fit(upper, records[i])
      ensures Usable(upper, records[i]) ==> records[i].Record? && ToEntry(upper, records[i]).path == Split(records[i].path)
    {
      UsableBlob(upper, records[i]);
    }
    if AllUsable(upper, records) {
      AliasesOfRecords(fold, upper, records);
    }
    hide NoAliases, Alike, Leads;
  }

  /** A regular blob at an acceptable path. */
  predicate Fit(upper: Upper, r: Record) {
    RegularBlob(r) && AcceptablePath(upper, r.path)
  }

  lemma UsableBlob(upper: Upper, r: Record)
    ensures Usable(upper, r) <==> Fit(upper, r)
    ensures Usable(upper, r) ==> r.Record? && ToEntry(upper, r).path == Split(r.path)
  {
    RegularMeans(r);
    hide Split, RelativeParts, Acceptable, Regular;
    assert RegularBlob(r) ==> r.Record?;
    hide RegularBlob;
    if r.Record? {
      UsablePathMeans(upper, r.path);
    }
  }

  predicate AcceptablePath(upper: Upper, path: string) {
    && '\\' !in path && ':' !in path && '\0' !in path
    && forall i :: 0 <= i < |Split(path)| ==> Acceptable(upper, Split(path)[i])
  }

  predicate Leads(records: seq<Record>, i: int, m: int) {
    0 <= i < |records| && records[i].Record? && 0 < m <= |Split(records[i].path)|
  }

  /** Two prefixes that a folding file system would confuse. */
  predicate Alike(fold: CaseFold, records: seq<Record>, i: int, m: int, j: int, n: int)
    requires Leads(records, i, m) && Leads(records, j, n)
  {
    var p, q := Split(records[i].path), Split(records[j].path);
    m == n && p[..m] != q[..n] && forall k :: 0 <= k < m ==> Fold(fold, p[k]) == Fold(fold, q[k])
  }

  lemma AliasesOfRecords(fold: CaseFold, upper: Upper, records: seq<Record>)
    requires AllUsable(upper, records)
    requires forall i :: 0 <= i < |records| ==> records[i].Record? && ToEntry(upper, records[i]).path == Split(records[i].path)
    ensures NoAliases(fold, ToEntries(upper, records)) <==>
            forall i, m, j, n :: Leads(records, i, m) && Leads(records, j, n) ==> !Alike(fold, records, i, m, j, n)
  {
    hide Split, RelativeParts, Usable, Fold;
    var entries := ToEntries(upper, records);
    forall i, m
      ensures At(entries, i, m) <==> Leads(records, i, m)
      ensures At(entries, i, m) ==> Prefix(entries, i, m) == Split(records[i].path)[..m]
    {
    }
    forall i, m, j, n | Leads(records, i, m) && Leads(records, j, n)
      ensures Aliases(fold, Prefix(entries, i, m), Prefix(entries, j, n)) <==> Alike(fold, records, i, m, j, n)
    {
      SameFolds(fold, Prefix(entries, i, m), Prefix(entries, j, n));
    }
    hide Aliases, Alike, At, Leads, Prefix, ToEntries;
  }

  lemma SameFolds(fold: CaseFold, p: Path, q: Path)
    ensures FoldParts(fold, p) == FoldParts(fold, q) <==>
            |p| == |q| && forall k :: 0 <= k < |p| ==> Fold(fold, p[k]) == Fold(fold, q[k])
  {
    hide Fold;
    assert |FoldParts(fold, p)| == |p| && |FoldParts(fold, q)| == |q|;
    if FoldParts(fold, p) == FoldParts(fold, q) {
      forall k | 0 <= k < |p|
        ensures Fold(fold, p[k]) == Fold(fold, q[k])
      {
        assert FoldParts(fold, p)[k] == FoldParts(fold, q)[k];
      }
    }
  }

  /** Everything that has to hold for the projection to succeed. */
  ghost predicate Projectable(fold: CaseFold, upper: Upper, key: NameKey, reader: BlobBatch.IntReader,
                              records: seq<Record>, answer: seq<Byte>)
  {
    && Accepted(fold, upper, records) && Named(ToEntries(upper, records))
    && Fetch(reader, answer, ToEntries(upper, records)).Ok?
    && AllCoexist(key, ToEntries(upper, records))
  }

  /** A path between the slashes of a record's path. */
  predicate LeadsTo(records: seq<Record>, q: Path) {
    exists i :: 0 <= i < |records| && records[i].Record? && |q| < |Split(records[i].path)|
                && q == Split(records[i].path)[..|q|]
  }

  /** What one record becomes: a file at its path, with the content of its id, and the mode that the last
      three octal digits of its Git mode spell. */
  predicate Becomes(nodes: Nodes, r: Record, blobs: Blobs) {
    && r.Record? && Split(r.path) in nodes && nodes[Split(r.path)].File?
    && r.oid in blobs && nodes[Split(r.path)].bytes == blobs[r.oid]
    && Spells(r.mode, nodes[Split(r.path)].mode)
  }

  /** What a projection leaves: the files of the records, the directories their paths lead through, and
      nothing else below the root. */
  ghost predicate Leaves(nodes: Nodes, records: seq<Record>, blobs: Blobs) {
    && (forall i :: 0 <= i < |records| ==> Becomes(nodes, records[i], blobs))
    && (forall q :: q != [] && LeadsTo(records, q) ==> q in nodes && nodes[q] == Directory)
    && (forall q :: q in nodes && q != [] ==>
          if nodes[q] == Directory then LeadsTo(records, q)
          else nodes[q].File? && exists i :: 0 <= i < |records| && records[i].Record? && Split(records[i].path) == q)
  }

  lemma ReflectingLeaves(nodes: Nodes, upper: Upper, records: seq<Record>, blobs: Blobs)
    requires AllUsable(upper, records) && Supplied(ToEntries(upper, records), blobs)
    requires Reflects(nodes, ToEntries(upper, records), blobs, {}, true)
    ensures Leaves(nodes, records, blobs)
  {
    hide Split, Component, Spells;
    var entries := ToEntries(upper, records);
    forall i | 0 <= i < |records|
      ensures Becomes(nodes, records[i], blobs) && entries[i].path == Split(records[i].path) && records[i].Record?
    {
      assert FileIsThere(nodes, entries[i], blobs, {}, true);
    }
    hide Becomes, Ready, Usable, ToEntry, ToEntries;
    forall q
      ensures LeadsTo(records, q) <==> LiesAbove(entries, q)
    {
      SameAbove(records, entries, q);
    }
    hide LeadsTo, LiesAbove;
  }

  lemma SameAbove(records: seq<Record>, entries: seq<Entry>, q: Path)
    requires |records| == |entries|
    requires forall i :: 0 <= i < |records| ==> records[i].Record? && entries[i].path == Split(records[i].path)
    ensures LeadsTo(records, q) <==> LiesAbove(entries, q)
  {
    hide Split;
  }

  /** Projecting a commit into a fresh destination: it succeeds exactly when the listing is accepted,
      its blobs can be read and its paths can live together in the file system; what it leaves is
      then the tree of the listing, with the contents that were read. */
  method MaterializeCommit(present: bool, fold: CaseFold, upper: Upper, key: NameKey, decode: Listing.Decoder,
                           reader: BlobBatch.IntReader, listing: seq<Byte>, answer: seq<Byte>, walk: Nodes -> seq<Path>)
      returns (r: Result<Nodes, Failure>, ghost blobs: Blobs)
    requires KeepsSlashes(fold)
    requires forall nodes :: Walks(walk(nodes), nodes)
    ensures var records := Listing.Records(decode, listing);
            r.Ok? <==> !present && Projectable(fold, upper, key, reader, records, answer)
    ensures r.Ok? ==> var entries := ToEntries(upper, Listing.Records(decode, listing));
                      && Supplied(entries, blobs) && r.value == Layout(entries, blobs)
                      && Delivers(blobs, entries, Fetch(reader, answer, entries).value)
    ensures r.Ok? ==> Leaves(r.value, Listing.Records(decode, listing), blobs)
  {
    hide Reflects, Leaves, Latest, NoAliases, AllCoexist, Walks, Layout, Fetch, Delivers, Named, Disjoint, Listing.Records;
    blobs := map[];
    if present {
      return Err(DestinationExists), blobs;
    }
    var records := Listing.ReadListing(decode, listing);
    var read := ReadEntries(fold, upper, records);
    if read.Err? {
      return Err(Rejected(read.error)), blobs;
    }
    var entries := read.value;
    UsableAreNamed(upper, records);
    var fetched := FetchBlobs(reader, answer, entries);
    if fetched.Err? {
      return Err(NotFetched(fetched.error)), blobs;
    }
    blobs := fetched.value;
    assert forall i :: 0 <= i < |entries| ==> Proper(entries[i].path);
    var made, nodes := Create(key, entries, fetched.value);
    if !made {
      return Err(NotCreated), blobs;
    }
    CoexistingAreDisjoint(key, entries, blobs);
    DisjointAreDistinct(entries);
    TreeIsItself(entries, blobs);
    var same := Verify(nodes, walk(nodes), entries, fetched.value, {}, true);
    if !same {
      return Err(NotVerified), blobs;
    }
    ReflectingLeaves(nodes, upper, records, blobs);
    return Ok(nodes), blobs;
  }

  /** What Git guarantees is enough: an accepted listing none of whose paths lies inside another is
      projectable, as the bytes Git prints, into every file system that folds no more than the check,
      with the answer that gives each id once, in order, with its content and the content's size in
      plain digits. */
  lemma AcceptedIsProjectable(fold: CaseFold, upper: Upper, key: NameKey, decode: Listing.Decoder,
                              reader: BlobBatch.IntReader, items: seq<Listing.Item>, contents: seq<seq<Byte>>)
    requires forall i :: 0 <= i < |items| ==> Listing.Separable(items[i])
    requires var records := Listing.MeantAll(decode, items);
             && Accepted(fold, upper, records) && Named(ToEntries(upper, records))
             && Disjoint(ToEntries(upper, records)) && |contents| == |Asked(ToEntries(upper, records))|
    requires FoldsAtMost(key, fold) && forall n: nat :: reader(Decimal(n)) == Some(n)
    ensures var records := Listing.Records(decode, Listing.PrintAll(items));
            && records == Listing.MeantAll(decode, items)
            && var asked := Asked(ToEntries(upper, records));
               var answer := BlobBatch.Answers(asked, BlobBatch.Sizes(contents), contents);
               && Projectable(fold, upper, key, reader, records, answer)
               && Fetch(reader, answer, ToEntries(upper, records)) == Ok(contents)
  {
    Listing.ListingReadsBack(decode, items);
    hide Listing.Records, Listing.PrintAll, Listing.MeantAll;
    var records := Listing.MeantAll(decode, items);
    var entries := ToEntries(upper, records);
    var asked := Asked(entries);
    forall j | 0 <= j < |asked|
      ensures BlobBatch.IsWord(asked[j])
    {
      assert asked[j] in Requests(entries);
      var i :| 0 <= i < |entries| && Requests(entries)[i] == asked[j];
      OidIsWord(entries[i].oid);
    }
    hide NoAliases, AllCoexist, Disjoint, Asked, BlobBatch.IsWord;
    BlobBatch.BatchRoundTrip(reader, asked, contents);
    AcceptedCoexist(key, fold, entries);
  }
}
