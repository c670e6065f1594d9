/** The published catalog pointer and its history. Publishing holds a lock; each of its writes
    replaces a file whole; it may be stopped before either of them. */
module Catalog {
  import opened Core
  import opened Ordering

  type Document = seq<Byte>
  type Digest = string
  /** Versions compare like tuples of numbers. */
  type Version = seq<int>

  /** What a catalog document says, as far as publishing looks at it. */
  datatype Reading = Reading(format: string, version: Version)

  /** Decoding a document: it may be no catalog at all. */
  type Reader = Document -> Option<Reading>

  type Hash = Document -> Digest

  const FORMAT: string := "awf-release-catalog-1"

  datatype Outcome = Published | Stopped | Unreadable | WrongFormat | Backwards

  datatype Shelf = Shelf(current: Option<Document>, history: map<Digest, Document>)

  predicate IsCatalog(reader: Reader, d: Document) {
    reader(d).Some? && reader(d).value.format == FORMAT
  }

  function VersionOf(reader: Reader, d: Document): Version
    requires IsCatalog(reader, d)
  {
    reader(d).value.version
  }

  /** Why a document may not be published over the current one, if so. */
  function Objection(reader: Reader, s: Shelf, version: Version): Option<Outcome> {
    match s.current
    case None => None
    case Some(before) =>
      if reader(before).None? then Some(Unreadable)
      else if reader(before).value.format != FORMAT then Some(WrongFormat)
      else if Precedes(reader(before).value.version, version) then None
      else Some(Backwards)
  }

  function Archive(hash: Hash, s: Shelf): Shelf
    requires s.current.Some?
  {
    s.(history := s.history[hash(s.current.value) := s.current.value])
  }

  /** One publication that is stopped after `writes` writes, if it has not finished by then. */
  function Attempt(reader: Reader, hash: Hash, s: Shelf, d: Document, writes: nat): (Shelf, Outcome)
    requires IsCatalog(reader, d)
  {
    var objection := Objection(reader, s, VersionOf(reader, d));
    if objection.Some? then (s, objection.value)
    else if writes == 0 then (s, Stopped)
    else if s.current.None? || s.current.value == d then (s.(current := Some(d)), Published)
    else if writes == 1 then (Archive(hash, s), Stopped)
    else (Archive(hash, s).(current := Some(d)), Published)
  }

  class Store {
    const reader: Reader
    const hash: Hash
    var current: Option<Document>
    var history: map<Digest, Document>

    function View(): Shelf
      reads this
    {
      Shelf(current, history)
    }

    constructor (reader: Reader, hash: Hash, shelf: Shelf)
      ensures this.reader == reader && this.hash == hash && View() == shelf
    {
      this.reader, this.hash := reader, hash;
      current, history := shelf.current, shelf.history;
    }

    /** The locked section of a publication. */
    method Publish(d: Document, writes: nat) returns (r: Outcome)
      requires IsCatalog(reader, d)
      modifies this
      ensures (View(), r) == Attempt(reader, hash, old(View()), d, writes)
    {
      var left := writes;
      if current.Some? {
        var before := current.value;
        var previous := reader(before);
        if previous.None? {
          return Unreadable;
        }
        if previous.value.format != FORMAT {
          return WrongFormat;
        }
        if !Precedes(previous.value.version, VersionOf(reader, d)) {
          return Backwards;
        }
        if before != d {
          if left == 0 {
            return Stopped;
          }
          history, left := history[hash(before) := before], left - 1;
        }
      }
      if left == 0 {
        return Stopped;
      }
      current := Some(d);
      return Published;
    }
  }

  // ----- what one attempt keeps -----

  /** Every entry of the history lies under its digest. */
  predicate Filed(hash: Hash, s: Shelf) {
    forall k :: k in s.history ==> hash(s.history[k]) == k
  }

  /** A document is there: current, or in the history under its digest. */
  predicate Present(hash: Hash, s: Shelf, d: Document) {
    s.current == Some(d) || (hash(d) in s.history && s.history[hash(d)] == d)
  }

  /** The pointer is at a catalog of this version or a later one. */
  predicate Reached(reader: Reader, s: Shelf, v: Version) {
    s.current.Some? && IsCatalog(reader, s.current.value) && Precedes(v, VersionOf(reader, s.current.value))
  }

  /** The history holds no other document under the digest of the current one. */
  predicate Clear(hash: Hash, s: Shelf) {
    s.current.Some? && hash(s.current.value) in s.history ==> s.history[hash(s.current.value)] == s.current.value
  }

  /** The attempt gets as far as writing the current document to the history. */
  predicate Archives(reader: Reader, s: Shelf, d: Document, writes: nat)
    requires IsCatalog(reader, d)
  {
    Objection(reader, s, VersionOf(reader, d)).None? && s.current.Some? && s.current.value != d && writes >= 1
  }

  /** Whatever the digest does: history entries stay filed and the pointer never moves back. */
  lemma AttemptNeverMovesBack(reader: Reader, hash: Hash, s: Shelf, d: Document, writes: nat)
    requires IsCatalog(reader, d)
    ensures var t := Attempt(reader, hash, s, d, writes).0;
            && (Filed(hash, s) ==> Filed(hash, t))
            && forall v :: Reached(reader, s, v) ==> Reached(reader, t, v)
  {
    var t := Attempt(reader, hash, s, d, writes).0;
    forall v | Reached(reader, s, v)
      ensures Reached(reader, t, v)
    {
      if t.current != s.current {
        PrecedesIsTransitive(v, VersionOf(reader, s.current.value), VersionOf(reader, d));
      }
    }
  }

  /** Whatever was present stays so. */
  ghost predicate Keeps(hash: Hash, s: Shelf, t: Shelf) {
    forall x :: Present(hash, s, x) ==> Present(hash, t, x)
  }

  /** The attempt archives over no document but the one it archives or the one it then publishes. */
  predicate Spares(reader: Reader, hash: Hash, s: Shelf, d: Document, writes: nat)
    requires IsCatalog(reader, d)
  {
    Archives(reader, s, d, writes) ==> Clear(hash, s) || (writes >= 2 && s.history[hash(s.current.value)] == d)
  }

  /** An attempt loses no document exactly if the entry it archives over is the document it archives,
      or is the very document it then publishes. */
  lemma AttemptKeepsExactly(reader: Reader, hash: Hash, s: Shelf, d: Document, writes: nat)
    requires IsCatalog(reader, d) && Filed(hash, s)
    ensures Keeps(hash, s, Attempt(reader, hash, s, d, writes).0) <==> Spares(reader, hash, s, d, writes)
  {
    var t := Attempt(reader, hash, s, d, writes).0;
    if Archives(reader, s, d, writes) && !Clear(hash, s) {
      var x := s.history[hash(s.current.value)];
      assert Present(hash, s, x) && t.history[hash(x)] != x;
    }
  }

  // ----- runs -----

  datatype Try = Try(document: Document, writes: nat)

  predicate Catalogs(reader: Reader, tries: seq<Try>) {
    forall i :: 0 <= i < |tries| ==> IsCatalog(reader, tries[i].document)
  }

  /** Where publications of any versions, refused or stopped anywhere or not, leave the shelf. */
  function Run(reader: Reader, hash: Hash, s: Shelf, tries: seq<Try>): Shelf
    requires Catalogs(reader, tries)
  {
    if tries == [] then s
    else
      var last := tries[|tries| - 1];
      Attempt(reader, hash, Run(reader, hash, s, tries[..|tries| - 1]), last.document, last.writes).0
  }

  /** Over every run, and for every digest, the pointer never goes back to an earlier version. */
  lemma {:induction false} PointerNeverGoesBack(reader: Reader, hash: Hash, s: Shelf, tries: seq<Try>, i: nat)
    requires Catalogs(reader, tries) && i <= |tries|
    ensures forall v :: Reached(reader, Run(reader, hash, s, tries[..i]), v) ==> Reached(reader, Run(reader, hash, s, tries), v)
    decreases |tries|
  {
    hide Reached, Attempt, Filed;
    if i == |tries| {
      assert tries[..i] == tries;
    } else {
      var before, last := tries[..|tries| - 1], tries[|tries| - 1];
      assert before[..i] == tries[..i];
      PointerNeverGoesBack(reader, hash, s, before, i);
      AttemptNeverMovesBack(reader, hash, Run(reader, hash, s, before), last.document, last.writes);
    }
  }

  lemma {:induction false} RunIsFiled(reader: Reader, hash: Hash, s: Shelf, tries: seq<Try>)
    requires Catalogs(reader, tries) && Filed(hash, s)
    ensures Filed(hash, Run(reader, hash, s, tries))
  {
    hide Reached, Attempt, Filed;
    if tries != [] {
      var before, last := tries[..|tries| - 1], tries[|tries| - 1];
      RunIsFiled(reader, hash, s, before);
      AttemptNeverMovesBack(reader, hash, Run(reader, hash, s, before), last.document, last.writes);
    }
  }

  /** No attempt of the run archives over a document that would be lost. */
  predicate AllSpare(reader: Reader, hash: Hash, s: Shelf, tries: seq<Try>)
    requires Catalogs(reader, tries)
  {
    forall j :: 0 <= j < |tries| ==> Spares(reader, hash, Run(reader, hash, s, tries[..j]), tries[j].document, tries[j].writes)
  }

  lemma RunStep(reader: Reader, hash: Hash, s: Shelf, tries: seq<Try>, j: nat)
    requires Catalogs(reader, tries) && j < |tries|
    ensures Run(reader, hash, s, tries[..j + 1])
         == Attempt(reader, hash, Run(reader, hash, s, tries[..j]), tries[j].document, tries[j].writes).0
  {
    assert tries[..j + 1][..j] == tries[..j];
  }

  lemma {:induction false} KeptThroughout(reader: Reader, hash: Hash, s: Shelf, tries: seq<Try>, i: nat, j: nat)
    requires Catalogs(reader, tries) && i <= j <= |tries| && Filed(hash, s) && AllSpare(reader, hash, s, tries)
    ensures Keeps(hash, Run(reader, hash, s, tries[..i]), Run(reader, hash, s, tries[..j]))
    decreases j
  {
    hide Present, Spares, Attempt, Filed, Run;
    if i < j {
      KeptThroughout(reader, hash, s, tries, i, j - 1);
      RunIsFiled(reader, hash, s, tries[..j - 1]);
      RunStep(reader, hash, s, tries, j - 1);
      AttemptKeepsExactly(reader, hash, Run(reader, hash, s, tries[..j - 1]), tries[j - 1].document, tries[j - 1].writes);
    }
  }

  /** Over a run a catalog once present stays present at every later point, current or in the history,
      exactly if every attempt of the run spares what it archives over. */
  lemma NothingIsLostExactly(reader: Reader, hash: Hash, s: Shelf, tries: seq<Try>)
    requires Catalogs(reader, tries) && Filed(hash, s)
    ensures AllSpare(reader, hash, s, tries)
            <==> forall i, j :: 0 <= i <= j <= |tries| ==>
                                  Keeps(hash, Run(reader, hash, s, tries[..i]), Run(reader, hash, s, tries[..j]))
  {
    hide Keeps, Spares, Attempt, Filed, Run;
    if AllSpare(reader, hash, s, tries) {
      forall i, j | 0 <= i <= j <= |tries|
        ensures Keeps(hash, Run(reader, hash, s, tries[..i]), Run(reader, hash, s, tries[..j]))
      {
        KeptThroughout(reader, hash, s, tries, i, j);
      }
    }
    if forall i, j :: 0 <= i <= j <= |tries| ==> Keeps(hash, Run(reader, hash, s, tries[..i]), Run(reader, hash, s, tries[..j])) {
      forall j | 0 <= j < |tries|
        ensures Spares(reader, hash, Run(reader, hash, s, tries[..j]), tries[j].document, tries[j].writes)
      {
        RunIsFiled(reader, hash, s, tries[..j]);
        RunStep(reader, hash, s, tries, j);
        AttemptKeepsExactly(reader, hash, Run(reader, hash, s, tries[..j]), tries[j].document, tries[j].writes);
        assert Keeps(hash, Run(reader, hash, s, tries[..j]), Run(reader, hash, s, tries[..j + 1]));
      }
    }
  }

  /** With one collision it fails: two catalogs with one digest are published in turn, and the third
      publication archives the second over the first. */
  lemma CollisionLosesACatalog(reader: Reader, hash: Hash, a: Document, b: Document, d: Document)
    requires IsCatalog(reader, a) && IsCatalog(reader, b) && IsCatalog(reader, d)
    requires a != b && hash(a) == hash(b) && d != a && d != b
    requires Precedes(VersionOf(reader, a), VersionOf(reader, b)) && Precedes(VersionOf(reader, b), VersionOf(reader, d))
    ensures var tries, empty := [Try(a, 2), Try(b, 2), Try(d, 2)], Shelf(None, map[]);
            && Present(hash, Run(reader, hash, empty, tries[..1]), a)
            && !Present(hash, Run(reader, hash, empty, tries), a)
            && !AllSpare(reader, hash, empty, tries)
  {
    var tries, empty := [Try(a, 2), Try(b, 2), Try(d, 2)], Shelf(None, map[]);
    RunStep(reader, hash, empty, tries, 0);
    RunStep(reader, hash, empty, tries, 1);
    RunStep(reader, hash, empty, tries, 2);
    assert tries[..0] == [] && tries[..3] == tries;
    var second := Run(reader, hash, empty, tries[..2]);
    assert !Spares(reader, hash, second, tries[2].document, tries[2].writes);
  }

  // ----- when a run loses nothing -----

  /** The documents a run has to do with. */
  function Documents(s: Shelf, tries: seq<Try>): set<Document> {
    s.history.Values + (if s.current.Some? then {s.current.value} else {}) + set i | 0 <= i < |tries| :: tries[i].document
  }

  predicate Apart(hash: Hash, docs: set<Document>) {
    forall a, b :: a in docs && b in docs && hash(a) == hash(b) ==> a == b
  }

  lemma {:induction false} RunHoldsDocuments(reader: Reader, hash: Hash, s: Shelf, tries: seq<Try>)
    requires Catalogs(reader, tries)
    ensures Documents(Run(reader, hash, s, tries), []) <= Documents(s, tries)
  {
    if tries != [] {
      var before, last := tries[..|tries| - 1], tries[|tries| - 1];
      RunHoldsDocuments(reader, hash, s, before);
      DocumentsGrow(s, tries);
      AttemptHoldsDocuments(reader, hash, Run(reader, hash, s, before), last.document, last.writes);
    }
  }

  lemma DocumentsGrow(s: Shelf, tries: seq<Try>)
    requires tries != []
    ensures Documents(s, tries[..|tries| - 1]) <= Documents(s, tries) && tries[|tries| - 1].document in Documents(s, tries)
  {
  }

  lemma AttemptHoldsDocuments(reader: Reader, hash: Hash, s: Shelf, d: Document, writes: nat)
    requires IsCatalog(reader, d)
    ensures Documents(Attempt(reader, hash, s, d, writes).0, []) <= Documents(s, []) + {d}
  {
    hide Objection;
  }

  /** A digest that tells the run's own documents apart loses none of them. */
  lemma DistinctDigestsSuffice(reader: Reader, hash: Hash, s: Shelf, tries: seq<Try>)
    requires Catalogs(reader, tries) && Filed(hash, s) && Apart(hash, Documents(s, tries))
    ensures AllSpare(reader, hash, s, tries)
  {
    forall j | 0 <= j < |tries|
      ensures Spares(reader, hash, Run(reader, hash, s, tries[..j]), tries[j].document, tries[j].writes)
    {
      hide Run;
      RunIsFiled(reader, hash, s, tries[..j]);
      RunHoldsDocuments(reader, hash, s, tries[..j]);
      assert Documents(s, tries[..j]) <= Documents(s, tries);
      ApartIsClear(hash, Run(reader, hash, s, tries[..j]), Documents(s, tries));
    }
  }

  lemma ApartIsClear(hash: Hash, s: Shelf, docs: set<Document>)
    requires Filed(hash, s) && Apart(hash, docs) && Documents(s, []) <= docs
    ensures Clear(hash, s)
  {
    if s.current.Some? && hash(s.current.value) in s.history {
      assert s.current.value in Documents(s, []) && s.history[hash(s.current.value)] in Documents(s, []);
    }
  }

  // ----- success and retries -----

  /** When a publication succeeds, and why it does not otherwise: over nothing, or over a catalog of no
      later version, unless it is stopped before its last write; everything else it refuses and leaves
      as it was. */
  lemma OutcomeMeans(reader: Reader, hash: Hash, s: Shelf, d: Document, writes: nat)
    requires IsCatalog(reader, d)
    ensures var (t, r) := Attempt(reader, hash, s, d, writes);
            var needed := if s.current.Some? && s.current.value != d then 2 else 1;
            match s.current
            case None => r == (if writes >= 1 then Published else Stopped) && t.history == s.history
            case Some(c) =>
              match reader(c)
              case None => r == Unreadable && t == s
              case Some(Reading(format, version)) =>
                if format != "awf-release-catalog-1" then r == WrongFormat && t == s
                else
                  var published := reader(d).value.version;
                  if Precedes(published, version) && published != version then r == Backwards && t == s
                  else r == if writes >= needed then Published else Stopped
    ensures var (t, r) := Attempt(reader, hash, s, d, writes);
            && (r == Published ==> t.current == Some(d)) && (r != Published ==> t.current == s.current)
            && (r == Published && s.current.Some? && s.current.value != d ==> Present(hash, t, s.current.value))
  {
    if s.current.Some? && reader(s.current.value).Some? {
      PrecedesIsTotal(reader(d).value.version, reader(s.current.value).value.version);
    }
  }

  /** The attempt with this number reported success. */
  predicate Succeeded(reader: Reader, hash: Hash, s: Shelf, tries: seq<Try>, i: nat)
    requires Catalogs(reader, tries) && i < |tries|
  {
    Attempt(reader, hash, Run(reader, hash, s, tries[..i]), tries[i].document, tries[i].writes).1 == Published
  }

  /** After every run the current document is that of the last success, or the one from before. */
  lemma {:induction false} CurrentIsLastSuccess(reader: Reader, hash: Hash, s: Shelf, tries: seq<Try>) returns (last: Option<nat>)
    requires Catalogs(reader, tries)
    ensures last.Some? ==> last.value < |tries| && Succeeded(reader, hash, s, tries, last.value)
    ensures forall i :: 0 <= i < |tries| && (last.Some? ==> last.value < i) ==> !Succeeded(reader, hash, s, tries, i)
    ensures Run(reader, hash, s, tries).current == if last.Some? then Some(tries[last.value].document) else s.current
  {
    last := None;
    if tries != [] {
      var n := |tries| - 1;
      var before := tries[..n];
      last := CurrentIsLastSuccess(reader, hash, s, before);
      assert forall i :: 0 <= i <= n ==> before[..i] == tries[..i];
      assert forall i :: 0 <= i < n ==> (Succeeded(reader, hash, s, before, i) <==> Succeeded(reader, hash, s, tries, i));
      if Succeeded(reader, hash, s, tries, n) {
        last := Some(n);
      }
    }
  }

  lemma RetryAfterStop(reader: Reader, hash: Hash, s: Shelf, d: Document, writes: nat)
    requires IsCatalog(reader, d)
    ensures Attempt(reader, hash, Attempt(reader, hash, s, d, writes).0, d, 2).0 == Attempt(reader, hash, s, d, 2).0
  {
    PrecedesIsTotal(VersionOf(reader, d), VersionOf(reader, d));
  }

  /** However often a publication is stopped and tried again, it ends where one uninterrupted
      publication would have. */
  lemma {:induction false} StoppingCostsNothing(reader: Reader, hash: Hash, s: Shelf, tries: seq<Try>, d: Document)
    requires Catalogs(reader, tries) && IsCatalog(reader, d)
    requires forall i :: 0 <= i < |tries| ==> tries[i].document == d
    ensures Attempt(reader, hash, Run(reader, hash, s, tries), d, 2).0 == Attempt(reader, hash, s, d, 2).0
  {
    hide Attempt;
    if tries != [] {
      var before := tries[..|tries| - 1];
      StoppingCostsNothing(reader, hash, s, before, d);
      RetryAfterStop(reader, hash, Run(reader, hash, s, before), d, tries[|tries| - 1].writes);
    }
  }
}
