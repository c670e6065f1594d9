/** Validating a raw Git tree listing before anything is created: regular blobs only, portable
    relative paths, and no two path prefixes that case folding makes equal. */
module TreeEntries {
  import opened Core

  type Name = string
  type Path = seq<Name>

  /** One listing record; the split into its fields is done by the caller. */
  datatype Record = Malformed | Record(mode: string, kind: string, oid: string, path: string)

  datatype Entry = Entry(path: Path, mode: string, oid: string)

  datatype Error = MalformedRecord | NonRegular | UnsafePath | CaseAlias | EmptyTree

  /** Full case folding: one character may fold to several. */
  type CaseFold = char -> string

  /** How the host language turns text into upper case. */
  type Upper = string -> string

  // ----- slash-separated paths -----

  predicate SlashFree(n: Name) {
    '/' !in n
  }

  function Join(p: Path): string {
    if p == [] then "" else if |p| == 1 then p[0] else p[0] + "/" + Join(p[1..])
  }

  function Split(s: string): (p: Path)
    ensures p != []
  {
    if s == "" then [""]
    else
      var rest := Split(s[1..]);
      if s[0] == '/' then [""] + rest else [[s[0]] + rest[0]] + rest[1..]
  }

  const FORBIDDEN: set<char> := {'\\', ':', '\0', '<', '>', '"', '|', '?', '*'}

  /** The names of devices on Windows. */
  predicate Reserved(stem: string) {
    || stem in {"CON", "PRN", "AUX", "NUL"}
    || (|stem| == 4 && (stem[..3] == "COM" || stem[..3] == "LPT") && '1' <= stem[3] <= '9')
  }

  /** What a name is before its first dot. */
  function Stem(n: Name): string {
    if n == "" || n[0] == '.' then "" else [n[0]] + Stem(n[1..])
  }

  /** No component may be empty, a dot name, ambiguous on Windows or hold a character forbidden there. */
  predicate Component(upper: Upper, n: Name) {
    && n != "" && n != "." && n != ".."
    && n[|n| - 1] != '.' && n[|n| - 1] != ' '
    && !Reserved(upper(Stem(n)))
    && forall c :: c in n ==> c !in FORBIDDEN && c >= ' '
  }

  function RelativeParts(upper: Upper, path: string): Option<Path> {
    var parts := Split(path);
    if forall i :: 0 <= i < |parts| ==> Component(upper, parts[i]) then Some(parts) else None
  }

  lemma {:induction false} SplitAppends(n: Name, rest: string)
    requires SlashFree(n)
    ensures Split(n) == [n]
    ensures Split(n + "/" + rest) == [n] + Split(rest)
  {
    if n == "" {
      assert n + "/" + rest == "/" + rest;
    } else {
      assert n[0] in n;
      assert SlashFree(n[1..]);
      SplitAppends(n[1..], rest);
      assert (n + "/" + rest)[1..] == n[1..] + "/" + rest;
      assert [n[0]] + n[1..] == n && [n[1..]][1..] == [];
    }
  }

  /** Splitting undoes joining. */
  lemma {:induction false} SplitJoin(p: Path)
    requires p != [] && forall i :: 0 <= i < |p| ==> SlashFree(p[i])
    ensures Split(Join(p)) == p
  {
    if |p| == 1 {
      SplitAppends(p[0], "");
    } else {
      SplitJoin(p[1..]);
      SplitAppends(p[0], Join(p[1..]));
    }
  }

  lemma {:induction false} SplitIsSlashFree(s: string)
    ensures forall i :: 0 <= i < |Split(s)| ==> SlashFree(Split(s)[i])
    ensures Join(Split(s)) == s
  {
    if s != "" {
      SplitIsSlashFree(s[1..]);
      var rest := Split(s[1..]);
      if s[0] == '/' {
        assert ([""] + rest)[1..] == rest;
      } else if |rest| > 1 {
        assert ([[s[0]] + rest[0]] + rest[1..])[1..] == rest[1..];
      }
    }
  }

  lemma SplitStep(s: string)
    requires s != ""
    ensures var rest := Split(s[1..]);
            Split(s) == if s[0] == '/' then [""] + rest else [[s[0]] + rest[0]] + rest[1..]
  {
  }

  predicate InSome(parts: seq<string>, c: char) {
    exists i :: 0 <= i < |parts| && c in parts[i]
  }

  /** One more character in front of a split path. */
  lemma InSomeStep(first: char, rest: seq<string>, c: char)
    requires rest != []
    ensures InSome([""] + rest, c) <==> InSome(rest, c)
    ensures InSome([[first] + rest[0]] + rest[1..], c) <==> c == first || InSome(rest, c)
  {
    InSomeFront("", rest, c);
    InSomeFront([first] + rest[0], rest[1..], c);
    InSomeFront(rest[0], rest[1..], c);
    assert [rest[0]] + rest[1..] == rest;
    assert c in [first] + rest[0] <==> c == first || c in rest[0];
  }

  lemma InSomeFront(part: string, rest: seq<string>, c: char)
    ensures InSome([part] + rest, c) <==> c in part || InSome(rest, c)
  {
    var all := [part] + rest;
    assert all[0] == part && forall i :: 0 <= i < |rest| ==> all[i + 1] == rest[i];
    if i :| 0 <= i < |all| && c in all[i] {
      assert i > 0 ==> c in rest[i - 1];
    }
  }

  /** Every character but the slash is in the path exactly if it is in a component. */
  lemma {:induction false} CharactersOfParts(s: string, c: char)
    requires c != '/'
    ensures c in s <==> InSome(Split(s), c)
  {
    if s != "" {
      SplitStep(s);
      CharactersOfParts(s[1..], c);
      assert c in s <==> c == s[0] || c in s[1..];
      hide Split, InSome;
      InSomeStep(s[0], Split(s[1..]), c);
    }
  }

  lemma {:induction false} StemMeans(n: Name)
    ensures Stem(n) <= n && '.' !in Stem(n) && (Stem(n) == n || n[|Stem(n)|] == '.')
  {
    if n != "" && n[0] != '.' {
      StemMeans(n[1..]);
    }
  }

  /** The rules on one component, character by character. */
  predicate Acceptable(upper: Upper, n: Name) {
    && n !in {"", ".", ".."} && n[|n| - 1] != '.' && n[|n| - 1] != ' '
    && (var device := upper(Stem(n));
        && device != "CON" && device != "PRN" && device != "AUX" && device != "NUL"
        && !(device != "" && device[..|device| - 1] in {"COM", "LPT"} && device[|device| - 1] in {'1', '2', '3', '4', '5', '6', '7', '8', '9'}))
    && '<' !in n && '>' !in n && '"' !in n && '|' !in n && '?' !in n && '*' !in n
    && forall c :: c in n ==> c as int >= 32
  }

  lemma ComponentMeans(upper: Upper, n: Name)
    ensures Component(upper, n) <==> Acceptable(upper, n) && '\\' !in n && ':' !in n && '\0' !in n
  {
    hide Stem;
  }

  /** A path is usable exactly if no character in it is forbidden everywhere and each part between its
      slashes is acceptable. */
  lemma UsablePathMeans(upper: Upper, path: string)
    ensures RelativeParts(upper, path).Some? <==>
            && '\\' !in path && ':' !in path && '\0' !in path
            && forall i :: 0 <= i < |Split(path)| ==> Acceptable(upper, Split(path)[i])
    ensures RelativeParts(upper, path).Some? ==> RelativeParts(upper, path).value == Split(path)
  {
    hide Split, Component, Acceptable;
    CharactersOfParts(path, '\\');
    CharactersOfParts(path, ':');
    CharactersOfParts(path, '\0');
    forall i | 0 <= i < |Split(path)|
      ensures Component(upper, Split(path)[i]) <==>
              Acceptable(upper, Split(path)[i])
              && '\\' !in Split(path)[i] && ':' !in Split(path)[i] && '\0' !in Split(path)[i]
    {
      ComponentMeans(upper, Split(path)[i]);
    }
  }

  // ----- case folding -----

  function Fold(fold: CaseFold, s: string): string {
    if s == "" then "" else fold(s[0]) + Fold(fold, s[1..])
  }

  /** Folding leaves slashes alone and makes none. */
  ghost predicate KeepsSlashes(fold: CaseFold) {
    fold('/') == "/" && forall c :: c != '/' ==> '/' !in fold(c)
  }

  function FoldParts(fold: CaseFold, p: Path): Path {
    seq(|p|, i requires 0 <= i < |p| => Fold(fold, p[i]))
  }

  lemma {:induction false} FoldConcat(fold: CaseFold, a: string, b: string)
    ensures Fold(fold, a + b) == Fold(fold, a) + Fold(fold, b)
  {
    if a == "" {
      assert a + b == b;
    } else {
      FoldConcat(fold, a[1..], b);
      assert (a + b)[0] == a[0] && (a + b)[1..] == a[1..] + b;
      assert fold(a[0]) + (Fold(fold, a[1..]) + Fold(fold, b)) == Fold(fold, a) + Fold(fold, b);
    }
  }

  lemma {:induction false} FoldIsSlashFree(fold: CaseFold, n: Name)
    requires KeepsSlashes(fold) && SlashFree(n)
    ensures SlashFree(Fold(fold, n))
  {
    if n != "" {
      assert n[0] in n;
      FoldIsSlashFree(fold, n[1..]);
    }
  }

  lemma {:induction false} FoldJoin(fold: CaseFold, p: Path)
    requires KeepsSlashes(fold)
    ensures Fold(fold, Join(p)) == Join(FoldParts(fold, p))
  {
    if |p| > 1 {
      FoldJoin(fold, p[1..]);
      FoldConcat(fold, p[0] + "/", Join(p[1..]));
      FoldConcat(fold, p[0], "/");
      assert Fold(fold, "/") == "/" + Fold(fold, "/"[1..]);
      assert FoldParts(fold, p)[1..] == FoldParts(fold, p[1..]);
      assert p[0] + "/" + Join(p[1..]) == Join(p);
    }
  }

  /** The key under which the alias table files a prefix. */
  function Key(fold: CaseFold, p: Path): string {
    Fold(fold, Join(p))
  }

  predicate Proper(p: Path) {
    p != [] && forall i :: 0 <= i < |p| ==> SlashFree(p[i])
  }

  /** Comparing folded joined prefixes is comparing them component by component. */
  lemma KeysCompareParts(fold: CaseFold, p: Path, q: Path)
    requires KeepsSlashes(fold) && Proper(p) && Proper(q)
    ensures Key(fold, p) == Key(fold, q) <==> FoldParts(fold, p) == FoldParts(fold, q)
    ensures Join(p) == Join(q) <==> p == q
  {
    FoldJoin(fold, p);
    FoldJoin(fold, q);
    forall i | 0 <= i < |p| { FoldIsSlashFree(fold, p[i]); }
    forall i | 0 <= i < |q| { FoldIsSlashFree(fold, q[i]); }
    SplitJoin(FoldParts(fold, p));
    SplitJoin(FoldParts(fold, q));
    SplitJoin(p);
    SplitJoin(q);
  }

  // ----- what a listing must satisfy -----

  predicate Hex(c: char) {
    '0' <= c <= '9' || 'a' <= c <= 'f'
  }

  predicate IsOid(s: string) {
    (|s| == 40 || |s| == 64) && forall c :: c in s ==> Hex(c)
  }

  predicate Regular(r: Record) {
    r.Record? && r.kind == "blob" && (r.mode == "100644" || r.mode == "100755") && IsOid(r.oid)
  }

  predicate Usable(upper: Upper, r: Record) {
    Regular(r) && RelativeParts(upper, r.path).Some?
  }

  function ToEntry(upper: Upper, r: Record): Entry
    requires Usable(upper, r)
  {
    Entry(RelativeParts(upper, r.path).value, r.mode, r.oid)
  }

  predicate AllUsable(upper: Upper, records: seq<Record>) {
    forall i :: 0 <= i < |records| ==> Usable(upper, records[i])
  }

  function ToEntries(upper: Upper, records: seq<Record>): (entries: seq<Entry>)
    requires AllUsable(upper, records)
    ensures |entries| == |records|
  {
    seq(|records|, i requires 0 <= i < |records| => ToEntry(upper, records[i]))
  }

  /** No two prefixes, of the same path or of different ones, fold alike without being alike. */
  ghost predicate NoAliases(fold: CaseFold, entries: seq<Entry>) {
    forall i, m, j, n :: At(entries, i, m) && At(entries, j, n) ==>
                           !Aliases(fold, Prefix(entries, i, m), Prefix(entries, j, n))
  }

  predicate Aliases(fold: CaseFold, p: Path, q: Path) {
    FoldParts(fold, p) == FoldParts(fold, q) && p != q
  }

  predicate At(entries: seq<Entry>, i: int, m: int) {
    0 <= i < |entries| && 0 < m <= |entries[i].path|
  }

  function Prefix(entries: seq<Entry>, i: int, m: int): Path
    requires At(entries, i, m)
  {
    entries[i].path[..m]
  }

  // ----- the check -----

  /** Position `(i, m)` comes before `(j, n)` in the order in which prefixes are filed. */
  predicate Filed(i: int, m: int, j: int, n: int) {
    i < j || (i == j && m < n)
  }

  /** The alias table after filing every prefix before `(j, n)`. */
  ghost predicate Files(fold: CaseFold, aliases: map<string, string>, entries: seq<Entry>, j: int, n: int) {
    && (forall i, m :: At(entries, i, m) && Filed(i, m, j, n) ==>
          Key(fold, Prefix(entries, i, m)) in aliases && aliases[Key(fold, Prefix(entries, i, m))] == Join(Prefix(entries, i, m)))
    && (forall key :: key in aliases ==>
          exists i, m :: At(entries, i, m) && Filed(i, m, j, n) && key == Key(fold, Prefix(entries, i, m)))
  }

  ghost predicate Clean(entries: seq<Entry>) {
    forall i :: 0 <= i < |entries| ==> Proper(entries[i].path)
  }

  lemma RelativePartsAreProper(upper: Upper, path: string)
    requires RelativeParts(upper, path).Some?
    ensures Proper(RelativeParts(upper, path).value)
  {
    SplitIsSlashFree(path);
  }

  /** No prefix filed before `(j, n)` is an alias of another. */
  ghost predicate NoAliasesBefore(fold: CaseFold, entries: seq<Entry>, j: int, n: int) {
    forall i, m, k, l :: At(entries, i, m) && At(entries, k, l) && Filed(i, m, k, l) && Filed(k, l, j, n) ==>
                           !Aliases(fold, Prefix(entries, i, m), Prefix(entries, k, l))
  }

  /** Filing one prefix: the table finds an alias exactly if there is one. */
  lemma FileOne(fold: CaseFold, aliases: map<string, string>, entries: seq<Entry>, j: int, n: int)
    requires KeepsSlashes(fold) && Clean(entries) && At(entries, j, n)
    requires Files(fold, aliases, entries, j, n) && NoAliasesBefore(fold, entries, j, n)
    ensures var prefix := Join(Prefix(entries, j, n));
            var folded := Fold(fold, prefix);
            if folded in aliases && aliases[folded] != prefix then !NoAliases(fold, entries)
            else Files(fold, aliases[folded := prefix], entries, j, n + 1) && NoAliasesBefore(fold, entries, j, n + 1)
  {
    hide FoldParts, Fold, Join;
    var p := Prefix(entries, j, n);
    var folded := Key(fold, p);
    forall i, m | At(entries, i, m)
      ensures folded == Key(fold, Prefix(entries, i, m)) <==> FoldParts(fold, Prefix(entries, i, m)) == FoldParts(fold, p)
      ensures Join(Prefix(entries, i, m)) == Join(p) <==> Prefix(entries, i, m) == p
    {
      KeysCompareParts(fold, Prefix(entries, i, m), p);
    }
    if folded in aliases && aliases[folded] != Join(p) {
      var i, m :| At(entries, i, m) && Filed(i, m, j, n) && folded == Key(fold, Prefix(entries, i, m));
      assert Aliases(fold, Prefix(entries, i, m), Prefix(entries, j, n));
    } else {
      assert forall i, m :: At(entries, i, m) && Filed(i, m, j, n) ==> !Aliases(fold, Prefix(entries, i, m), p);
      assert forall i, m :: Filed(i, m, j, n + 1) <==> Filed(i, m, j, n) || (i == j && m == n);
    }
  }

  /** Filing the prefixes of the last path of a listing. */
  method FileLast(fold: CaseFold, aliases: map<string, string>, entries: seq<Entry>) returns (ok: bool, filed: map<string, string>)
    requires KeepsSlashes(fold) && Clean(entries) && entries != []
    requires Files(fold, aliases, entries, |entries| - 1, 1) && NoAliasesBefore(fold, entries, |entries| - 1, 1)
    ensures if ok then Files(fold, filed, entries, |entries|, 1) && NoAliasesBefore(fold, entries, |entries|, 1)
            else !NoAliases(fold, entries)
  {
    hide Files, NoAliases, NoAliasesBefore, Fold, Join;
    var j := |entries| - 1;
    var parts := entries[j].path;
    filed := aliases;
    for n := 1 to |parts| + 1
      invariant Files(fold, filed, entries, j, n) && NoAliasesBefore(fold, entries, j, n)
    {
      var prefix := Join(parts[..n]);
      var folded := Fold(fold, prefix);
      FileOne(fold, filed, entries, j, n);
      if folded in filed && filed[folded] != prefix {
        return false, filed;
      }
      filed := filed[folded := prefix];
    }
    ok := true;
    NextEntry(fold, filed, entries);
  }

  lemma NextEntry(fold: CaseFold, aliases: map<string, string>, entries: seq<Entry>)
    requires entries != []
    requires var j := |entries| - 1;
             var n := |entries[j].path| + 1;
             Files(fold, aliases, entries, j, n) && NoAliasesBefore(fold, entries, j, n)
    ensures Files(fold, aliases, entries, |entries|, 1) && NoAliasesBefore(fold, entries, |entries|, 1)
  {
    var j := |entries| - 1;
    assert forall i, m :: At(entries, i, m) ==> Filed(i, m, j, |entries[j].path| + 1) && Filed(i, m, |entries|, 1);
  }

  /** The state between two records. */
  ghost predicate Checked(fold: CaseFold, aliases: map<string, string>, entries: seq<Entry>) {
    Clean(entries) && Files(fold, aliases, entries, |entries|, 1) && NoAliasesBefore(fold, entries, |entries|, 1)
  }

  lemma CheckedNothing(fold: CaseFold)
    ensures Checked(fold, map[], [])
  {
  }

  lemma CheckedExtends(fold: CaseFold, aliases: map<string, string>, entries: seq<Entry>, e: Entry)
    requires Checked(fold, aliases, entries) && Proper(e.path)
    ensures Clean(entries + [e])
    ensures Files(fold, aliases, entries + [e], |entries|, 1) && NoAliasesBefore(fold, entries + [e], |entries|, 1)
  {
    hide Aliases, Key, Join;
    var more := entries + [e];
    assert forall i, m :: Filed(i, m, |entries|, 1) && At(more, i, m) ==>
                            At(entries, i, m) && Prefix(entries, i, m) == Prefix(more, i, m);
    assert forall i, m :: At(entries, i, m) ==>
                            At(more, i, m) && Prefix(entries, i, m) == Prefix(more, i, m);
  }

  lemma CheckedIsNoAliases(fold: CaseFold, aliases: map<string, string>, entries: seq<Entry>)
    requires Checked(fold, aliases, entries)
    ensures NoAliases(fold, entries)
  {
    forall i, m, k, l | At(entries, i, m) && At(entries, k, l)
      ensures !Aliases(fold, Prefix(entries, i, m), Prefix(entries, k, l))
    {
      if Filed(i, m, k, l) {
        assert Filed(k, l, |entries|, 1);
      } else if Filed(k, l, i, m) {
        assert Filed(i, m, |entries|, 1);
        assert !Aliases(fold, Prefix(entries, k, l), Prefix(entries, i, m));
      }
    }
  }

  lemma AliasesStay(fold: CaseFold, some: seq<Entry>, all: seq<Entry>)
    requires some <= all && NoAliases(fold, all)
    ensures NoAliases(fold, some)
  {
    hide Aliases;
    assert forall i, m :: At(some, i, m) ==> At(all, i, m) && Prefix(some, i, m) == Prefix(all, i, m);
  }

  /** The first thing that is wrong with a record. */
  predicate Defective(upper: Upper, r: Record, error: Error) {
    if r.Malformed? then error == MalformedRecord
    else if !RegularBlob(r) then error == NonRegular
    else error == UnsafePath && exists i :: 0 <= i < |Split(r.path)| && !Component(upper, Split(r.path)[i])
  }

  /** A file of one of the two modes, with an id of either length in lower-case hexadecimal digits. */
  predicate RegularBlob(r: Record) {
    && r.Record? && r.kind == "blob" && r.mode in {"100644", "100755"}
    && |r.oid| in {40, 64} && forall c :: c in r.oid ==> c in "0123456789abcdef"
  }

  lemma RegularMeans(r: Record)
    ensures Regular(r) <==> RegularBlob(r)
  {
    if r.Record? {
      forall c | c in r.oid
        ensures Hex(c) <==> c in "0123456789abcdef"
      {
        HexMeans(c);
      }
    }
    hide Hex;
  }

  lemma HexMeans(c: char)
    ensures Hex(c) <==> c in "0123456789abcdef"
  {
    var digits := "0123456789abcdef";
    if '0' <= c <= '9' {
      assert digits[c as int - 48] == c;
    } else if 'a' <= c <= 'f' {
      assert digits[c as int - 87] == c;
    }
  }

  method ReadRecord(upper: Upper, record: Record) returns (r: Result<Entry, Error>)
    ensures r.Ok? <==> Usable(upper, record)
    ensures r.Ok? ==> r.value == ToEntry(upper, record) && Proper(r.value.path)
    ensures r.Err? ==> Defective(upper, record, r.error)
  {
    RegularMeans(record);
    if record.Malformed? {
      return Err(MalformedRecord);
    }
    if record.kind != "blob" || record.mode !in {"100644", "100755"} || !IsOid(record.oid) {
      return Err(NonRegular);
    }
    var parts := RelativeParts(upper, record.path);
    if parts.None? {
      hide Component, Split;
      return Err(UnsafePath);
    }
    RelativePartsAreProper(upper, record.path);
    return Ok(Entry(parts.value, record.mode, record.oid));
  }

  /** The first record at which a listing is refused, and why. */
  ghost predicate Refuses(fold: CaseFold, upper: Upper, records: seq<Record>, k: nat, error: Error)
    requires k < |records|
  {
    && AllUsable(upper, records[..k]) && NoAliases(fold, ToEntries(upper, records[..k]))
    && if Usable(upper, records[k]) then
         error == CaseAlias && !NoAliases(fold, ToEntries(upper, records[..k]) + [ToEntry(upper, records[k])])
       else Defective(upper, records[k], error)
  }

  /** A listing is accepted exactly when every record is a regular blob with a safe path, no two
      prefixes are case-folding aliases, and there is an entry at all. */
  method ReadEntries(fold: CaseFold, upper: Upper, records: seq<Record>) returns (r: Result<seq<Entry>, Error>)
    requires KeepsSlashes(fold)
    ensures r.Ok? <==> records != [] && AllUsable(upper, records) && NoAliases(fold, ToEntries(upper, records))
    ensures r.Ok? ==> r.value == ToEntries(upper, records) && Clean(r.value)
    ensures r.Err? ==> if records == [] then r.error == EmptyTree
                       else exists k :: 0 <= k < |records| && Refuses(fold, upper, records, k, r.error)
  {
    hide Checked, NoAliases, Usable, ToEntry, Defective;
    var entries: seq<Entry>, aliases: map<string, string> := [], map[];
    CheckedNothing(fold);
    for k := 0 to |records|
      invariant AllUsable(upper, records[..k]) && entries == ToEntries(upper, records[..k])
      invariant Checked(fold, aliases, entries)
    {
      CheckedIsNoAliases(fold, aliases, entries);
      var read := ReadRecord(upper, records[k]);
      if read.Err? {
        assert Refuses(fold, upper, records, k, read.error);
        return Err(read.error);
      }
      CheckedExtends(fold, aliases, entries, read.value);
      var more := entries + [read.value];
      assert more == ToEntries(upper, records[..k + 1]);
      var ok, filed := FileLast(fold, aliases, more);
      if !ok {
        if AllUsable(upper, records) && NoAliases(fold, ToEntries(upper, records)) {
          AliasesStay(fold, more, ToEntries(upper, records));
        }
        assert Refuses(fold, upper, records, k, CaseAlias);
        return Err(CaseAlias);
      }
      entries, aliases := more, filed;
      CheckedMeans(fold, aliases, entries);
    }
    assert records[..|records|] == records;
    CheckedIsNoAliases(fold, aliases, entries);
    CheckedMeans(fold, aliases, entries);
    if entries == [] {
      return Err(EmptyTree);
    }
    return Ok(entries);
  }

  lemma CheckedMeans(fold: CaseFold, aliases: map<string, string>, entries: seq<Entry>)
    ensures Checked(fold, aliases, entries) <==>
            Clean(entries) && Files(fold, aliases, entries, |entries|, 1) && NoAliasesBefore(fold, entries, |entries|, 1)
  {
  }
}
