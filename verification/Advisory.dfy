/** The human-readable manifest: printing it, its lenient and its strict parser, the merge of three
    of them, and the check that allows the rows in any order. */
module Advisory {
  import opened Core
  import opened Ordering
  import opened Manifest

  // ----- lines, as text splitting sees them -----

  /** Every character that ends a line. */
  predicate IsBreak(c: char) {
    c in {'\n', '\r', '\U{0B}', '\U{0C}', '\U{1C}', '\U{1D}', '\U{1E}', '\U{85}', '\U{2028}', '\U{2029}'}
  }

  predicate BreakFree(s: string) {
    forall c :: c in s ==> !IsBreak(c)
  }

  predicate AllBreakFree(lines: seq<string>) {
    forall i :: 0 <= i < |lines| ==> BreakFree(lines[i])
  }

  /** Where the first line ends. */
  function LineEnd(s: string): (n: nat)
    ensures n <= |s| && BreakFree(s[..n]) && (n < |s| ==> IsBreak(s[n]))
  {
    if s == "" || IsBreak(s[0]) then 0 else 1 + LineEnd(s[1..])
  }

  /** How long the line break is; a return and a newline are one. */
  function BreakLength(s: string): (n: nat)
    ensures n <= |s| && (n == 0 <==> s == "")
  {
    if s == "" then 0 else if s[0] == '\r' && |s| > 1 && s[1] == '\n' then 2 else 1
  }

  function SplitLines(s: string): seq<string> {
    if s == "" then []
    else
      var n := LineEnd(s);
      assert n < |s| ==> s[n..] != "";
      [s[..n]] + SplitLines(s[n..][BreakLength(s[n..])..])
  }

  function JoinLines(lines: seq<string>): string {
    if lines == [] then "" else lines[0] + "\n" + JoinLines(lines[1..])
  }

  predicate EndsInNewline(s: string) {
    s != "" && s[|s| - 1] == '\n'
  }

  lemma {:induction false} FirstLineEnd(l: string, c: char, rest: string)
    requires BreakFree(l) && IsBreak(c)
    ensures LineEnd(l + [c] + rest) == |l|
  {
    if l == "" {
      assert (l + [c] + rest)[0] == c;
    } else {
      assert l[0] in l && (l + [c] + rest)[1..] == l[1..] + [c] + rest;
      FirstLineEnd(l[1..], c, rest);
    }
  }

  lemma SplitFirstAt(l: string, c: char, rest: string)
    requires BreakFree(l) && IsBreak(c) && c != '\r'
    ensures SplitLines(l + [c] + rest) == [l] + SplitLines(rest)
  {
    var s := l + [c] + rest;
    FirstLineEnd(l, c, rest);
    assert s[..|l|] == l && s[|l|..] == [c] + rest && ([c] + rest)[1..] == rest;
  }

  /** The characters that end a line, by their code points. */
  lemma BreaksByCode(c: char)
    ensures IsBreak(c) <==> c as int in {10, 11, 12, 13, 28, 29, 30, 133, 8232, 8233}
  {
  }

  /** A return and a newline after it end one line. */
  lemma ReturnAndNewline(l: string, rest: string)
    requires BreakFree(l)
    ensures SplitLines(l + ['\r'] + (['\n'] + rest)) == [l] + SplitLines(rest)
  {
    var s := l + ['\r'] + (['\n'] + rest);
    FirstLineEnd(l, '\r', ['\n'] + rest);
    assert s[..|l|] == l && s[|l|..] == ['\r', '\n'] + rest && (['\r', '\n'] + rest)[2..] == rest;
  }

  /** Splitting undoes joining. */
  lemma {:induction false} SplitJoin(lines: seq<string>)
    requires AllBreakFree(lines)
    ensures SplitLines(JoinLines(lines)) == lines
  {
    if lines != [] {
      SplitJoin(lines[1..]);
      SplitFirstAt(lines[0], '\n', JoinLines(lines[1..]));
    }
  }

  /** No character but the newline breaks a line. */
  predicate OnlyNewlines(s: string) {
    forall c :: c in s && IsBreak(c) ==> c == '\n'
  }

  /** Joining undoes splitting where only newlines break lines and the last line is ended. */
  lemma {:induction false} JoinSplit(s: string)
    requires OnlyNewlines(s) && (s == "" || EndsInNewline(s))
    ensures JoinLines(SplitLines(s)) == s
    decreases |s|
  {
    if s != "" {
      var n := LineEnd(s);
      assert s[|s| - 1] in s && s[..|s|] == s;
      assert n < |s|;
      var rest := s[n..][1..];
      assert s[n] in s && s[n] == '\n' && BreakLength(s[n..]) == 1;
      assert s == s[..n] + "\n" + rest;
      assert OnlyNewlines(rest) && (rest == "" || EndsInNewline(rest));
      JoinSplit(rest);
      assert SplitLines(s) == [s[..n]] + SplitLines(rest);
    }
  }

  lemma {:induction false} JoinedHasNewlines(lines: seq<string>)
    requires AllBreakFree(lines)
    ensures OnlyNewlines(JoinLines(lines))
    ensures lines != [] ==> EndsInNewline(JoinLines(lines))
  {
    if lines != [] {
      JoinedHasNewlines(lines[1..]);
      assert JoinLines(lines) == lines[0] + "\n" + JoinLines(lines[1..]);
      if |lines| == 1 {
        assert JoinLines(lines[1..]) == "";
      }
    }
  }

  // ----- titles and rows -----

  /** What counts as a decimal digit; it may include digits of other scripts. */
  type Digits = char -> bool

  ghost predicate Sane(digit: Digits) {
    !digit('.') && forall c :: digit(c) ==> !IsBreak(c)
  }

  /** Three runs of digits separated by dots. */
  predicate IsVersion(digit: Digits, v: string) {
    VersionFrom(digit, v, 0, true)
  }

  predicate VersionFrom(digit: Digits, v: string, dots: nat, start: bool) {
    if v == "" then dots == 2 && !start
    else if digit(v[0]) then VersionFrom(digit, v[1..], dots, false)
    else v[0] == '.' && !start && VersionFrom(digit, v[1..], dots + 1, true)
  }

  lemma {:induction false} VersionIsBreakFree(digit: Digits, v: string, dots: nat, start: bool)
    requires Sane(digit) && VersionFrom(digit, v, dots, start)
    ensures BreakFree(v)
  {
    if v != "" {
      if digit(v[0]) {
        VersionIsBreakFree(digit, v[1..], dots, false);
      } else {
        VersionIsBreakFree(digit, v[1..], dots + 1, true);
      }
      assert forall c :: c in v ==> c == v[0] || c in v[1..];
    }
  }

  predicate AllDigits(digit: Digits, s: string) {
    s != "" && forall c :: c in s ==> digit(c)
  }

  predicate DigitsOnly(digit: Digits, s: string) {
    forall c :: c in s ==> digit(c)
  }

  lemma {:induction false} FewDots(digit: Digits, v: string, dots: nat, start: bool)
    requires VersionFrom(digit, v, dots, start)
    ensures dots <= 2
  {
    if v != "" {
      if digit(v[0]) {
        FewDots(digit, v[1..], dots, false);
      } else {
        FewDots(digit, v[1..], dots + 1, true);
      }
    }
  }

  /** The digits up to the next dot or the end. */
  lemma {:induction false} TakeRun(digit: Digits, v: string, dots: nat, start: bool) returns (a: string, rest: string)
    requires Sane(digit) && VersionFrom(digit, v, dots, start)
    ensures DigitsOnly(digit, a) && (a != "" || !start)
    ensures (v == a && dots == 2) || (v == a + "." + rest && VersionFrom(digit, rest, dots + 1, true))
  {
    if v == "" {
      a, rest := "", "";
    } else if digit(v[0]) {
      var more, after := TakeRun(digit, v[1..], dots, false);
      a, rest := [v[0]] + more, after;
      assert v == [v[0]] + v[1..];
    } else {
      a, rest := "", v[1..];
      assert v == "." + rest;
    }
  }

  lemma {:induction false} SkipRun(digit: Digits, a: string, rest: string, dots: nat, start: bool)
    requires Sane(digit) && DigitsOnly(digit, a) && (a != "" || !start)
    ensures VersionFrom(digit, a + "." + rest, dots, start) <==> VersionFrom(digit, rest, dots + 1, true)
    ensures VersionFrom(digit, a, dots, start) <==> dots == 2
  {
    if a == "" {
      assert a + "." + rest == "." + rest && ("." + rest)[1..] == rest;
    } else {
      assert a[0] in a && (a + "." + rest)[0] == a[0] && (a + "." + rest)[1..] == a[1..] + "." + rest;
      SkipRun(digit, a[1..], rest, dots, false);
    }
  }

  predicate ThreeRuns(digit: Digits, v: string, a: string, b: string, c: string) {
    AllDigits(digit, a) && AllDigits(digit, b) && AllDigits(digit, c) && v == a + "." + (b + "." + c)
  }

  lemma VersionHasRuns(digit: Digits, v: string) returns (a: string, b: string, c: string)
    requires Sane(digit) && IsVersion(digit, v)
    ensures ThreeRuns(digit, v, a, b, c)
  {
    var rest, last, none;
    a, rest := TakeRun(digit, v, 0, true);
    b, last := TakeRun(digit, rest, 1, true);
    c, none := TakeRun(digit, last, 2, true);
    if last != c {
      FewDots(digit, none, 3, true);
    }
  }

  lemma RunsMakeVersion(digit: Digits, v: string, a: string, b: string, c: string)
    requires Sane(digit) && ThreeRuns(digit, v, a, b, c)
    ensures IsVersion(digit, v)
  {
    hide VersionFrom;
    SkipRun(digit, a, b + "." + c, 0, true);
    SkipRun(digit, b, c, 1, true);
    SkipRun(digit, c, "", 2, true);
  }

  /** A version is three runs of digits, none empty, with dots between them. */
  lemma VersionMeans(digit: Digits, v: string)
    requires Sane(digit)
    ensures IsVersion(digit, v) <==> exists a, b, c :: ThreeRuns(digit, v, a, b, c)
  {
    hide VersionFrom, ThreeRuns;
    if IsVersion(digit, v) {
      var a, b, c := VersionHasRuns(digit, v);
    }
    if a, b, c :| ThreeRuns(digit, v, a, b, c) {
      RunsMakeVersion(digit, v, a, b, c);
    }
  }

  const TITLE: string := "# Release manifest \U{2014} "

  /** The version a title line announces. */
  function TitleVersion(digit: Digits, line: string): Option<string> {
    if TITLE <= line && IsVersion(digit, line[|TITLE|..]) then Some(line[|TITLE|..]) else None
  }

  predicate IsDigest(s: string) {
    |s| == 64 && forall c :: c in s ==> '0' <= c <= '9' || 'a' <= c <= 'f'
  }

  const START: string := "| `"
  const MIDDLE: string := "` | `"
  const END: string := "` |"

  function Row(path: string, digest: string): string {
    START + path + MIDDLE + digest + END
  }

  /** A row's path and digest. The path is all that the fixed end leaves over. */
  function ParseRow(line: string): Option<(string, string)> {
    if |line| < 76 then None
    else
      var n := |line| - 72;
      var path, digest := line[3..n], line[n + 5..n + 69];
      if line[..3] == START && line[n..n + 5] == MIDDLE && line[n + 69..] == END && IsDigest(digest) && '\n' !in path
      then Some((path, digest)) else None
  }

  /** A printed row is read back, whatever its path looks like. */
  lemma RowReadsBack(path: string, digest: string)
    requires path != "" && '\n' !in path && IsDigest(digest)
    ensures ParseRow(Row(path, digest)) == Some((path, digest))
  {
    var line := Row(path, digest);
    var n := |line| - 72;
    assert n == 3 + |path|;
    assert line[..3] == START && line[3..n] == path && line[n..n + 5] == MIDDLE;
    assert line[n + 5..n + 69] == digest && line[n + 69..] == END;
  }

  /** Only the printed row is read as that row. */
  lemma RowIsPrinted(line: string)
    ensures ParseRow(line).Some? ==> line == Row(ParseRow(line).value.0, ParseRow(line).value.1)
  {
    if ParseRow(line).Some? {
      var n := |line| - 72;
      assert line == line[..3] + line[3..n] + line[n..n + 5] + line[n + 5..n + 69] + line[n + 69..];
    }
  }

  predicate IsRow(line: string) {
    ParseRow(line).Some?
  }

  function PathOf(line: string): string
    requires IsRow(line)
  {
    ParseRow(line).value.0
  }

  predicate AllRows(lines: seq<string>) {
    forall i :: 0 <= i < |lines| ==> IsRow(lines[i])
  }

  predicate DistinctRows(lines: seq<string>) {
    forall i, j :: 0 <= i < j < |lines| && IsRow(lines[i]) && IsRow(lines[j]) ==> PathOf(lines[i]) != PathOf(lines[j])
  }

  predicate Lists(lines: seq<string>, path: string, digest: string) {
    exists i :: 0 <= i < |lines| && ParseRow(lines[i]) == Some((path, digest))
  }

  /** The index holds exactly what the rows among the lines say. */
  ghost predicate Describes(lines: seq<string>, files: Index) {
    forall p, d :: Lists(lines, p, d) <==> At(files, p) == Some(d)
  }

  lemma DescribesOne(lines: seq<string>, files: Index, others: Index)
    requires Describes(lines, files) && Describes(lines, others)
    ensures files == others
  {
    forall p
      ensures At(files, p) == At(others, p)
    {
      if p in files {
        assert Lists(lines, p, files[p]);
      }
      if p in others {
        assert Lists(lines, p, others[p]);
      }
    }
    SameMap(files, others);
  }

  lemma DescribesSnoc(lines: seq<string>, files: Index, line: string)
    requires Describes(lines, files) && DistinctRows(lines)
    ensures !IsRow(line) ==> Describes(lines + [line], files) && DistinctRows(lines + [line])
    ensures IsRow(line) ==> (DistinctRows(lines + [line]) <==> PathOf(line) !in files)
    ensures IsRow(line) && PathOf(line) !in files ==> Describes(lines + [line], files[PathOf(line) := ParseRow(line).value.1])
  {
    hide ParseRow;
    var more := lines + [line];
    assert more[|lines|] == line && forall i :: 0 <= i < |lines| ==> more[i] == lines[i];
    forall p, d
      ensures Lists(more, p, d) <==> Lists(lines, p, d) || ParseRow(line) == Some((p, d))
    {
    }
    if IsRow(line) {
      var p := PathOf(line);
      assert p in files ==> Lists(lines, p, files[p]);
      if j :| 0 <= j < |lines| && IsRow(lines[j]) && PathOf(lines[j]) == p {
        assert Lists(lines, p, ParseRow(lines[j]).value.1);
      }
    }
  }

  // ----- printing -----

  const CONTENTS: string :=
    "Each content file is " + "SHA-256 listed on " + "its own line in " + "MANIFEST.json and " + "below. The ZIP "
    + "additionally " + "contains " + "MANIFEST.json and " + "this advisory " + "inventory."

  const CAUTION: string :=
    "The machine manifest " + "excludes itself and " + "this human-readable " + "file to avoid " + "recursive hashing. "
    + "An independently " + "approved " + "manifest/ZIP digest " + "establishes the " + "expected bytes; "
    + "these files are not " + "a publisher " + "signature."

  const HEADER_LINES: nat := 8

  function Header(version: string): (r: seq<string>)
    ensures |r| == HEADER_LINES
  {
    [TITLE + version, "", CONTENTS, "", CAUTION, "", "| File | SHA-256 |", "| --- | --- |"]
  }

  function RowLines(keys: seq<string>, files: Index): (r: seq<string>)
    requires forall k :: k in keys ==> k in files
    ensures |r| == |keys|
  {
    seq(|keys|, i requires 0 <= i < |keys| => Row(keys[i], files[keys[i]]))
  }

  ghost function AdvisoryLines(version: string, files: Index): seq<string> {
    KeysInOrderEnumerates(files.Keys);
    Header(version) + RowLines(KeysInOrder(files.Keys), files)
  }

  ghost function Rendered(version: string, files: Index): string {
    JoinLines(AdvisoryLines(version, files))
  }

  method RenderAdvisory(version: string, files: Index) returns (text: string)
    ensures text == Rendered(version, files)
  {
    hide Row, Header, KeysInOrder, Enumerates;
    var keys := SortKeys(files.Keys);
    KeysInOrderEnumerates(files.Keys);
    KeysAreKeys(keys, files);
    var lines := Header(version);
    for i := 0 to |keys|
      invariant lines == Header(version) + RowLines(keys, files)[..i]
    {
      lines := lines + [Row(keys[i], files[keys[i]])];
    }
    assert RowLines(keys, files)[..|keys|] == RowLines(keys, files);
    return JoinLines(lines);
  }

  lemma KeysAreKeys(keys: seq<string>, files: Index)
    requires Enumerates(keys, files.Keys)
    ensures forall k :: k in keys <==> k in files
  {
  }

  /** Paths without line breaks and digests: what the rows can carry. */
  predicate Printable(files: Index) {
    forall p :: p in files ==> p != "" && BreakFree(p) && IsDigest(files[p])
  }

  lemma RowIsBreakFree(path: string, digest: string)
    requires BreakFree(path) && IsDigest(digest)
    ensures BreakFree(Row(path, digest))
  {
    assert BreakFree(START) && BreakFree(MIDDLE) && BreakFree(END);
    assert BreakFree(digest);
  }

  lemma HeaderShape(digit: Digits, version: string)
    requires Sane(digit) && IsVersion(digit, version)
    ensures var header := Header(version);
            && AllBreakFree(header)
            && (forall i :: 0 <= i < HEADER_LINES ==> !IsRow(header[i]))
            && TitleVersion(digit, header[0]) == Some(version)
            && forall i :: 0 < i < HEADER_LINES ==> TitleVersion(digit, header[i]).None?
  {
    hide VersionFrom;
    VersionIsBreakFree(digit, version, 0, true);
    HeaderLines();
    var header := Header(version);
    assert (TITLE + version)[|TITLE|..] == version;
    hide BreakFree;
    forall i | 0 < i < HEADER_LINES
      ensures TitleVersion(digit, header[i]).None?
    {
      assert header[i] == "" || header[i][0] != TITLE[0];
    }
    forall i | 0 <= i < HEADER_LINES
      ensures !IsRow(header[i])
    {
      NoRow(header[i]);
    }
  }

  lemma NoRow(line: string)
    requires |line| < 76 || line[0] != '|'
    ensures !IsRow(line)
  {
    if |line| >= 76 {
      assert line[..3][0] == line[0] && START[0] == '|';
    }
  }

  /** The lines of the header. */
  lemma HeaderLines()
    ensures BreakFree(TITLE) && TITLE[0] == '#'
    ensures BreakFree(CONTENTS) && CONTENTS[0] == 'E' && BreakFree(CAUTION) && CAUTION[0] == 'T'
    ensures BreakFree("| File | SHA-256 |") && BreakFree("| --- | --- |")
  {
    PlainFrame();
    ContentsIsALine();
    CautionIsALine();
    hide BreakFree;
  }

  lemma ContentsIsALine()
    ensures BreakFree(CONTENTS) && CONTENTS[0] == 'E'
  {
    PlainContents();
    MorePlainContents();
    EvenMorePlainContents();
    hide IsBreak;
  }

  lemma CautionIsALine()
    ensures BreakFree(CAUTION) && CAUTION[0] == 'T'
  {
    PlainCaution();
    MorePlainCaution();
    EvenMorePlainCaution();
    hide IsBreak;
  }

  lemma PlainFrame()
    ensures BreakFree(TITLE) && BreakFree("| File | SHA-256 |") && BreakFree("| --- | --- |")
  {
  }

  lemma PlainContents()
    ensures BreakFree("Each content file is ") && BreakFree("SHA-256 listed on ") && BreakFree("its own line in ")
  {
  }

  lemma EvenMorePlainContents()
    ensures BreakFree("MANIFEST.json and ") && BreakFree("below. The ZIP ")
  {
  }

  lemma MorePlainContents()
    ensures BreakFree("additionally ") && BreakFree("contains ") && BreakFree("this advisory ") && BreakFree("inventory.")
  {
  }

  lemma PlainCaution()
    ensures BreakFree("The machine manifest ") && BreakFree("excludes itself and ") && BreakFree("this human-readable ")
    ensures BreakFree("file to avoid ")
  {
  }

  lemma MorePlainCaution()
    ensures BreakFree("recursive hashing. ") && BreakFree("An independently ") && BreakFree("approved ")
    ensures BreakFree("manifest/ZIP digest ")
  {
  }

  lemma EvenMorePlainCaution()
    ensures BreakFree("establishes the ") && BreakFree("expected bytes; ") && BreakFree("these files are not ")
    ensures BreakFree("a publisher ") && BreakFree("signature.")
  {
  }

  lemma RowLinesShape(digit: Digits, keys: seq<string>, files: Index)
    requires Enumerates(keys, files.Keys) && Printable(files)
    ensures var rows := RowLines(keys, files);
            && AllBreakFree(rows) && AllRows(rows) && DistinctRows(rows) && Describes(rows, files)
            && NoDuplicates(rows)
            && forall i :: 0 <= i < |rows| ==> TitleVersion(digit, rows[i]).None?
  {
    var rows := RowLines(keys, files);
    forall i | 0 <= i < |keys|
      ensures BreakFree(rows[i]) && ParseRow(rows[i]) == Some((keys[i], files[keys[i]]))
      ensures TitleVersion(digit, rows[i]).None?
    {
      assert keys[i] in files;
      RowIsBreakFree(keys[i], files[keys[i]]);
      RowReadsBack(keys[i], files[keys[i]]);
      assert rows[i][0] == '|' && TITLE[0] == '#';
    }
    hide Row, ParseRow;
    forall p, d
      ensures Lists(rows, p, d) <==> At(files, p) == Some(d)
    {
      if At(files, p) == Some(d) {
        var i :| 0 <= i < |keys| && keys[i] == p;
        assert ParseRow(rows[i]) == Some((p, d));
      }
    }
  }

  /** The printed manifest line by line. */
  lemma PrintedLines(version: string, files: Index)
    ensures var lines, keys := AdvisoryLines(version, files), KeysInOrder(files.Keys);
            && |lines| == 8 + |keys|
            && lines[0] == "# Release manifest \U{2014} " + version && lines[1] == lines[3] == lines[5] == ""
            && lines[2] == "Each content file is " + "SHA-256 listed on " + "its own line in " + "MANIFEST.json and " + "below. The ZIP "
                           + "additionally " + "contains " + "MANIFEST.json and " + "this advisory " + "inventory."
            && lines[4] == "The machine manifest " + "excludes itself and " + "this human-readable " + "file to avoid "
                           + "recursive hashing. " + "An independently " + "approved " + "manifest/ZIP digest " + "establishes the "
                           + "expected bytes; " + "these files are not " + "a publisher " + "signature."
            && lines[6] == "| File | SHA-256 |" && lines[7] == "| --- | --- |"
            && (forall k :: k in keys ==> k in files)
            && forall i :: 0 <= i < |keys| ==> lines[8 + i] == "| `" + keys[i] + "` | `" + files[keys[i]] + "` |"
  {
    KeysInOrderEnumerates(files.Keys);
    hide KeysInOrder;
    KeysAreKeys(KeysInOrder(files.Keys), files);
  }

  // ----- the parsers -----

  /** The version of the last title. */
  function LastTitle(digit: Digits, lines: seq<string>): Option<string> {
    if lines == [] then None
    else
      var title := TitleVersion(digit, lines[|lines| - 1]);
      if title.Some? then title else LastTitle(digit, lines[..|lines| - 1])
  }

  /** Line `i` is the last title. */
  predicate LastTitleAt(digit: Digits, lines: seq<string>, i: nat, v: string)
    requires i < |lines|
  {
    TitleVersion(digit, lines[i]) == Some(v) && forall j :: i < j < |lines| ==> TitleVersion(digit, lines[j]).None?
  }

  /** The version is that of the last line that is a title. */
  lemma {:induction false} LastTitleMeans(digit: Digits, lines: seq<string>, v: string)
    ensures LastTitle(digit, lines) == Some(v) <==> exists i :: 0 <= i < |lines| && LastTitleAt(digit, lines, i, v)
    ensures LastTitle(digit, lines).None? <==> forall i :: 0 <= i < |lines| ==> TitleVersion(digit, lines[i]).None?
  {
    hide TitleVersion;
    if lines != [] {
      var n := |lines| - 1;
      var before := lines[..n];
      LastTitleMeans(digit, before, v);
      if TitleVersion(digit, lines[n]) == Some(v) {
        assert LastTitleAt(digit, lines, n, v);
      }
      if i :| 0 <= i < n && LastTitleAt(digit, before, i, v) && TitleVersion(digit, lines[n]).None? {
        assert LastTitleAt(digit, lines, i, v);
      }
      if i :| 0 <= i < |lines| && LastTitleAt(digit, lines, i, v) && i < n {
        assert LastTitleAt(digit, before, i, v);
      }
    }
  }

  /** What the lenient parser makes of a text. */
  ghost predicate Loads(digit: Digits, text: string, version: string, files: Index) {
    var lines := SplitLines(text);
    DistinctRows(lines) && LastTitle(digit, lines) == Some(version) && Describes(lines, files)
  }

  /** What the strict parser makes of a text. */
  ghost predicate LoadsStrictly(text: string, header: seq<string>, files: Index) {
    var lines := SplitLines(text);
    && '\r' !in text && EndsInNewline(text)
    && |lines| >= HEADER_LINES && header == lines[..HEADER_LINES]
    && AllRows(lines[HEADER_LINES..]) && DistinctRows(lines[HEADER_LINES..]) && Describes(lines[HEADER_LINES..], files)
  }

  /** The first line that cannot be collected, and why. */
  predicate StopsCollecting(lines: seq<string>, strict: bool, k: nat, error: Error)
    requires k < |lines|
  {
    && DistinctRows(lines[..k]) && (strict ==> AllRows(lines[..k]))
    && if IsRow(lines[k])
       then error == DuplicateEntry && exists j :: 0 <= j < k && IsRow(lines[j]) && PathOf(lines[j]) == PathOf(lines[k])
       else error == MalformedRow && strict
  }

  /** Collecting the rows among some lines. */
  method CollectRows(lines: seq<string>, strict: bool) returns (r: Result<Index, Error>)
    ensures r.Ok? <==> DistinctRows(lines) && (strict ==> AllRows(lines))
    ensures r.Ok? ==> Describes(lines, r.value)
    ensures r.Err? ==> exists k :: 0 <= k < |lines| && StopsCollecting(lines, strict, k, r.error)
  {
    hide Describes, ParseRow;
    var files: Index := map[];
    DescribesNothing();
    for i := 0 to |lines|
      invariant DistinctRows(lines[..i]) && Describes(lines[..i], files) && (strict ==> AllRows(lines[..i]))
    {
      var row := ParseRow(lines[i]);
      assert lines[..i + 1] == lines[..i] + [lines[i]];
      DescribesSnoc(lines[..i], files, lines[i]);
      if row.Some? {
        if row.value.0 in files {
          if DistinctRows(lines) {
            DistinctPrefix(lines, i + 1);
          }
          DescribedTwice(lines, i, files);
          assert StopsCollecting(lines, strict, i, DuplicateEntry);
          return Err(DuplicateEntry);
        }
        files := files[row.value.0 := row.value.1];
      } else if strict {
        assert StopsCollecting(lines, strict, i, MalformedRow);
        return Err(MalformedRow);
      }
    }
    assert lines[..|lines|] == lines;
    return Ok(files);
  }

  lemma DescribedTwice(lines: seq<string>, i: nat, files: Index)
    requires i < |lines| && Describes(lines[..i], files) && IsRow(lines[i]) && PathOf(lines[i]) in files
    ensures exists j :: 0 <= j < i && IsRow(lines[j]) && PathOf(lines[j]) == PathOf(lines[i])
  {
    hide ParseRow;
    var path := PathOf(lines[i]);
    assert Lists(lines[..i], path, files[path]);
    var j :| 0 <= j < i && ParseRow(lines[..i][j]) == Some((path, files[path]));
    assert IsRow(lines[j]) && PathOf(lines[j]) == path;
  }

  lemma DescribesNothing()
    ensures Describes([], map[])
  {
  }

  lemma DistinctPrefix(lines: seq<string>, n: nat)
    requires n <= |lines| && DistinctRows(lines)
    ensures DistinctRows(lines[..n])
  {
    hide IsRow;
  }

  method LoadAdvisory(digit: Digits, text: string) returns (r: Result<(string, Index), Error>)
    ensures r.Ok? <==> DistinctRows(SplitLines(text)) && LastTitle(digit, SplitLines(text)).Some?
    ensures r.Ok? ==> Loads(digit, text, r.value.0, r.value.1)
    ensures r.Err? ==> r.error == if DistinctRows(SplitLines(text)) then TitleMissing else DuplicateEntry
  {
    hide Describes, TitleVersion, SplitLines;
    var lines := SplitLines(text);
    var version: Option<string> := None;
    for i := 0 to |lines|
      invariant version == LastTitle(digit, lines[..i])
    {
      assert lines[..i + 1][..i] == lines[..i];
      var title := TitleVersion(digit, lines[i]);
      if title.Some? {
        version := title;
      }
    }
    assert lines[..|lines|] == lines;
    var files := CollectRows(lines, false);
    if files.Err? {
      return Err(files.error);
    }
    if version.None? {
      return Err(TitleMissing);
    }
    return Ok((version.value, files.value));
  }

  method LoadAdvisoryManifest(text: string) returns (r: Result<(seq<string>, Index), Error>)
    ensures r.Ok? ==> LoadsStrictly(text, r.value.0, r.value.1)
    ensures r.Err? ==> forall header, files :: !LoadsStrictly(text, header, files)
    ensures r == Err(NotLfText) <==> '\r' in text || !EndsInNewline(text)
    ensures r == Err(HeaderIncomplete) <==> '\r' !in text && EndsInNewline(text) && |SplitLines(text)| < 8
    ensures r.Err? && r.error != NotLfText && r.error != HeaderIncomplete ==>
              var rows := SplitLines(text)[8..]; exists k :: 0 <= k < |rows| && StopsCollecting(rows, true, k, r.error)
  {
    hide Describes, SplitLines;
    if '\r' in text || !EndsInNewline(text) {
      return Err(NotLfText);
    }
    var lines := SplitLines(text);
    if |lines| < HEADER_LINES {
      return Err(HeaderIncomplete);
    }
    var files := CollectRows(lines[HEADER_LINES..], true);
    if files.Err? {
      return Err(files.error);
    }
    return Ok((lines[..HEADER_LINES], files.value));
  }

  // ----- printing and parsing undo each other -----

  lemma RenderedLinesBack(digit: Digits, version: string, files: Index)
    requires Sane(digit) && IsVersion(digit, version) && Printable(files)
    ensures SplitLines(Rendered(version, files)) == AdvisoryLines(version, files)
    ensures EndsInNewline(Rendered(version, files)) && OnlyNewlines(Rendered(version, files))
  {
    hide Row, SplitLines, JoinLines, Enumerates, KeysInOrder;
    HeaderShape(digit, version);
    KeysInOrderEnumerates(files.Keys);
    RowLinesShape(digit, KeysInOrder(files.Keys), files);
    SplitJoin(AdvisoryLines(version, files));
    JoinedHasNewlines(AdvisoryLines(version, files));
  }

  /** The title and the rows of header lines followed by rows. */
  lemma HeadedRows(digit: Digits, header: seq<string>, rows: seq<string>, files: Index)
    requires |header| == HEADER_LINES && (forall i :: 0 <= i < HEADER_LINES ==> !IsRow(header[i]))
    requires DistinctRows(rows) && Describes(rows, files)
    ensures DistinctRows(header + rows) && Describes(header + rows, files)
  {
    hide IsRow, ParseRow;
    var lines := header + rows;
    assert forall i :: HEADER_LINES <= i < |lines| ==> lines[i] == rows[i - HEADER_LINES];
    assert forall i :: 0 <= i < HEADER_LINES ==> lines[i] == header[i] && !IsRow(lines[i]);
    forall p, d
      ensures Lists(lines, p, d) <==> Lists(rows, p, d)
    {
      HeadedLists(header, rows, p, d);
    }
  }

  lemma HeadedLists(header: seq<string>, rows: seq<string>, p: string, d: string)
    requires forall i :: 0 <= i < |header| ==> !IsRow(header[i])
    ensures Lists(header + rows, p, d) <==> Lists(rows, p, d)
  {
    hide ParseRow;
    var lines := header + rows;
    assert forall i :: 0 <= i < |lines| ==> lines[i] == if i < |header| then header[i] else rows[i - |header|];
    if i :| 0 <= i < |rows| && ParseRow(rows[i]) == Some((p, d)) {
      assert lines[|header| + i] == rows[i];
    }
    if i :| 0 <= i < |lines| && ParseRow(lines[i]) == Some((p, d)) {
      assert IsRow(lines[i]);
    }
  }

  lemma {:induction false} NoMoreTitles(digit: Digits, lines: seq<string>, rows: seq<string>)
    requires forall i :: 0 <= i < |rows| ==> TitleVersion(digit, rows[i]).None?
    ensures LastTitle(digit, lines + rows) == LastTitle(digit, lines)
  {
    hide TitleVersion;
    if rows == [] {
      assert lines + rows == lines;
    } else {
      assert (lines + rows)[..|lines + rows| - 1] == lines + rows[..|rows| - 1];
      NoMoreTitles(digit, lines, rows[..|rows| - 1]);
    }
  }

  /** Both parsers recover exactly what was printed, and nothing else. */
  lemma PrintedIsRead(digit: Digits, version: string, files: Index)
    requires Sane(digit) && IsVersion(digit, version) && Printable(files)
    ensures forall v, f :: Loads(digit, Rendered(version, files), v, f) <==> v == version && f == files
    ensures forall h, f :: LoadsStrictly(Rendered(version, files), h, f) <==> h == Header(version) && f == files
  {
    hide Row, SplitLines, TitleVersion, Describes, Printable, IsRow, Header, Rendered;
    var text, header := Rendered(version, files), Header(version);
    KeysInOrderEnumerates(files.Keys);
    var rows := RowLines(KeysInOrder(files.Keys), files);
    HeaderShape(digit, version);
    RowLinesShape(digit, KeysInOrder(files.Keys), files);
    RenderedLinesBack(digit, version, files);
    HeadedRows(digit, header, rows, files);
    NoMoreTitles(digit, header, rows);
    TitleFirst(digit, version, header);
    assert (header + rows)[..HEADER_LINES] == header && (header + rows)[HEADER_LINES..] == rows;
    forall f
      ensures Describes(header + rows, f) <==> f == files
      ensures Describes(rows, f) <==> f == files
    {
      if Describes(header + rows, f) { DescribesOne(header + rows, f, files); }
      if Describes(rows, f) { DescribesOne(rows, f, files); }
    }
    assert '\r' !in text;
  }

  lemma TitleFirst(digit: Digits, version: string, header: seq<string>)
    requires |header| == HEADER_LINES && TitleVersion(digit, header[0]) == Some(version)
    requires forall i :: 0 < i < HEADER_LINES ==> TitleVersion(digit, header[i]).None?
    ensures LastTitle(digit, header) == Some(version)
  {
    hide TitleVersion;
    NoMoreTitles(digit, header[..1], header[1..]);
    assert header == header[..1] + header[1..];
    assert header[..1][..0] == [];
  }

  // ----- merging texts -----

  ghost predicate Loadable(digit: Digits, text: string) {
    exists version, files :: Loads(digit, text, version, files)
  }

  method MergeAdvisory(digit: Digits, base: string, ours: string, theirs: string) returns (r: Result<string, Error>)
    ensures r.Ok? ==> Loadable(digit, base) && Loadable(digit, ours) && Loadable(digit, theirs)
    ensures forall vb, b, vo, o, vt, t ::
              Loads(digit, base, vb, b) && Loads(digit, ours, vo, o) && Loads(digit, theirs, vt, t) ==>
                r == if MergeMetadata(vb, vo, vt).Ok? then Ok(Rendered(MergeMetadata(vb, vo, vt).value, Merged(b, o, t)))
                     else Err(MetadataConflict)
  {
    hide Rendered, Merged, Loads;
    LoadsOnce(digit, base);
    LoadsOnce(digit, ours);
    LoadsOnce(digit, theirs);
    var b := LoadAdvisory(digit, base);
    if b.Err? {
      return Err(b.error);
    }
    var o := LoadAdvisory(digit, ours);
    if o.Err? {
      return Err(o.error);
    }
    var t := LoadAdvisory(digit, theirs);
    if t.Err? {
      return Err(t.error);
    }
    var version := MergeMetadata(b.value.0, o.value.0, t.value.0);
    if version.Err? {
      return Err(version.error);
    }
    var files := MergeMapping(b.value.1, o.value.1, t.value.1);
    var text := RenderAdvisory(version.value, files);
    return Ok(text);
  }

  lemma LoadsOnce(digit: Digits, text: string)
    ensures forall v, f :: Loads(digit, text, v, f) ==> DistinctRows(SplitLines(text)) && LastTitle(digit, SplitLines(text)).Some?
    ensures forall v, f, w, g :: Loads(digit, text, v, f) && Loads(digit, text, w, g) ==> v == w && f == g
  {
    forall v, f, w, g | Loads(digit, text, v, f) && Loads(digit, text, w, g)
      ensures v == w && f == g
    {
      DescribesOne(SplitLines(text), f, g);
    }
  }

  /** Three printed manifests: their merge is the printed merge, or a conflict of the versions. */
  method MergePrinted(digit: Digits, vb: string, b: Index, vo: string, o: Index, vt: string, t: Index)
      returns (r: Result<string, Error>)
    requires Sane(digit) && IsVersion(digit, vb) && IsVersion(digit, vo) && IsVersion(digit, vt)
    requires Printable(b) && Printable(o) && Printable(t)
    ensures r.Ok? <==> vo == vt || vo == vb || vt == vb
    ensures r.Ok? ==> r.value == Rendered(if vo == vb then vt else vo, Merged(b, o, t))
  {
    hide Rendered, Merged, Loads, LoadsStrictly, Printable, VersionFrom;
    PrintedIsRead(digit, vb, b);
    PrintedIsRead(digit, vo, o);
    PrintedIsRead(digit, vt, t);
    var base := RenderAdvisory(vb, b);
    var ours := RenderAdvisory(vo, o);
    var theirs := RenderAdvisory(vt, t);
    assert Loads(digit, base, vb, b) && Loads(digit, ours, vo, o) && Loads(digit, theirs, vt, t);
    r := MergeAdvisory(digit, base, ours, theirs);
  }

  /** Merging the printed manifests of three trees is printing the manifest of the merged tree. */
  method MergeTreeManifests<T(!new, ==)>(digit: Digits, hash: T -> string, versions: (string, string, string),
                                         base: map<string, T>, ours: map<string, T>, theirs: map<string, T>)
      returns (r: Result<string, Error>)
    requires Sane(digit) && IsVersion(digit, versions.0) && IsVersion(digit, versions.1) && IsVersion(digit, versions.2)
    requires Printable(IndexOf(hash, base)) && Printable(IndexOf(hash, ours)) && Printable(IndexOf(hash, theirs))
    requires InjectiveOn(hash, base.Values + ours.Values + theirs.Values)
    ensures r.Ok? <==> versions.1 == versions.2 || versions.1 == versions.0 || versions.2 == versions.0
    ensures r.Ok? ==> r.value == Rendered(if versions.1 == versions.0 then versions.2 else versions.1,
                                          IndexOf(hash, Merged(base, ours, theirs)))
  {
    hide Rendered, Merged, IndexOf, Printable, VersionFrom;
    MergeCommutesWithIndexing(hash, base, ours, theirs);
    r := MergePrinted(digit, versions.0, IndexOf(hash, base), versions.1, IndexOf(hash, ours),
                      versions.2, IndexOf(hash, theirs));
  }

  // ----- the machine manifest -----

  const MACHINE_FORMAT: string := "awf-manifest-1"

  datatype Machine = Machine(format: string, version: string, files: Index)

  /** What the JSON library makes of a text; nothing for a repeated key or other than these fields. */
  type MachineReader = string -> Option<Machine>

  /** How the JSON library prints a machine manifest. */
  type MachinePrinter = Machine -> string

  ghost predicate ReadsBack(loads: MachineReader, prints: MachinePrinter) {
    forall m :: loads(prints(m)) == Some(m)
  }

  predicate WellFormed(m: Machine) {
    m.format == MACHINE_FORMAT && forall p :: p in m.files ==> IsDigest(m.files[p])
  }

  lemma DigestMeans(s: string)
    ensures IsDigest(s) <==> |s| == 64 && forall c :: c in s ==> c in "0123456789abcdef"
  {
    HexDigits();
  }

  lemma HexDigits()
    ensures forall c :: c in "0123456789abcdef" <==> '0' <= c <= '9' || 'a' <= c <= 'f'
  {
    forall c
      ensures c in "0123456789abcdef" <==> '0' <= c <= '9' || 'a' <= c <= 'f'
    {
      var s := "0123456789abcdef";
      if '0' <= c <= '9' {
        assert s[c as int - 48] == c;
      }
      if 'a' <= c <= 'f' {
        assert s[c as int - 87] == c;
      }
    }
  }

  function LoadMachine(loads: MachineReader, text: string): (r: Result<Machine, Error>)
    ensures r.Ok? <==> && loads(text).Some? && loads(text).value.format == "awf-manifest-1"
                       && forall p :: p in loads(text).value.files ==> IsDigest(loads(text).value.files[p])
    ensures r.Ok? ==> loads(text) == Some(r.value)
    ensures r == Err(NotJson) <==> loads(text).None?
    ensures r == Err(UnsupportedFormat) <==> loads(text).Some? && loads(text).value.format != "awf-manifest-1"
    ensures r.Err? && r.error != NotJson && r.error != UnsupportedFormat ==> r.error == InvalidEntry
  {
    var m := loads(text);
    if m.None? then Err(NotJson)
    else if m.value.format != MACHINE_FORMAT then Err(UnsupportedFormat)
    else if exists p :: p in m.value.files && !IsDigest(m.value.files[p]) then Err(InvalidEntry)
    else Ok(m.value)
  }

  method MergeMachine(loads: MachineReader, prints: MachinePrinter, base: string, ours: string, theirs: string)
      returns (r: Result<string, Error>)
    ensures var b, o, t := LoadMachine(loads, base), LoadMachine(loads, ours), LoadMachine(loads, theirs);
            if b.Err? then r == Err(b.error)
            else if o.Err? then r == Err(o.error)
            else if t.Err? then r == Err(t.error)
            else
              var version, files := MergeMetadata(b.value.version, o.value.version, t.value.version),
                                    Merged(b.value.files, o.value.files, t.value.files);
              if version.Err? then r == Err(MetadataConflict)
              else r == Ok(prints(Machine(MACHINE_FORMAT, version.value, files)))
                   && WellFormed(Machine(MACHINE_FORMAT, version.value, files))
  {
    hide Merged, IsDigest;
    var b, o, t := LoadMachine(loads, base), LoadMachine(loads, ours), LoadMachine(loads, theirs);
    if b.Err? { return Err(b.error); }
    if o.Err? { return Err(o.error); }
    if t.Err? { return Err(t.error); }
    var format := MergeMetadata(b.value.format, o.value.format, t.value.format);
    if format.Err? { return Err(MetadataConflict); }
    var version := MergeMetadata(b.value.version, o.value.version, t.value.version);
    if version.Err? { return Err(version.error); }
    var files := MergeMapping(b.value.files, o.value.files, t.value.files);
    if format.value != MACHINE_FORMAT {
      return Err(UnsupportedFormat);
    }
    MergedAt(b.value.files, o.value.files, t.value.files);
    forall p | p in files
      ensures IsDigest(files[p])
    {
      assert At(files, p) == Some(files[p]);
      assert At(files, p) in {At(o.value.files, p), At(t.value.files, p)};
    }
    return Ok(prints(Machine(format.value, version.value, files)));
  }

  /** A machine and an advisory text say the same, whoever wrote them and in whatever arrangement. */
  ghost predicate Agree(digit: Digits, loads: MachineReader, machine: string, advisory: string, m: Machine) {
    LoadMachine(loads, machine) == Ok(m) && Loads(digit, advisory, m.version, m.files)
  }

  /** The merged manifest of three: our version and entries unless only theirs changed. */
  function MergedMachine(base: Machine, ours: Machine, theirs: Machine): Machine {
    Machine(MACHINE_FORMAT, if ours.version == base.version then theirs.version else ours.version,
            Merged(base.files, ours.files, theirs.files))
  }

  /** Whatever a text loads as can be printed. */
  lemma LoadedIsPrintable(digit: Digits, text: string, version: string, files: Index)
    requires Loads(digit, text, version, files)
    ensures IsVersion(digit, version) && Printable(files)
  {
    var lines := SplitLines(text);
    SplitIsBreakFree(text);
    LastTitleIsVersion(digit, lines);
    forall p | p in files
      ensures p != "" && BreakFree(p) && IsDigest(files[p])
    {
      assert At(files, p) == Some(files[p]);
      assert Lists(lines, p, files[p]);
      var i :| 0 <= i < |lines| && ParseRow(lines[i]) == Some((p, files[p]));
      RowIsPrintable(lines[i]);
    }
  }

  lemma {:induction false} LastTitleIsVersion(digit: Digits, lines: seq<string>)
    ensures LastTitle(digit, lines).Some? ==> IsVersion(digit, LastTitle(digit, lines).value)
  {
    if lines != [] {
      LastTitleIsVersion(digit, lines[..|lines| - 1]);
    }
  }

  lemma RowIsPrintable(line: string)
    requires BreakFree(line) && IsRow(line)
    ensures PathOf(line) != "" && BreakFree(PathOf(line)) && IsDigest(ParseRow(line).value.1)
  {
    assert forall c :: c in PathOf(line) ==> c in line;
  }

  lemma {:induction false} SplitIsBreakFree(s: string)
    ensures AllBreakFree(SplitLines(s))
    decreases |s|
  {
    if s != "" {
      var n := LineEnd(s);
      SplitIsBreakFree(s[n..][BreakLength(s[n..])..]);
    }
  }

  /** Three pairs of texts that agree merge to a pair that agrees, or neither merge succeeds; and what
      they merge to is what generating both from the merged map gives, byte for byte. */
  method MergeBoth(digit: Digits, loads: MachineReader, prints: MachinePrinter, machines: (string, string, string),
                   advisories: (string, string, string), ghost base: Machine, ghost ours: Machine, ghost theirs: Machine)
      returns (machine: Result<string, Error>, advisory: Result<string, Error>)
    requires Sane(digit) && ReadsBack(loads, prints)
    requires Agree(digit, loads, machines.0, advisories.0, base)
    requires Agree(digit, loads, machines.1, advisories.1, ours)
    requires Agree(digit, loads, machines.2, advisories.2, theirs)
    ensures machine.Ok? <==> advisory.Ok?
    ensures machine.Ok? <==> ours.version == theirs.version || ours.version == base.version || theirs.version == base.version
    ensures machine.Ok? ==>
              var m := MergedMachine(base, ours, theirs);
              && machine.value == prints(m) && advisory.value == Rendered(m.version, m.files)
              && Agree(digit, loads, machine.value, advisory.value, m)
  {
    hide Rendered, Loads, LoadsStrictly, VersionFrom, Merged, Printable;
    machine := MergeMachine(loads, prints, machines.0, machines.1, machines.2);
    advisory := MergeAdvisory(digit, advisories.0, advisories.1, advisories.2);
    if machine.Ok? {
      LoadedIsPrintable(digit, advisories.0, base.version, base.files);
      LoadedIsPrintable(digit, advisories.1, ours.version, ours.files);
      LoadedIsPrintable(digit, advisories.2, theirs.version, theirs.files);
      MergedIsPrintable(base.files, ours.files, theirs.files);
      var m := MergedMachine(base, ours, theirs);
      PrintedIsRead(digit, m.version, m.files);
      assert loads(prints(m)) == Some(m);
    }
  }

  lemma MergedIsPrintable(base: Index, ours: Index, theirs: Index)
    requires Printable(base) && Printable(ours) && Printable(theirs)
    ensures Printable(Merged(base, ours, theirs))
  {
    MergedAt(base, ours, theirs);
    var merged := Merged(base, ours, theirs);
    hide Merged, BreakFree, IsDigest;
    forall p | p in merged
      ensures p != "" && BreakFree(p) && IsDigest(merged[p])
    {
      assert At(merged, p) == Some(merged[p]) && At(merged, p) in {At(ours, p), At(theirs, p)};
    }
  }

  // ----- the order-insensitive check -----

  /** Both texts are well-formed, with one header and one map. */
  ghost predicate SaysTheSame(actual: string, expected: string) {
    exists header, files :: LoadsStrictly(actual, header, files) && LoadsStrictly(expected, header, files)
  }

  /** One of the two generated files: equal, or both well-formed with equal header and map. */
  method CheckAdvisory(actual: string, expected: string) returns (ok: bool)
    ensures ok <==> actual == expected || SaysTheSame(actual, expected)
  {
    hide LoadsStrictly;
    if actual == expected {
      return true;
    }
    LoadsStrictlyOnce(actual);
    LoadsStrictlyOnce(expected);
    var current := LoadAdvisoryManifest(actual);
    var canonical := LoadAdvisoryManifest(expected);
    if current.Err? || canonical.Err? {
      return false;
    }
    ok := current.value == canonical.value;
  }

  datatype Verdict = Fresh | Missing(names: seq<string>) | Stale(names: seq<string>)

  const MACHINE_NAME: string := "MANIFEST.json"
  const ADVISORY_NAME: string := "MANIFEST.md"

  /** What the JSON library makes of the machine manifest; a repeated key is an error there. */
  predicate SameJson<J(==)>(loads: string -> Option<J>, actual: string, expected: string) {
    actual == expected || (loads(actual).Some? && loads(actual) == loads(expected))
  }

  /** Both generated files: every missing one is named before any is compared, then every stale one. */
  method CheckManifestFiles<J(==)>(loads: string -> Option<J>, machine: Option<string>, advisory: Option<string>,
                                   expectedMachine: string, expectedAdvisory: string) returns (r: Verdict)
    ensures r.Missing? <==> machine.None? || advisory.None?
    ensures r.Missing? ==> ("MANIFEST.json" in r.names <==> machine.None?) && ("MANIFEST.md" in r.names <==> advisory.None?)
    ensures r.Stale? ==> ("MANIFEST.json" in r.names <==> !SameJson(loads, machine.value, expectedMachine))
    ensures r.Stale? ==> ("MANIFEST.md" in r.names <==>
                            advisory.value != expectedAdvisory && !SaysTheSame(advisory.value, expectedAdvisory))
    ensures r == Fresh <==>
            && machine.Some? && advisory.Some? && SameJson(loads, machine.value, expectedMachine)
            && (advisory.value == expectedAdvisory || SaysTheSame(advisory.value, expectedAdvisory))
  {
    hide SaysTheSame;
    assert MACHINE_NAME != ADVISORY_NAME by { assert |MACHINE_NAME| != |ADVISORY_NAME|; }
    var missing := (if machine.None? then [MACHINE_NAME] else []) + if advisory.None? then [ADVISORY_NAME] else [];
    if missing != [] {
      return Missing(missing);
    }
    var current := CheckAdvisory(advisory.value, expectedAdvisory);
    var stale := (if SameJson(loads, machine.value, expectedMachine) then [] else [MACHINE_NAME])
      + if current then [] else [ADVISORY_NAME];
    return if stale == [] then Fresh else Stale(stale);
  }

  lemma LoadsStrictlyOnce(text: string)
    ensures forall h, f, k, g :: LoadsStrictly(text, h, f) && LoadsStrictly(text, k, g) ==> h == k && f == g
  {
    forall h, f, k, g | LoadsStrictly(text, h, f) && LoadsStrictly(text, k, g)
      ensures h == k && f == g
    {
      DescribesOne(SplitLines(text)[HEADER_LINES..], f, g);
    }
  }

  /** The lines are a header and some arrangement of the given rows. */
  predicate Rearranges(lines: seq<string>, header: seq<string>, rows: seq<string>) {
    |lines| >= |header| && lines[..|header|] == header && multiset(lines[|header|..]) == multiset(rows)
  }

  /** Rows with distinct paths that say the same are a rearrangement of each other. */
  lemma SameRowsSameBag(rows: seq<string>, others: seq<string>, files: Index)
    requires AllRows(others) && DistinctRows(others) && Describes(others, files) && NoDuplicates(others)
    ensures multiset(rows) == multiset(others) <==> AllRows(rows) && DistinctRows(rows) && Describes(rows, files)
  {
    hide ParseRow;
    if AllRows(rows) && DistinctRows(rows) && Describes(rows, files) {
      assert NoDuplicates(rows);
      RowsAreDescribed(rows, files);
      RowsAreDescribed(others, files);
      SameElementsSameBag(rows, others);
    }
    if multiset(rows) == multiset(others) {
      BagKeepsRows(rows, others, files);
    }
  }

  /** A row is among the rows exactly if the index says what it says. */
  lemma RowsAreDescribed(rows: seq<string>, files: Index)
    requires AllRows(rows) && Describes(rows, files)
    ensures forall l :: l in rows <==> IsRow(l) && At(files, PathOf(l)) == Some(ParseRow(l).value.1)
  {
    forall l
      ensures l in rows <==> IsRow(l) && At(files, PathOf(l)) == Some(ParseRow(l).value.1)
    {
      if IsRow(l) && Lists(rows, PathOf(l), ParseRow(l).value.1) {
        var i :| 0 <= i < |rows| && ParseRow(rows[i]) == ParseRow(l);
        RowIsPrinted(l);
        RowIsPrinted(rows[i]);
      }
      if l in rows {
        assert Lists(rows, PathOf(l), ParseRow(l).value.1);
      }
    }
  }

  lemma BagKeepsRows(rows: seq<string>, others: seq<string>, files: Index)
    requires AllRows(others) && DistinctRows(others) && Describes(others, files) && NoDuplicates(others)
    requires multiset(rows) == multiset(others)
    ensures AllRows(rows) && DistinctRows(rows) && Describes(rows, files)
  {
    hide ParseRow;
    BagKeepsMembers(rows, others);
    OnceEach(others);
    OnceEach(rows);
    BagKeepsPaths(rows, others);
    forall p, d
      ensures Lists(rows, p, d) <==> Lists(others, p, d)
    {
      BagKeepsLists(rows, others, p, d);
    }
  }

  lemma BagKeepsMembers(rows: seq<string>, others: seq<string>)
    requires multiset(rows) == multiset(others)
    ensures forall l :: l in rows <==> l in others
  {
    assert forall l :: l in rows <==> l in multiset(rows);
    assert forall l :: l in others <==> l in multiset(others);
  }

  lemma BagKeepsPaths(rows: seq<string>, others: seq<string>)
    requires (forall l :: l in rows <==> l in others) && NoDuplicates(rows)
    requires AllRows(others) && DistinctRows(others)
    ensures AllRows(rows) && DistinctRows(rows)
  {
    hide ParseRow;
    assert forall l :: l in others ==> IsRow(l);
    assert forall k, l :: k in others && l in others && k != l ==> PathOf(k) != PathOf(l);
    hide IsRow, PathOf;
  }

  lemma BagKeepsLists(rows: seq<string>, others: seq<string>, p: string, d: string)
    requires forall l :: l in rows <==> l in others
    ensures Lists(rows, p, d) <==> Lists(others, p, d)
  {
    hide ParseRow;
    if i :| 0 <= i < |rows| && ParseRow(rows[i]) == Some((p, d)) {
      assert rows[i] in others;
    }
    if i :| 0 <= i < |others| && ParseRow(others[i]) == Some((p, d)) {
      assert others[i] in rows;
    }
  }

  /** The check accepts exactly the texts whose lines are the header and a rearrangement of the rows,
      if they hold no return and end in a newline. */
  lemma AcceptedAreRearranged(digit: Digits, version: string, files: Index, actual: string)
    requires Sane(digit) && IsVersion(digit, version) && Printable(files)
    ensures SaysTheSame(actual, Rendered(version, files))
            <==> '\r' !in actual && EndsInNewline(actual)
                 && Rearranges(SplitLines(actual), Header(version), RowLines(IndexKeys(files), files))
  {
    hide Row, SplitLines, TitleVersion, Printable, Rendered, AllRows, DistinctRows, Describes, NoDuplicates, BreakFree;
    PrintedIsRead(digit, version, files);
    KeysInOrderEnumerates(files.Keys);
    var rows, lines := RowLines(IndexKeys(files), files), SplitLines(actual);
    RowLinesShape(digit, IndexKeys(files), files);
    if |lines| >= HEADER_LINES {
      SameRowsSameBag(lines[HEADER_LINES..], rows, files);
    }
    assert SaysTheSame(actual, Rendered(version, files))
        <==> LoadsStrictly(actual, Header(version), files);
  }

  lemma RowIsNoTitle(digit: Digits, line: string)
    requires IsRow(line)
    ensures TitleVersion(digit, line).None?
  {
    assert line[..3][0] == line[0] == '|' && TITLE[0] == '#';
  }

  /** What the check accepts loads as the manifest it was checked against; so it merges like it. */
  lemma AcceptedLoads(digit: Digits, version: string, files: Index, actual: string)
    requires Sane(digit) && IsVersion(digit, version) && Printable(files)
    requires SaysTheSame(actual, Rendered(version, files))
    ensures Loads(digit, actual, version, files)
  {
    hide Row, SplitLines, TitleVersion, Printable, Rendered, DistinctRows, Describes, IsRow, Header, VersionFrom;
    PrintedIsRead(digit, version, files);
    var header, lines := Header(version), SplitLines(actual);
    var rows := lines[HEADER_LINES..];
    assert LoadsStrictly(actual, header, files);
    HeaderShape(digit, version);
    HeadedRows(digit, header, rows, files);
    forall i | 0 <= i < |rows| ensures TitleVersion(digit, rows[i]).None? { RowIsNoTitle(digit, rows[i]); }
    NoMoreTitles(digit, header, rows);
    TitleFirst(digit, version, header);
    assert lines == header + rows;
  }

  /** Without other line breaks that is: the very bytes of the manifest with its rows rearranged. */
  lemma AcceptedBytes(digit: Digits, version: string, files: Index, actual: string)
    requires Sane(digit) && IsVersion(digit, version) && Printable(files) && OnlyNewlines(actual)
    ensures SaysTheSame(actual, Rendered(version, files))
            <==> exists rows :: multiset(rows) == multiset(RowLines(IndexKeys(files), files))
                                && actual == JoinLines(Header(version) + rows)
  {
    hide Row, SplitLines, JoinLines, TitleVersion, Printable, Rendered, LoadsStrictly, IsRow, SaysTheSame;
    var header, printed, lines := Header(version), RowLines(IndexKeys(files), files), SplitLines(actual);
    AcceptedAreRearranged(digit, version, files, actual);
    HeaderShape(digit, version);
    KeysInOrderEnumerates(files.Keys);
    RowLinesShape(digit, IndexKeys(files), files);
    if EndsInNewline(actual) && Rearranges(lines, header, printed) {
      JoinSplit(actual);
      assert lines == header + lines[HEADER_LINES..];
    }
    if rows :| multiset(rows) == multiset(printed) && actual == JoinLines(header + rows) {
      BagIsBreakFree(header, printed, rows);
      SplitJoin(header + rows);
      JoinedHasNewlines(header + rows);
      assert (header + rows)[..HEADER_LINES] == header && (header + rows)[HEADER_LINES..] == rows;
    }
  }

  lemma BagIsBreakFree(header: seq<string>, printed: seq<string>, rows: seq<string>)
    requires AllBreakFree(header) && AllBreakFree(printed) && multiset(rows) == multiset(printed)
    ensures AllBreakFree(header + rows)
  {
    hide BreakFree;
    forall i | 0 <= i < |rows|
      ensures BreakFree(rows[i])
    {
      assert rows[i] in multiset(printed);
    }
  }

  /** With other line breaks the bytes need not match: the check accepts every manifest whose first
      line ends in a vertical tab instead of a newline. */
  lemma OtherBreaksAreAccepted(digit: Digits, version: string, files: Index)
    requires Sane(digit) && IsVersion(digit, version) && Printable(files)
    ensures var actual := Tabbed(Header(version), RowLines(IndexKeys(files), files));
            && SaysTheSame(actual, Rendered(version, files))
            && forall lines :: AllBreakFree(lines) ==> actual != JoinLines(lines)
  {
    hide Row, JoinLines, SplitLines, TitleVersion, Printable, Rendered, IsRow, VersionFrom, DistinctRows, Header, RowLines,
      BreakFree, AllRows, Describes, NoDuplicates, SaysTheSame, Rearranges;
    KeysInOrderEnumerates(files.Keys);
    HeaderShape(digit, version);
    RowLinesShape(digit, IndexKeys(files), files);
    TabbedRearranges(Header(version), RowLines(IndexKeys(files), files));
    AcceptedAreRearranged(digit, version, files, Tabbed(Header(version), RowLines(IndexKeys(files), files)));
  }

  /** The lines joined, but the first one ended by a vertical tab. */
  function Tabbed(header: seq<string>, rows: seq<string>): string
    requires header != []
  {
    header[0] + "\U{0B}" + JoinLines(header[1..] + rows)
  }

  lemma TabbedRearranges(header: seq<string>, rows: seq<string>)
    requires |header| == HEADER_LINES && AllBreakFree(header) && AllBreakFree(rows)
    ensures var text := Tabbed(header, rows);
            && '\r' !in text && EndsInNewline(text) && Rearranges(SplitLines(text), header, rows)
            && forall lines :: AllBreakFree(lines) ==> text != JoinLines(lines)
  {
    hide BreakFree, JoinLines, SplitLines;
    var others := header[1..] + rows;
    TabbedLines(header[0], others);
    assert [header[0]] + others == header + rows;
    assert (header + rows)[..HEADER_LINES] == header && (header + rows)[HEADER_LINES..] == rows;
  }

  /** A vertical tab ends a line for the splitter, but not for a joined text. */
  lemma TabbedLines(first: string, others: seq<string>)
    requires BreakFree(first) && AllBreakFree(others) && others != []
    ensures var text := first + "\U{0B}" + JoinLines(others);
            && SplitLines(text) == [first] + others && '\r' !in text && EndsInNewline(text)
            && forall lines :: AllBreakFree(lines) ==> text != JoinLines(lines)
  {
    hide JoinLines, SplitLines;
    var rest := JoinLines(others);
    var text := first + "\U{0B}" + rest;
    SplitJoin(others);
    JoinedHasNewlines(others);
    SplitFirstAt(first, '\U{0B}', rest);
    assert !OnlyNewlines(text) by {
      assert text[|first|] == '\U{0B}' && text[|first|] in text;
    }
    forall lines | AllBreakFree(lines)
      ensures text != JoinLines(lines)
    {
      JoinedHasNewlines(lines);
    }
  }

  ghost function IndexKeys(files: Index): (r: seq<string>)
    ensures forall k :: k in r ==> k in files
  {
    KeysInOrderEnumerates(files.Keys);
    KeysInOrder(files.Keys)
  }
}
