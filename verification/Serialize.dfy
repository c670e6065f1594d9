/** The durable capture document: evict tail bytes until its JSON encoding fits, then write the
    encoding's own length into it. The JSON printer is a fixed layout of literal bytes with one
    rendered value per hole; only what `serialize` changes is a hole. */
module Serialize {
  import opened Core
  import opened Utf8

  const JSON_LIMIT := 262144
  const SKELETON_LIMIT := 16384
  const EVICTION := 4096

  datatype Reduction = TailsReduced | DiagnosticsReduced | CommandPathsReduced | ProgressReduced

  datatype Entry = Entry(tail: Text, retained: nat, represented: nat, omitted: int)

  datatype Document = Document(
    streams: seq<Entry>,
    diagnostics: seq<Text>,
    command: Text,
    paths: seq<Text>,
    hasProgress: bool,
    notes: seq<Option<Text>>,
    initial: nat,
    final: nat,
    skeleton: nat,
    reductions: seq<Reduction>)

  datatype Hole =
    | Tail(i: nat) | Represented(i: nat) | Omitted(i: nat)
    | Diagnostics | Command | Path(i: nat) | Note(i: nat)
    | Initial | Final | Skeleton | Reductions

  datatype Segment = Fixed(bytes: seq<Byte>) | Filled(hole: Hole)

  type Layout = seq<Segment>

  // ----- printing -----

  function Digits(n: nat): nat {
    |Decimal(n)|
  }

  function Hex(n: nat): Byte
    requires n < 16
  {
    if n < 10 then 48 + n else 87 + n
  }

  /** A character of a JSON string: only the quote, the backslash and control characters escape. */
  function Escaped(c: CodePoint): seq<Byte> {
    if c == 34 || c == 92 then [92, c]
    else if c == 8 then [92, 98]
    else if c == 9 then [92, 116]
    else if c == 10 then [92, 110]
    else if c == 12 then [92, 102]
    else if c == 13 then [92, 114]
    else if c < 32 then [92, 117, 48, 48, Hex(c / 16), Hex(c % 16)]
    else EncodeOne(c)
  }

  function EscapedAll(t: Text): seq<Byte> {
    if t == [] then [] else Escaped(t[0]) + EscapedAll(t[1..])
  }

  function JsonString(t: Text): seq<Byte> {
    [34] + EscapedAll(t) + [34]
  }

  function JsonStrings(ts: seq<Text>): seq<Byte> {
    if ts == [] then []
    else JsonStrings(ts[..|ts| - 1]) + (if |ts| > 1 then [44] else []) + JsonString(ts[|ts| - 1])
  }

  function ReductionName(r: Reduction): Text {
    match r
    case TailsReduced => Ascii("tails")
    case DiagnosticsReduced => Ascii("diagnostics")
    case CommandPathsReduced => Ascii("command_paths")
    case ProgressReduced => Ascii("progress")
  }

  function JsonInt(n: int): seq<Byte> {
    if n < 0 then [45] + Decimal(-n) else Decimal(n)
  }

  function Render(h: Hole, d: Document): seq<Byte> {
    match h
    case Tail(i) => if i < |d.streams| then JsonString(d.streams[i].tail) else []
    case Represented(i) => if i < |d.streams| then Decimal(d.streams[i].represented) else []
    case Omitted(i) => if i < |d.streams| then JsonInt(d.streams[i].omitted) else []
    case Diagnostics => [91] + JsonStrings(d.diagnostics) + [93]
    case Command => JsonString(d.command)
    case Path(i) => if i < |d.paths| then JsonString(d.paths[i]) else []
    case Note(i) =>
      if i < |d.notes| && d.notes[i].Some? then JsonString(d.notes[i].value) else [110, 117, 108, 108]
    case Initial => Decimal(d.initial)
    case Final => Decimal(d.final)
    case Skeleton => Decimal(d.skeleton)
    case Reductions =>
      [91] + JsonStrings(seq(|d.reductions|, i requires 0 <= i < |d.reductions| => ReductionName(d.reductions[i]))) + [93]
  }

  function Print(s: Segment, d: Document): seq<Byte> {
    match s case Fixed(bytes) => bytes case Filled(h) => Render(h, d)
  }

  /** The encoding of a document. */
  function Encoding(layout: Layout, d: Document): seq<Byte> {
    if layout == [] then [] else Print(layout[0], d) + Encoding(layout[1..], d)
  }

  function Length(layout: Layout, d: Document): nat {
    |Encoding(layout, d)|
  }

  function Occurrences(layout: Layout, h: Hole): nat {
    if layout == [] then 0 else (if layout[0] == Filled(h) then 1 else 0) + Occurrences(layout[1..], h)
  }

  /** The document states its own length and that of its skeleton once each. */
  predicate Lawful(layout: Layout) {
    Occurrences(layout, Final) == 1 && Occurrences(layout, Skeleton) == 1
  }

  // ----- reading a string back -----

  function HexDigit(b: Byte): Option<nat> {
    if 48 <= b <= 57 then Some(b - 48) else if 97 <= b <= 102 then Some(b - 87) else None
  }

  /** The escapes that a backslash and a letter stand for. */
  function Escape(b: Byte): Option<CodePoint> {
    if b == 34 || b == 92 then Some(b as int)
    else if b == 98 then Some(8)
    else if b == 116 then Some(9)
    else if b == 110 then Some(10)
    else if b == 102 then Some(12)
    else if b == 114 then Some(13)
    else None
  }

  /** One character inside a JSON string, and how many bytes it takes. */
  function ReadCharacter(raw: seq<Byte>): Option<(CodePoint, nat)>
    requires raw != []
  {
    if raw[0] != 92 then
      var (piece, n) := Take(raw, true);
      if piece.Point? then Some((piece.code, n)) else None
    else if |raw| >= 2 && Escape(raw[1]).Some? then Some((Escape(raw[1]).value, 2))
    else if |raw| >= 6 && raw[1..4] == [117, 48, 48] && HexDigit(raw[4]).Some? && HexDigit(raw[5]).Some? then
      Some((16 * HexDigit(raw[4]).value + HexDigit(raw[5]).value, 6))
    else None
  }

  lemma CharacterReadsBack(c: CodePoint, rest: seq<Byte>)
    ensures Escaped(c) != [] && Escaped(c)[0] != 34
    ensures ReadCharacter(Escaped(c) + rest) == Some((c, |Escaped(c)|))
  {
    var raw := Escaped(c) + rest;
    if c < 32 || c == 34 || c == 92 {
      assert forall i :: 0 <= i < |Escaped(c)| ==> raw[i] == Escaped(c)[i];
      if |Escaped(c)| == 6 {
        assert raw[1..4] == Escaped(c)[1..4] == [117, 48, 48];
      }
    } else {
      TakeEncoded(c, rest, true);
      FirstByte(c);
    }
  }

  lemma FirstByte(c: CodePoint)
    ensures EncodeOne(c)[0] == 92 ==> c == 92
    ensures EncodeOne(c)[0] == 34 ==> c == 34
  {
  }

  /** The string up to its closing quote, and what follows. */
  function ReadString(raw: seq<Byte>): Option<(Text, seq<Byte>)>
    decreases |raw|
  {
    if raw == [] then None
    else if raw[0] == 34 then Some(([], raw[1..]))
    else
      var first := ReadCharacter(raw);
      if first.None? || first.value.1 == 0 || first.value.1 > |raw| then None
      else
        var more := ReadString(raw[first.value.1..]);
        if more.None? then None else Some(([first.value.0] + more.value.0, more.value.1))
  }

  /** A printed string is read back, whatever follows it. */
  lemma {:induction false} StringReadsBack(t: Text, rest: seq<Byte>)
    ensures ReadString(EscapedAll(t) + [34] + rest) == Some((t, rest))
  {
    hide Escaped, ReadCharacter;
    if t == [] {
      assert EscapedAll(t) + [34] + rest == [34] + rest;
      assert ([34] + rest)[1..] == rest;
    } else {
      var first, more := Escaped(t[0]), EscapedAll(t[1..]) + [34] + rest;
      var raw := EscapedAll(t) + [34] + rest;
      ConcatAssociates(first, EscapedAll(t[1..]), [34]);
      ConcatAssociates(first, EscapedAll(t[1..]) + [34], rest);
      assert raw == first + more;
      CharacterReadsBack(t[0], more);
      assert raw[|first|..] == more && raw[0] == first[0];
      StringReadsBack(t[1..], rest);
      assert [t[0]] + t[1..] == t;
    }
  }

  /** By how many bytes printing a text exceeds its encoding: one for a quote, a backslash and the five
      controls with a letter, five for every other control. */
  function Excess(t: Text): nat {
    if t == [] then 0
    else (if t[0] in {8, 9, 10, 12, 13, 34, 92} then 1 else if t[0] < 32 then 5 else 0) + Excess(t[1..])
  }

  lemma {:induction false} StringSize(t: Text)
    ensures |JsonString(t)| == 2 + |Encode(t)| + Excess(t)
  {
    if t != [] {
      EscapedSize(t[0]);
      hide EncodeOne, Escaped;
      StringSize(t[1..]);
    }
  }

  lemma EscapedSize(c: CodePoint)
    ensures |Escaped(c)| == |EncodeOne(c)| + if c in {8, 9, 10, 12, 13, 34, 92} then 1 else if c < 32 then 5 else 0
  {
  }

  // ----- the stages -----

  datatype State = State(doc: Document, raws: seq<seq<Byte>>)

  /** Each stream has its raw tail. */
  predicate Paired(s: State) {
    |s.raws| == |s.doc.streams|
  }

  /** Each tail is its raw bytes decoded, and the raw tails are what the streams retained. */
  predicate Consistent(s: State) {
    && Paired(s)
    && forall i :: 0 <= i < |s.raws| ==>
         && s.doc.streams[i].tail == DecodeReplace(s.raws[i])
         && s.doc.streams[i].represented == |s.raws[i]|
         && s.doc.streams[i].omitted == s.doc.streams[i].retained - |s.raws[i]|
  }

  function Begin(layout: Layout, s: State): State {
    var streams := seq(|s.doc.streams|, i requires 0 <= i < |s.doc.streams| =>
      s.doc.streams[i].(represented := s.doc.streams[i].retained, omitted := 0));
    var d := s.doc.(streams := streams, initial := 0, final := 0, skeleton := 0, reductions := []);
    s.(doc := d.(initial := Length(layout, d)))
  }

  function Evict(raw: seq<Byte>): seq<Byte> {
    raw[Min(EVICTION, |raw|)..]
  }

  function Shorten(e: Entry, raw: seq<Byte>): Entry {
    e.(tail := DecodeReplace(raw), represented := |raw|, omitted := e.retained - |raw|)
  }

  function Noted(reductions: seq<Reduction>, r: Reduction): seq<Reduction> {
    if r in reductions then reductions else reductions + [r]
  }

  function EvictAll(s: State): (next: State)
    requires Paired(s)
    ensures Paired(next)
  {
    var raws := seq(|s.raws|, i requires 0 <= i < |s.raws| => Evict(s.raws[i]));
    var streams := seq(|s.raws|, i requires 0 <= i < |s.raws| => Shorten(s.doc.streams[i], raws[i]));
    State(s.doc.(streams := streams, reductions := Noted(s.doc.reductions, TailsReduced)), raws)
  }

  predicate SomeTail(d: Document) {
    exists i :: 0 <= i < |d.streams| && d.streams[i].tail != []
  }

  predicate MustEvict(layout: Layout, d: Document) {
    Length(layout, d) > JSON_LIMIT && SomeTail(d)
  }

  function TotalRaw(raws: seq<seq<Byte>>): nat {
    if raws == [] then 0 else |raws[0]| + TotalRaw(raws[1..])
  }

  lemma {:induction false} EvictionShrinks(raws: seq<seq<Byte>>, less: seq<seq<Byte>>)
    requires |less| == |raws| && forall i :: 0 <= i < |raws| ==> less[i] == Evict(raws[i])
    ensures TotalRaw(less) <= TotalRaw(raws)
    ensures (exists i :: 0 <= i < |raws| && raws[i] != []) ==> TotalRaw(less) < TotalRaw(raws)
  {
    if raws != [] {
      EvictionShrinks(raws[1..], less[1..]);
      if i :| 0 <= i < |raws| && raws[i] != [] {
        assert i > 0 ==> raws[1..][i - 1] != [];
      }
    }
  }

  /** What eviction runs down: the raw bytes, and tails that have none behind them. */
  function Weight(s: State): nat {
    TotalRaw(s.raws) + if SomeTail(s.doc) && TotalRaw(s.raws) == 0 then 1 else 0
  }

  lemma {:induction false} NoRawBytes(raws: seq<seq<Byte>>)
    ensures TotalRaw(raws) == 0 <==> forall i :: 0 <= i < |raws| ==> raws[i] == []
  {
    if raws != [] {
      NoRawBytes(raws[1..]);
      assert forall i :: 0 < i < |raws| ==> raws[i] == raws[1..][i - 1];
    }
  }

  lemma EvictAllShrinks(s: State)
    requires Paired(s) && SomeTail(s.doc)
    ensures Weight(EvictAll(s)) < Weight(s)
  {
    hide TotalRaw;
    EvictionShrinks(s.raws, EvictAll(s).raws);
    NoRawBytes(s.raws);
    NoRawBytes(EvictAll(s).raws);
    EmptyTail();
  }

  lemma EmptyTail()
    ensures DecodeReplace([]) == [] && EscapedAll([]) == []
  {
  }

  function Evictions(layout: Layout, s: State): (r: State)
    requires Paired(s)
    ensures Paired(r)
    decreases Weight(s)
  {
    if MustEvict(layout, s.doc) then
      EvictAllShrinks(s);
      Evictions(layout, EvictAll(s))
    else s
  }

  function DropDiagnostics(layout: Layout, d: Document): Document {
    if Length(layout, d) > JSON_LIMIT
    then d.(diagnostics := [], reductions := d.reductions + [DiagnosticsReduced]) else d
  }

  function DropCommandPaths(layout: Layout, d: Document): Document {
    if Length(layout, d) > JSON_LIMIT
    then d.(command := [], paths := seq(|d.paths|, _ => []), reductions := d.reductions + [CommandPathsReduced]) else d
  }

  function DropProgress(layout: Layout, d: Document): Document {
    if Length(layout, d) > JSON_LIMIT && d.hasProgress
    then d.(notes := seq(|d.notes|, _ => Some([])), reductions := d.reductions + [ProgressReduced]) else d
  }

  function Skeletal(d: Document): Document {
    d.(streams := seq(|d.streams|, i requires 0 <= i < |d.streams| => d.streams[i].(tail := [])),
       command := [], paths := seq(|d.paths|, _ => []), diagnostics := [],
       notes := if d.hasProgress then seq(|d.notes|, _ => None) else d.notes)
  }

  /** Everything up to the last size test. */
  function Reduce(layout: Layout, s: State): Document
    requires Paired(s)
  {
    DropProgress(layout, DropCommandPaths(layout, DropDiagnostics(layout, Evictions(layout, Begin(layout, s)).doc)))
  }

  /** One pass of writing the length of the document into it. */
  function Measure(layout: Layout, d: Document): Document {
    d.(final := Length(layout, d))
  }

  function Sign(layout: Layout, d: Document): Document {
    var d := d.(skeleton := Length(layout, Skeletal(d)));
    Measure(layout, Measure(layout, Measure(layout, Measure(layout, d))))
  }

  datatype Failure = SkeletonTooBig | DocumentTooBig

  // ----- the document that contains its own length -----

  /** Changing what one hole shows changes the length by the difference of the two renderings. */
  lemma {:induction false} OneHoleCounts(layout: Layout, h: Hole, a: Document, b: Document)
    requires forall g :: g != h ==> Render(g, a) == Render(g, b)
    requires Occurrences(layout, h) <= 1
    ensures Length(layout, b) - Length(layout, a)
            == if Occurrences(layout, h) == 1 then |Render(h, b)| - |Render(h, a)| else 0
  {
    hide Render;
    if layout != [] {
      OneHoleCounts(layout[1..], h, a, b);
    }
  }

  lemma {:induction false} HoleIsPrinted(layout: Layout, h: Hole, d: Document)
    requires Occurrences(layout, h) >= 1
    ensures Length(layout, d) >= |Render(h, d)|
  {
    hide Render;
    if layout[0] != Filled(h) {
      HoleIsPrinted(layout[1..], h, d);
    }
  }

  /** How long the document becomes when it claims the length `n`. */
  lemma LengthOfClaim(layout: Layout, d: Document, n: nat)
    requires Lawful(layout)
    ensures Length(layout, d.(final := n)) == Length(layout, d.(final := 0)) - 1 + Digits(n)
  {
    OneHoleCounts(layout, Final, d.(final := 0), d.(final := n));
  }

  lemma LengthOfSkeleton(layout: Layout, d: Document, n: nat)
    requires Lawful(layout)
    ensures Length(layout, d.(skeleton := n)) == Length(layout, d.(skeleton := 0)) - 1 + Digits(n)
  {
    OneHoleCounts(layout, Skeleton, d.(skeleton := 0), d.(skeleton := n));
  }

  lemma {:induction false} DigitsGrow(m: nat, n: nat)
    requires m <= n
    ensures Digits(m) <= Digits(n)
    ensures Digits(10 * n) <= Digits(n) + 1
    ensures Digits(m) <= m + 1
    decreases n
  {
    if n >= 10 {
      DigitsGrow(m / 10, n / 10);
    }
    if m >= 10 {
      DigitsGrow(m / 10, m / 10);
    }
  }

  lemma {:induction false} DigitsAreFew(n: nat)
    ensures Digits(n) <= n / 10 + 2
  {
    if n >= 10 {
      DigitsAreFew(n / 10);
    }
  }

  function Claim(base: nat, n: nat): nat {
    base + Digits(n)
  }

  /** For every base length three passes reach a fixed point, whatever the first claim is. */
  lemma ThreePassesSettle(base: nat)
    ensures var n := Claim(base, Claim(base, Claim(base, 0))); Claim(base, n) == n
  {
    var one := base + 1;
    var d := Digits(one);
    DigitsGrow(one, one);
    DigitsGrow(one, base + d);
    DigitsGrow(base + d, base + d + 1);
    DigitsGrow(base + d + 1, 10 * one);
  }

  /** Two passes do not. */
  lemma TwoPassesDoNot()
    ensures var n := Claim(98, Claim(98, 0)); Claim(98, n) != n
  {
  }

  lemma {:induction false} DigitsBound(n: nat)
    ensures n < 1000000 ==> Digits(n) <= 6
    ensures n < 100000 ==> Digits(n) <= 5
    ensures n >= 100000 ==> Digits(n) >= 6
  {
    DigitsGrow(100000, Max(n, 100000));
    DigitsGrow(Min(n, 999999), 999999);
    DigitsGrow(Min(n, 99999), 99999);
    assert Digits(9) == 1 && Digits(99) == 2 && Digits(999) == 3 && Digits(9999) == 4;
    assert Digits(99999) == 5 && Digits(999999) == 6;
    assert Digits(1) == 1 && Digits(10) == 2 && Digits(100) == 3 && Digits(1000) == 4 && Digits(10000) == 5;
  }

  /** The signed document states exactly its own length, whatever it says; and that length is the one
      the reductions tested, with the two zeros they saw replaced by the real numbers. */
  lemma SignedLengthIsTrue(layout: Layout, d: Document)
    requires Lawful(layout)
    requires d.final == 0 && d.skeleton == 0
    ensures var signed := Sign(layout, d);
            && signed.final == Length(layout, signed)
            && signed.skeleton == Length(layout, Skeletal(d))
            && Length(layout, signed) == Length(layout, d) - 2 + Digits(signed.skeleton) + Digits(signed.final)
  {
    hide Encoding;
    var d0 := d.(skeleton := Length(layout, Skeletal(d)));
    assert d0.(final := 0) == d0 && d0.(skeleton := 0) == d;
    LengthOfSkeleton(layout, d, d0.skeleton);
    HoleIsPrinted(layout, Final, d0);
    var base: nat := Length(layout, d0) - 1;
    var n1, n2, n3 := Claim(base, 0), Claim(base, Claim(base, 0)), Claim(base, Claim(base, Claim(base, 0)));
    assert Digits(0) == 1;
    LengthOfClaim(layout, d0, n1);
    LengthOfClaim(layout, d0, n2);
    LengthOfClaim(layout, d0, n3);
    ThreePassesSettle(base);
    assert Measure(layout, d0) == d0.(final := n1);
    assert Measure(layout, Measure(layout, d0)) == d0.(final := n2);
    assert Measure(layout, Measure(layout, Measure(layout, d0))) == d0.(final := n3);
    assert Sign(layout, d) == d0.(final := n3);
  }

  // ----- when the final assertion holds -----

  lemma {:induction false} EvictionsKeep(layout: Layout, s: State)
    requires Paired(s)
    ensures var e := Evictions(layout, s);
            && !MustEvict(layout, e.doc)
            && e.doc.final == s.doc.final && e.doc.skeleton == s.doc.skeleton
    decreases Weight(s)
  {
    if MustEvict(layout, s.doc) {
      EvictAllShrinks(s);
      EvictionsKeep(layout, EvictAll(s));
    }
  }

  lemma ReduceKeepsZeros(layout: Layout, s: State)
    requires Paired(s)
    ensures Reduce(layout, s).final == Reduce(layout, s).skeleton == 0
  {
    hide Length, MustEvict;
    EvictionsKeep(layout, Begin(layout, s));
  }

  /** The size tests of the reductions see zeros where the real lengths will stand, so passing them is
      not enough. Exactly when the tested size leaves room for the digits still to come does the last
      assertion hold; and it can be missed by no more than nine bytes. */
  lemma FinalAssertionHoldsExactly(layout: Layout, d: Document)
    requires Lawful(layout)
    requires d.final == 0 && d.skeleton == 0
    requires Length(layout, Skeletal(d)) <= SKELETON_LIMIT
    ensures var total := Length(layout, Sign(layout, d));
            && (total <= JSON_LIMIT <==> Length(layout, d) + Digits(Length(layout, Skeletal(d))) + 4 <= JSON_LIMIT)
            && (Length(layout, d) <= JSON_LIMIT ==> total <= JSON_LIMIT + 9)
            && total >= Length(layout, d)
  {
    hide Encoding, Decimal;
    SignedLengthIsTrue(layout, d);
    var signed := Sign(layout, d);
    DigitsBound(signed.final);
    DigitsBound(signed.skeleton);
    DigitsAreFew(signed.final);
    assert Digits(signed.skeleton) >= 1 && Digits(signed.final) >= 1;
  }

  // ----- the skeleton -----

  /** A document with every text that can grow taken out of it: tails, diagnostics, command and paths are
      empty, and the notes on progress are null if there is progress. The rest is as it was, and the two
      lengths it will state still read 0. */
  predicate Blanked(d: Document, blank: Document) {
    && |blank.streams| == |d.streams|
    && (forall i :: 0 <= i < |d.streams| ==>
          && blank.streams[i].tail == [] && blank.streams[i].retained == d.streams[i].retained
          && blank.streams[i].represented == d.streams[i].represented && blank.streams[i].omitted == d.streams[i].omitted)
    && blank.diagnostics == [] && blank.command == []
    && |blank.paths| == |d.paths| && (forall i :: 0 <= i < |d.paths| ==> blank.paths[i] == [])
    && blank.hasProgress == d.hasProgress && |blank.notes| == |d.notes|
    && (forall i :: 0 <= i < |d.notes| ==> blank.notes[i] == if d.hasProgress then None else d.notes[i])
    && blank.initial == d.initial && blank.reductions == d.reductions && blank.final == 0 && blank.skeleton == 0
  }

  lemma SkeletonIsBlank(d: Document)
    requires d.final == 0 && d.skeleton == 0
    ensures Blanked(d, Skeletal(d))
  {
  }

  lemma OneBlank(d: Document, e: Document, a: Document, b: Document)
    requires Blanked(d, a) && Blanked(e, b)
    requires |d.streams| == |e.streams| && |d.paths| == |e.paths| && |d.notes| == |e.notes| && d.hasProgress == e.hasProgress
    requires forall i :: 0 <= i < |d.streams| ==> d.streams[i].(tail := []) == e.streams[i].(tail := [])
    requires !d.hasProgress ==> d.notes == e.notes
    requires d.initial == e.initial && d.reductions == e.reductions
    ensures a == b
  {
    assert a.streams == b.streams && a.paths == b.paths && a.notes == b.notes;
  }

  /** Documents that differ only in those texts state one skeleton length, whatever the texts are. */
  lemma SkeletonIgnoresTexts(layout: Layout, d: Document, e: Document)
    requires Lawful(layout) && d.final == d.skeleton == e.final == e.skeleton == 0
    requires |d.streams| == |e.streams| && |d.paths| == |e.paths| && |d.notes| == |e.notes| && d.hasProgress == e.hasProgress
    requires forall i :: 0 <= i < |d.streams| ==> d.streams[i].(tail := []) == e.streams[i].(tail := [])
    requires !d.hasProgress ==> d.notes == e.notes
    requires d.initial == e.initial && d.reductions == e.reductions
    ensures Sign(layout, d).skeleton == Sign(layout, e).skeleton
  {
    hide Encoding, Sign;
    SkeletonIsBlank(d);
    SkeletonIsBlank(e);
    OneBlank(d, e, Skeletal(d), Skeletal(e));
    SignedLengthIsTrue(layout, d);
    SignedLengthIsTrue(layout, e);
  }

  // ----- what the reductions drop -----

  /** The document the size tests begin with: everything represented, nothing measured. */
  predicate Untouched(given: Document, d: Document) {
    && |d.streams| == |given.streams|
    && (forall i :: 0 <= i < |d.streams| ==>
          && d.streams[i].tail == given.streams[i].tail && d.streams[i].retained == given.streams[i].retained
          && d.streams[i].represented == given.streams[i].retained && d.streams[i].omitted == 0)
    && d.diagnostics == given.diagnostics && d.command == given.command && d.paths == given.paths
    && d.hasProgress == given.hasProgress && d.notes == given.notes
    && d.initial == d.final == d.skeleton == 0 && d.reductions == []
  }

  /** The initial length is that of the document as it was given. */
  lemma InitialIsMeasured(layout: Layout, s: State)
    requires Paired(s)
    ensures exists d :: Untouched(s.doc, d) && Reduce(layout, s).initial == Length(layout, d)
  {
    hide Length, MustEvict;
    var b := Begin(layout, s);
    EvictionsKeepTexts(layout, b);
    var d := b.doc.(initial := 0);
    assert Untouched(s.doc, d);
  }

  /** Eviction touches the tails and their accounting, and notes once that it did. */
  lemma {:induction false} EvictionsKeepTexts(layout: Layout, s: State)
    requires Paired(s)
    ensures var d := Evictions(layout, s).doc;
            && d.diagnostics == s.doc.diagnostics && d.command == s.doc.command && d.paths == s.doc.paths
            && d.hasProgress == s.doc.hasProgress && d.notes == s.doc.notes && d.initial == s.doc.initial
            && d.reductions == if MustEvict(layout, s.doc) then Noted(s.doc.reductions, TailsReduced) else s.doc.reductions
    decreases Weight(s)
  {
    hide Length, Weight;
    if MustEvict(layout, s.doc) {
      EvictAllShrinks(s);
      EvictionsKeepTexts(layout, EvictAll(s));
    }
  }

  /** What the stages after eviction did to a document: `rs` names those that were taken. */
  predicate Dropped(was: Document, d: Document, rs: seq<Reduction>) {
    && d.streams == was.streams && d.hasProgress == was.hasProgress && d.initial == was.initial
    && d.diagnostics == (if DiagnosticsReduced in rs then [] else was.diagnostics)
    && d.command == (if CommandPathsReduced in rs then [] else was.command)
    && |d.paths| == |was.paths|
    && (forall i :: 0 <= i < |d.paths| ==> d.paths[i] == if CommandPathsReduced in rs then [] else was.paths[i])
    && |d.notes| == |was.notes|
    && (forall i :: 0 <= i < |d.notes| ==> d.notes[i] == if ProgressReduced in rs then Some([]) else was.notes[i])
    && d.reductions == was.reductions + rs
  }

  /** When a block has to go from every tail. */
  predicate TooLongWithTails(layout: Layout, d: Document) {
    Length(layout, d) > 262144 && exists i :: 0 <= i < |d.streams| && d.streams[i].tail != []
  }

  lemma MustEvictMeans(layout: Layout)
    ensures forall d :: MustEvict(layout, d) <==> TooLongWithTails(layout, d)
  {
    hide Length;
  }

  /** The stages are taken in this order, each exactly if the document was still too long without it. */
  lemma StagesMean(layout: Layout, was: Document) returns (rs: seq<Reduction>)
    ensures var one, two := DropDiagnostics(layout, was), DropCommandPaths(layout, DropDiagnostics(layout, was));
            var d := DropProgress(layout, two);
            && Dropped(was, d, rs) && rs <= [DiagnosticsReduced, CommandPathsReduced, ProgressReduced]
            && (rs == [] <==> Length(layout, was) <= 262144)
            && (|rs| >= 2 ==> Dropped(was, one, rs[..1]) && Length(layout, one) > 262144)
            && (|rs| >= 3 ==> Dropped(was, two, rs[..2]) && Length(layout, two) > 262144 && was.hasProgress)
            && (|rs| < 3 ==> Length(layout, d) <= 262144 || (|rs| == 2 && !was.hasProgress))
  {
    hide Length;
    var one, two := DropDiagnostics(layout, was), DropCommandPaths(layout, DropDiagnostics(layout, was));
    if Length(layout, was) <= 262144 {
      rs := [];
      assert was.reductions + [] == was.reductions;
    } else if Length(layout, one) <= 262144 {
      rs := [DiagnosticsReduced];
    } else if Length(layout, two) <= 262144 || !was.hasProgress {
      rs := [DiagnosticsReduced, CommandPathsReduced];
      assert rs[..1] == [DiagnosticsReduced];
    } else {
      rs := [DiagnosticsReduced, CommandPathsReduced, ProgressReduced];
      assert rs[..1] == [DiagnosticsReduced] && rs[..2] == [DiagnosticsReduced, CommandPathsReduced];
    }
  }

  /** The reduced document: its reductions name what was dropped, tails first, and each was dropped exactly
      if the document was still too long without that. */
  lemma ReductionsMean(layout: Layout, s: State) returns (evicted: Document, rs: seq<Reduction>)
    requires Paired(s)
    ensures evicted.diagnostics == s.doc.diagnostics && evicted.command == s.doc.command && evicted.paths == s.doc.paths
    ensures evicted.hasProgress == s.doc.hasProgress && evicted.notes == s.doc.notes
    ensures evicted.reductions == if TooLongWithTails(layout, Begin(layout, s).doc) then [TailsReduced] else []
    ensures var d := Reduce(layout, s);
            && Dropped(evicted, d, rs) && rs <= [DiagnosticsReduced, CommandPathsReduced, ProgressReduced]
            && (rs == [] <==> Length(layout, evicted) <= 262144)
            && (|rs| < 3 ==> Length(layout, d) <= 262144 || (|rs| == 2 && !s.doc.hasProgress))
            && (forall k :: 1 <= k < |rs| ==> TooLongAfter(layout, evicted, rs[..k]))
  {
    MustEvictMeans(layout);
    hide Length, MustEvict, TooLongWithTails, Dropped;
    EvictionsKeepTexts(layout, Begin(layout, s));
    evicted := Evictions(layout, Begin(layout, s)).doc;
    rs := StagesMean(layout, evicted);
    hide Evictions, DropDiagnostics, DropCommandPaths, DropProgress;
    if |rs| >= 2 {
      assert TooLongAfter(layout, evicted, rs[..1]);
    }
    if |rs| >= 3 {
      assert TooLongAfter(layout, evicted, rs[..2]);
    }
  }

  /** With only these stages taken the document is too long. */
  ghost predicate TooLongAfter(layout: Layout, was: Document, rs: seq<Reduction>) {
    exists d :: Dropped(was, d, rs) && Length(layout, d) > 262144
  }

  /** The names under which reductions are printed. */
  lemma ReductionsByName(d: Document)
    ensures d.reductions == [TailsReduced] ==> Render(Reductions, d) == [91] + JsonString(Ascii("tails")) + [93]
    ensures d.reductions == [DiagnosticsReduced] ==> Render(Reductions, d) == [91] + JsonString(Ascii("diagnostics")) + [93]
    ensures d.reductions == [CommandPathsReduced] ==> Render(Reductions, d) == [91] + JsonString(Ascii("command_paths")) + [93]
    ensures d.reductions == [ProgressReduced] ==> Render(Reductions, d) == [91] + JsonString(Ascii("progress")) + [93]
  {
    hide JsonString, Ascii;
    if |d.reductions| == 1 {
      var names := seq(1, i requires 0 <= i < 1 => ReductionName(d.reductions[i]));
      assert names == [ReductionName(d.reductions[0])] && names[1..] == [];
      assert JsonStrings(names) == JsonString(names[0]);
    }
  }

  // ----- the routine -----

  /** The body of the eviction loop: each stream in turn loses its oldest bytes. */
  method EvictStreams(s: State) returns (next: State)
    requires Paired(s)
    ensures next == EvictAll(s)
  {
    var raws, streams := s.raws, s.doc.streams;
    for i := 0 to |raws|
      invariant |raws| == |s.raws| && |streams| == |s.doc.streams|
      invariant forall k :: 0 <= k < i ==> raws[k] == Evict(s.raws[k]) && streams[k] == Shorten(s.doc.streams[k], raws[k])
      invariant forall k :: i <= k < |raws| ==> raws[k] == s.raws[k] && streams[k] == s.doc.streams[k]
    {
      var raw := raws[i][Min(EVICTION, |raws[i]|)..];
      raws := raws[i := raw];
      streams := streams[i := Shorten(streams[i], raw)];
    }
    var reductions := s.doc.reductions;
    if TailsReduced !in reductions {
      reductions := reductions + [TailsReduced];
    }
    assert raws == EvictAll(s).raws && streams == EvictAll(s).doc.streams;
    next := State(s.doc.(streams := streams, reductions := reductions), raws);
  }

  method Serialize(layout: Layout, s: State) returns (r: Result<seq<Byte>, Failure>, signed: Document)
    requires Paired(s) && Lawful(layout)
    ensures signed == Sign(layout, Reduce(layout, s))
    ensures r == if signed.skeleton > 16384 then Err(SkeletonTooBig)
                 else if Length(layout, signed) > 262144 then Err(DocumentTooBig)
                 else Ok(Encoding(layout, signed))
    ensures r.Ok? ==> signed.final == |r.value| <= 262144
    ensures exists blank :: Blanked(Reduce(layout, s), blank) && signed.skeleton == Length(layout, blank)
    ensures r.Ok? <==> signed.skeleton <= 16384 && Length(layout, Reduce(layout, s)) + Digits(signed.skeleton) + 4 <= 262144
  {
    var state := Begin(layout, s);
    while Length(layout, state.doc) > JSON_LIMIT && SomeTail(state.doc)
      invariant Paired(state)
      invariant Evictions(layout, state) == Evictions(layout, Begin(layout, s))
      decreases Weight(state)
    {
      EvictAllShrinks(state);
      var next := EvictStreams(state);
      state := next;
    }
    var d := DropDiagnostics(layout, state.doc);
    d := DropCommandPaths(layout, d);
    d := DropProgress(layout, d);
    d := d.(skeleton := Length(layout, Skeletal(d)));
    var unsigned := d;
    for pass := 0 to 4
      invariant pass == 0 ==> d == unsigned
      invariant pass == 1 ==> d == Measure(layout, unsigned)
      invariant pass == 2 ==> d == Measure(layout, Measure(layout, unsigned))
      invariant pass == 3 ==> d == Measure(layout, Measure(layout, Measure(layout, unsigned)))
      invariant pass == 4 ==> d == Measure(layout, Measure(layout, Measure(layout, Measure(layout, unsigned))))
    {
      d := d.(final := Length(layout, d));
    }
    signed := d;
    ReduceKeepsZeros(layout, s);
    SignedLengthIsTrue(layout, Reduce(layout, s));
    if signed.skeleton <= SKELETON_LIMIT {
      FinalAssertionHoldsExactly(layout, Reduce(layout, s));
    }
    SkeletonIsBlank(Reduce(layout, s));
    r := if d.skeleton > SKELETON_LIMIT then Err(SkeletonTooBig)
         else if Length(layout, d) > JSON_LIMIT then Err(DocumentTooBig)
         else Ok(Encoding(layout, d));
  }

  function NulsThenLetters(nuls: nat, letters: nat): seq<Byte> {
    if nuls > 0 then [0] + NulsThenLetters(nuls - 1, letters)
    else if letters > 0 then [120] + NulsThenLetters(0, letters - 1)
    else []
  }

  /** A NUL expands sixfold in JSON, a letter not at all. */
  lemma {:induction false} NulsExpand(nuls: nat, letters: nat)
    ensures |EscapedAll(DecodeReplace(NulsThenLetters(nuls, letters)))| == 6 * nuls + letters
    ensures |NulsThenLetters(nuls, letters)| == nuls + letters
  {
    var raw := NulsThenLetters(nuls, letters);
    if raw != [] {
      AsciiDecodes(raw);
      EscapedSizes(raw[0], DecodeReplace(raw[1..]));
      hide DecodeReplace, EscapedAll;
      if nuls > 0 {
        assert raw[1..] == NulsThenLetters(nuls - 1, letters);
        NulsExpand(nuls - 1, letters);
      } else {
        assert raw[1..] == NulsThenLetters(0, letters - 1);
        NulsExpand(0, letters - 1);
      }
    }
  }

  lemma EscapedSizes(c: CodePoint, t: Text)
    ensures |EscapedAll([c] + t)| == |Escaped(c)| + |EscapedAll(t)|
    ensures c == 0 ==> |Escaped(c)| == 6
    ensures c == 120 ==> |Escaped(c)| == 1
  {
    assert ([c] + t)[1..] == t;
  }

  lemma AsciiDecodes(raw: seq<Byte>)
    requires raw != [] && raw[0] < 128
    ensures DecodeReplace(raw) == [raw[0] as CodePoint] + DecodeReplace(raw[1..])
  {
    assert Take(raw, false) == (Point(raw[0]), 1);
  }

  // ----- a document on which it fails -----

  const NULS := 40000
  const ALL_DIGITS := 262139

  /** The document as the reductions first see it, but with nothing on its first stream. Its numbers
      have as many digits as they will have when that stream is full. */
  function Bare(s: State): Document
    requires Paired(s) && s.raws != []
  {
    var streams := seq(|s.doc.streams|, i requires 0 <= i < |s.doc.streams| =>
      if i == 0 then Entry([], NULS, NULS, 0) else s.doc.streams[i].(represented := s.doc.streams[i].retained, omitted := 0));
    s.doc.(streams := streams, initial := ALL_DIGITS, final := 0, skeleton := 0, reductions := [])
  }

  /** How many letters fill the document up to the limit, next to the NULs. */
  function Letters(layout: Layout, s: State): int
    requires Paired(s) && s.raws != []
  {
    JSON_LIMIT - 6 * NULS - Length(layout, Bare(s))
  }

  /** The same document with a full first stream: many NULs, then letters. */
  function Tight(s: State, letters: nat): (t: State)
    requires Paired(s) && s.raws != []
    ensures Paired(t)
  {
    var raw := NulsThenLetters(NULS, letters);
    State(s.doc.(streams := s.doc.streams[0 := Entry(DecodeReplace(raw), NULS + letters, 0, 0)]), s.raws[0 := raw])
  }

  /** Documents whose renderings have equal lengths hole by hole are equally long. */
  lemma {:induction false} SameLengths(layout: Layout, a: Document, b: Document)
    requires forall g :: |Render(g, a)| == |Render(g, b)|
    ensures Length(layout, a) == Length(layout, b)
  {
    hide Render;
    if layout != [] {
      SameLengths(layout[1..], a, b);
    }
  }

  /** What the filled document is, once the numbers are written into it. */
  function Filling(s: State, text: Text, n: nat): Document
    requires Paired(s) && s.raws != []
  {
    var bare := Bare(s);
    bare.(streams := bare.streams[0 := Entry(text, n, n, 0)])
  }

  lemma FillingLength(layout: Layout, s: State, text: Text, n: nat)
    requires Paired(s) && s.raws != [] && 10000 <= n < 100000
    requires Occurrences(layout, Tail(0)) == 1
    ensures Length(layout, Filling(s, text, n)) == Length(layout, Bare(s)) + |EscapedAll(text)|
  {
    hide EscapedAll, Encoding;
    FiveDigits(n);
    EmptyTail();
    hide Decimal;
    SameLengths(layout, Bare(s), Filling(s, [], n));
    OneHoleCounts(layout, Tail(0), Filling(s, [], n), Filling(s, text, n));
  }

  lemma InitialLength(layout: Layout, d: Document)
    requires Occurrences(layout, Initial) == 1 && d.initial == ALL_DIGITS
    ensures Length(layout, d.(initial := 0)) == Length(layout, d) - 5
  {
    hide EscapedAll, Encoding;
    FiveDigits(NULS);
    hide Decimal;
    OneHoleCounts(layout, Initial, d, d.(initial := 0));
  }

  lemma FillingSkeleton(layout: Layout, s: State, text: Text, n: nat)
    requires Paired(s) && s.raws != [] && 10000 <= n < 100000
    ensures Length(layout, Skeletal(Filling(s, text, n))) == Length(layout, Skeletal(Bare(s)))
  {
    hide EscapedAll, Encoding;
    FiveDigits(n);
    hide Decimal;
    SameLengths(layout, Skeletal(Bare(s)), Skeletal(Filling(s, text, n)));
  }

  lemma FiveDigits(n: nat)
    requires 10000 <= n < 100000
    ensures |Decimal(n)| == |Decimal(NULS)| == 5 && |Decimal(ALL_DIGITS)| == 6 && |Decimal(0)| == 1
  {
    assert |Decimal(n / 10000)| == 1 && |Decimal(n / 1000)| == 2 && |Decimal(n / 100)| == 3 && |Decimal(n / 10)| == 4;
    assert |Decimal(2)| == 1 && |Decimal(26)| == 2 && |Decimal(262)| == 3 && |Decimal(2621)| == 4 && |Decimal(26213)| == 5;
    assert |Decimal(4)| == 1 && |Decimal(40)| == 2 && |Decimal(400)| == 3 && |Decimal(4000)| == 4;
  }

  lemma TightBegins(layout: Layout, s: State, letters: nat)
    requires Paired(s) && s.raws != [] && letters < 60000
    requires Occurrences(layout, Tail(0)) == 1 && Occurrences(layout, Initial) == 1
    requires letters == Letters(layout, s)
    ensures var d := Begin(layout, Tight(s, letters)).doc;
            && Length(layout, d) == JSON_LIMIT && d.final == d.skeleton == 0
            && Length(layout, Skeletal(d)) == Length(layout, Skeletal(Bare(s)))
  {
    hide NulsThenLetters, DecodeReplace, Length, Occurrences, EscapedAll;
    var raw, n := NulsThenLetters(NULS, letters), NULS + letters;
    var text := DecodeReplace(raw);
    NulsExpand(NULS, letters);
    FillingLength(layout, s, text, n);
    FillingSkeleton(layout, s, text, n);
    InitialLength(layout, Filling(s, text, n));
    var full, d := Filling(s, text, n), Begin(layout, Tight(s, letters)).doc;
    assert d.(initial := 0) == full.(initial := 0);
    assert d == full;
  }

  /** The assertion does fail, whatever the layout of the document and whatever else is in it: on the
      first stream, NULs and letters up to the limit make a document that passes every size test
      with nothing to evict, and is too big once signed. */
  lemma AssertionCanFail(layout: Layout, s: State)
    requires Lawful(layout) && Occurrences(layout, Tail(0)) == 1 && Occurrences(layout, Initial) == 1
    requires Paired(s) && s.raws != [] && Letters(layout, s) >= 0
    requires Length(layout, Skeletal(Bare(s))) <= SKELETON_LIMIT
    ensures var t := Tight(s, Letters(layout, s));
            && |t.raws[0]| <= 65536
            && t.doc.streams[0].tail == DecodeReplace(t.raws[0]) && t.doc.streams[0].retained == |t.raws[0]|
            && Length(layout, Reduce(layout, t)) == JSON_LIMIT
            && Length(layout, Sign(layout, Reduce(layout, t))) > JSON_LIMIT
  {
    hide NulsThenLetters, DecodeReplace, Length, Occurrences, Lawful, Bare, Sign;
    var letters := Letters(layout, s);
    var t := Tight(s, letters);
    NulsExpand(NULS, letters);
    TightBegins(layout, s, letters);
    var d := Begin(layout, t).doc;
    assert Reduce(layout, t) == d;
    FinalAssertionHoldsExactly(layout, d);
    assert Digits(Length(layout, Skeletal(d))) >= 1;
  }

  // ----- what is evicted -----

  function Drop(raw: seq<Byte>, k: nat): seq<Byte> {
    raw[Min(k * 4096, |raw|)..]
  }

  /** The state after `k` turns of the eviction loop. */
  function Turns(s: State, k: nat): (r: State)
    requires Paired(s)
    ensures Paired(r) && |r.raws| == |s.raws|
  {
    if k == 0 then s else EvictAll(Turns(s, k - 1))
  }

  /** After some turns a stream holds its newest bytes, decoded, and accounts for the others. */
  predicate Accounts(e: Entry, was: Entry, kept: seq<Byte>) {
    && e.tail == DecodeReplace(kept) && e.represented == |kept|
    && e.retained == was.retained && e.represented + e.omitted == was.retained
  }

  lemma {:induction false} TurnsDrop(s: State, k: nat)
    requires Paired(s)
    ensures forall i :: 0 <= i < |s.raws| ==>
              && Turns(s, k).raws[i] == Drop(s.raws[i], k)
              && Turns(s, k).doc.streams[i].retained == s.doc.streams[i].retained
              && (k > 0 ==> Accounts(Turns(s, k).doc.streams[i], s.doc.streams[i], Drop(s.raws[i], k)))
  {
    hide DecodeReplace;
    if k > 0 {
      TurnsDrop(s, k - 1);
    }
  }

  lemma {:induction false} EvictionsAreTurns(layout: Layout, s: State) returns (k: nat)
    requires Paired(s)
    ensures Evictions(layout, s) == Turns(s, k) && !MustEvict(layout, Turns(s, k).doc)
    ensures forall j: nat :: j < k ==> MustEvict(layout, Turns(s, j).doc)
    decreases Weight(s)
  {
    hide Length, EvictAll, Weight;
    if !MustEvict(layout, s.doc) {
      k := 0;
    } else {
      EvictAllShrinks(s);
      var next := EvictAll(s);
      var m := EvictionsAreTurns(layout, next);
      TurnsShift(s, m);
      forall j: nat | j < m + 1
        ensures MustEvict(layout, Turns(s, j).doc)
      {
        if j > 0 {
          TurnsShift(s, j - 1);
        }
      }
      k := m + 1;
    }
  }

  lemma {:induction false} TurnsShift(s: State, k: nat)
    requires Paired(s)
    ensures Turns(s, k + 1) == Turns(EvictAll(s), k)
  {
    hide EvictAll;
    if k > 0 {
      TurnsShift(s, k - 1);
    }
  }

  /** What the reductions do to the tails: all lose the same number of blocks from their front, exactly
      as many as it takes to fit or to run out of tails. For each stream the bytes represented are
      those of its remaining tail, and with the omitted ones they make up what was retained. Without
      a turn the tails stay as they were given. */
  lemma EvictionIsMinimal(layout: Layout, s: State) returns (k: nat)
    requires Paired(s)
    ensures var d, b := Reduce(layout, s), Begin(layout, s).doc;
            && |d.streams| == |s.raws|
            && (forall i :: 0 <= i < |s.raws| ==>
                  && d.streams[i].represented + d.streams[i].omitted == s.doc.streams[i].retained
                  && (k > 0 || Consistent(Begin(layout, s)) ==> Accounts(d.streams[i], b.streams[i], Drop(s.raws[i], k)))
                  && (k == 0 ==> d.streams[i].tail == s.doc.streams[i].tail))
    ensures forall j: nat :: j < k ==> TooLongWithTails(layout, Turns(Begin(layout, s), j).doc)
    ensures !TooLongWithTails(layout, Turns(Begin(layout, s), k).doc)
  {
    hide Length, MustEvict, TooLongWithTails, DecodeReplace;
    var b := Begin(layout, s);
    k := EvictionsAreTurns(layout, b);
    MustEvictMeans(layout);
    TurnsDrop(b, k);
    assert Reduce(layout, s).streams == Turns(b, k).doc.streams;
    assert k == 0 ==> forall i :: 0 <= i < |s.raws| ==> Drop(s.raws[i], k) == s.raws[i];
  }
}
