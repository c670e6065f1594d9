/** Deriving the exact bytes of a managed `.gitignore`: every managed block is replaced by one copy
    of the template, in the place of the first; a file without one has the template appended. */
module Gitignore {
  import opened Core

  type Bytes = seq<Byte>

  const RETURN: Byte := 13

  /** The bytes of ASCII text. */
  function Ascii(s: string): (r: Bytes)
    ensures |r| == |s|
    ensures forall i :: 0 <= i < |s| && s[i] < 128 as char ==> r[i] == s[i] as int
  {
    seq(|s|, i requires 0 <= i < |s| => if s[i] < 128 as char then s[i] as int else 0)
  }

  /** Neither NUL nor a line break. */
  predicate Clean(b: Bytes) {
    0 !in b && NEWLINE !in b && RETURN !in b
  }

  const OPENING: Bytes := Ascii("# AWF ")
  const HEADER: Bytes :=
    OPENING + Ascii("operating recovery ") + Ascii("files are local; ") + Ascii("changes/ is ")
    + Ascii("versioned audit ") + Ascii("evidence.")
  const TERMINAL: Bytes := Ascii(".awf-*.tmp")

  lemma HeaderShape()
    ensures HEADER != [] && Clean(HEADER) && OPENING <= HEADER && |OPENING| < |HEADER|
    ensures TERMINAL != [] && Clean(TERMINAL) && HEADER[0] == 35
    ensures TERMINAL[0] == 46 && |TERMINAL| == 10
  {
    CleanEnds();
    CleanMiddle();
    CleanRest();
    assert OPENING[0] == "# AWF "[0] as int;
    assert TERMINAL[0] == ".awf-*.tmp"[0] as int;
    hide Ascii;
  }

  lemma CleanEnds()
    ensures Clean(OPENING) && Clean(TERMINAL) && Clean(Ascii("evidence."))
  {
  }

  lemma CleanMiddle()
    ensures Clean(Ascii("operating recovery ")) && Clean(Ascii("files are local; "))
  {
  }

  lemma CleanRest()
    ensures Clean(Ascii("changes/ is ")) && Clean(Ascii("versioned audit "))
  {
  }

  // ----- lines -----

  /** The length of the first line, its newline included. */
  function LineLength(x: Bytes): (n: nat)
    requires x != []
    ensures 1 <= n <= |x|
    ensures NEWLINE !in x[..n - 1]
    ensures x[n - 1] == NEWLINE || n == |x|
  {
    if x[0] == NEWLINE || |x| == 1 then 1 else 1 + LineLength(x[1..])
  }

  function Lines(x: Bytes): seq<Bytes> {
    if x == [] then [] else [x[..LineLength(x)]] + Lines(x[LineLength(x)..])
  }

  predicate Ended(x: Bytes) {
    x != [] && x[|x| - 1] == NEWLINE
  }

  /** A line: not empty, and with a newline at most at its end. */
  predicate IsLine(x: Bytes) {
    x != [] && NEWLINE !in x[..|x| - 1]
  }

  /** Lines as a file holds them: only the last may lack its newline. */
  predicate AreLines(ls: seq<Bytes>) {
    forall i :: 0 <= i < |ls| ==> IsLine(ls[i]) && (i < |ls| - 1 ==> Ended(ls[i]))
  }

  function Concat(ls: seq<Bytes>): Bytes {
    if ls == [] then [] else Concat(ls[..|ls| - 1]) + ls[|ls| - 1]
  }

  lemma ConcatOne(l: Bytes)
    ensures Concat([l]) == l
  {
    assert [l] == [] + [l];
    assert Concat([]) == [];
  }

  lemma {:induction false} ConcatAppend(a: seq<Bytes>, b: seq<Bytes>)
    ensures Concat(a + b) == Concat(a) + Concat(b)
  {
    if b == [] {
      assert a + b == a;
    } else {
      var before, last := b[..|b| - 1], b[|b| - 1];
      assert (a + b)[..|a + b| - 1] == a + before;
      ConcatAppend(a, before);
      ConcatAssociates(Concat(a), Concat(before), last);
    }
  }

  lemma {:induction false} FirstLine(l: Bytes, rest: Bytes)
    requires IsLine(l) && (rest == [] || Ended(l))
    ensures LineLength(l + rest) == |l|
    decreases |l|
  {
    if |l| > 1 {
      assert l[0] == l[..|l| - 1][0] && l[1..][..|l| - 2] == l[..|l| - 1][1..];
      assert (l + rest)[1..] == l[1..] + rest;
      FirstLine(l[1..], rest);
    }
  }

  lemma LinesCons(l: Bytes, rest: Bytes)
    requires IsLine(l) && (rest == [] || Ended(l))
    ensures Lines(l + rest) == [l] + Lines(rest)
  {
    FirstLine(l, rest);
    assert (l + rest)[..|l|] == l && (l + rest)[|l|..] == rest;
  }

  /** Cutting a concatenation of lines into lines gives the lines back. */
  lemma {:induction false} LinesOfConcat(ls: seq<Bytes>)
    requires AreLines(ls)
    ensures Lines(Concat(ls)) == ls
    decreases |ls|
  {
    if ls != [] {
      ConcatAppend([ls[0]], ls[1..]);
      assert [ls[0]] + ls[1..] == ls;
      ConcatOne(ls[0]);
      LinesOfConcat(ls[1..]);
      if |ls| == 1 {
        assert Concat(ls[1..]) == [];
      }
      LinesCons(ls[0], Concat(ls[1..]));
    }
  }

  lemma {:induction false} LinesOf(x: Bytes)
    ensures AreLines(Lines(x)) && Concat(Lines(x)) == x
    ensures x != [] ==> Lines(x) != [] && Ended(x) == Ended(Lines(x)[|Lines(x)| - 1])
    decreases |x|
  {
    hide Concat, Lines, LineLength, AreLines;
    NoLines();
    if x != [] {
      var l, rest := CutLine(x);
      LinesOf(rest);
      ConcatAppend([l], Lines(rest));
      ConcatOne(l);
      AreLinesCons(l, Lines(rest));
    }
  }

  lemma NoLines()
    ensures Lines([]) == [] && AreLines([]) && AllEnded([]) && Concat([]) == []
  {
  }

  lemma CutLine(x: Bytes) returns (l: Bytes, rest: Bytes)
    requires x != []
    ensures l == x[..LineLength(x)] && rest == x[LineLength(x)..] && x == l + rest && |rest| < |x|
    ensures IsLine(l) && (rest == [] || Ended(l)) && (rest != [] ==> Ended(x) == Ended(rest))
    ensures Lines(x) == [l] + Lines(rest)
  {
    var n := LineLength(x);
    l, rest := x[..n], x[n..];
    assert l[..n - 1] == x[..n - 1];
  }

  lemma AreLinesCons(l: Bytes, ls: seq<Bytes>)
    requires IsLine(l) && AreLines(ls) && (ls == [] || Ended(l))
    ensures AreLines([l] + ls)
  {
    forall i | 0 <= i < |[l] + ls|
      ensures IsLine(([l] + ls)[i]) && (i < |ls| ==> Ended(([l] + ls)[i]))
    {
      assert i > 0 ==> ([l] + ls)[i] == ls[i - 1];
    }
  }

  // ----- the scan -----

  datatype Kind = Header | Suspicious | Terminal | Ordinary

  function WithoutReturn(l: Bytes): Bytes {
    if l != [] && l[|l| - 1] == RETURN then l[..|l| - 1] else l
  }

  /** A line's text: a newline takes a carriage return before it along. */
  function Text(raw: Bytes): Bytes {
    if Ended(raw) then WithoutReturn(raw[..|raw| - 1]) else raw
  }

  function KindOf(line: Bytes): Kind {
    if line == HEADER then Header
    else if HEADER <= line || (OPENING <= line && line <= HEADER) then Suspicious
    else if line == TERMINAL then Terminal
    else Ordinary
  }

  /** What a file consists of: lines outside the blocks, and managed blocks. */
  datatype Piece = Kept(raw: Bytes) | Managed(bytes: Bytes)

  datatype State = Refused | Scanned(pieces: seq<Piece>, open: Option<Bytes>)

  const START: State := Scanned([], None)

  function Step(s: State, raw: Bytes): State {
    match s
    case Refused => Refused
    case Scanned(pieces, open) =>
      match (KindOf(Text(raw)), open)
      case (Header, None) => Scanned(pieces, Some(raw))
      case (Header, Some(_)) => Refused
      case (Suspicious, _) => Refused
      case (Terminal, Some(block)) => Scanned(pieces + [Managed(block + raw)], None)
      case (Ordinary, Some(block)) => Scanned(pieces, Some(block + raw))
      case (_, None) => Scanned(pieces + [Kept(raw)], None)
  }

  function Run(s: State, ls: seq<Bytes>): State {
    if ls == [] then s else Step(Run(s, ls[..|ls| - 1]), ls[|ls| - 1])
  }

  /** The pieces of a file, unless a header is spoilt, doubled or left without its terminal. */
  function Parse(x: Bytes): Option<seq<Piece>> {
    match Run(START, Lines(x))
    case Scanned(pieces, None) => Some(pieces)
    case _ => None
  }

  function PieceBytes(p: Piece): Bytes {
    match p
    case Kept(raw) => raw
    case Managed(bytes) => bytes
  }

  function AllBytes(pieces: seq<Piece>): Bytes {
    if pieces == [] then [] else AllBytes(pieces[..|pieces| - 1]) + PieceBytes(pieces[|pieces| - 1])
  }

  function Outside(pieces: seq<Piece>): Bytes {
    if pieces == [] then []
    else Outside(pieces[..|pieces| - 1]) + if pieces[|pieces| - 1].Kept? then pieces[|pieces| - 1].raw else []
  }

  function Blocks(pieces: seq<Piece>): seq<Bytes> {
    if pieces == [] then []
    else Blocks(pieces[..|pieces| - 1]) + if pieces[|pieces| - 1].Managed? then [pieces[|pieces| - 1].bytes] else []
  }

  /** The template in the place of the first block; the other blocks gone. */
  function Render(pieces: seq<Piece>, required: Bytes): Bytes {
    if pieces == [] then []
    else
      var before, last := pieces[..|pieces| - 1], pieces[|pieces| - 1];
      Render(before, required) + if last.Kept? then last.raw else if Blocks(before) == [] then required else []
  }

  function Separator(existing: Bytes): Bytes {
    if existing != [] && !Ended(existing) then [NEWLINE] else []
  }

  predicate Shippable(required: Bytes) {
    Ended(required) && 0 !in required
  }

  function Rewrite(required: Bytes, existing: Option<Bytes>): Option<Bytes> {
    if !Shippable(required) then None
    else
      match existing
      case None => Some(required)
      case Some(x) =>
        match Parse(x)
        case None => None
        case Some(pieces) =>
          if Blocks(pieces) == [] then Some(x + Separator(x) + required) else Some(Render(pieces, required))
  }

  // ----- the scanning loop -----

  type Span = (nat, nat)

  function SpansOf(pieces: seq<Piece>): seq<Span> {
    if pieces == [] then []
    else
      var before, last := pieces[..|pieces| - 1], pieces[|pieces| - 1];
      SpansOf(before) + if last.Managed? then [(|AllBytes(before)|, |AllBytes(pieces)|)] else []
  }

  /** What the scan has found after the first `at` bytes. */
  ghost predicate Tracks(s: State, x: Bytes, at: nat, start: Option<nat>, spans: seq<Span>) {
    && s.Scanned? && at <= |x|
    && spans == SpansOf(s.pieces)
    && start == (if s.open.Some? then Some(|AllBytes(s.pieces)|) else None)
    && x[..at] == AllBytes(s.pieces) + if s.open.Some? then s.open.value else []
  }

  lemma StepTracks(s: State, x: Bytes, at: nat, start: Option<nat>, spans: seq<Span>, next: nat)
    requires Tracks(s, x, at, start, spans) && at <= next <= |x|
    ensures var raw := x[at..next];
            match (KindOf(Text(raw)), start)
            case (Header, None) => Tracks(Step(s, raw), x, next, Some(at), spans)
            case (Header, Some(_)) => Step(s, raw) == Refused
            case (Suspicious, _) => Step(s, raw) == Refused
            case (Terminal, Some(from)) => Tracks(Step(s, raw), x, next, None, spans + [(from, next)])
            case _ => Tracks(Step(s, raw), x, next, start, spans)
  {
    hide KindOf, Text, Tracks;
    var raw := x[at..next];
    TracksIsScanned(s, x, at, start, spans);
    if s.open.None? {
      TracksOutside(s.pieces, x, at, spans, next);
    } else {
      TracksInside(s.pieces, s.open.value, x, at, start.value, spans, next);
    }
  }

  lemma TracksIsScanned(s: State, x: Bytes, at: nat, start: Option<nat>, spans: seq<Span>)
    requires Tracks(s, x, at, start, spans)
    ensures s.Scanned? && (s.open.Some? <==> start.Some?)
  {
  }

  lemma TracksOutside(pieces: seq<Piece>, x: Bytes, at: nat, spans: seq<Span>, next: nat)
    requires Tracks(Scanned(pieces, None), x, at, None, spans) && at <= next <= |x|
    ensures Tracks(Scanned(pieces, Some(x[at..next])), x, next, Some(at), spans)
    ensures Tracks(Scanned(pieces + [Kept(x[at..next])], None), x, next, None, spans)
  {
    hide AllBytes, SpansOf;
    var raw := x[at..next];
    PiecesSnoc(pieces, Kept(raw), []);
    assert x[..next] == x[..at] + raw;
    assert x[..at] == AllBytes(pieces);
    assert spans + [] == spans;
  }

  lemma TracksInside(pieces: seq<Piece>, block: Bytes, x: Bytes, at: nat, start: nat, spans: seq<Span>, next: nat)
    requires Tracks(Scanned(pieces, Some(block)), x, at, Some(start), spans) && at <= next <= |x|
    ensures Tracks(Scanned(pieces, Some(block + x[at..next])), x, next, Some(start), spans)
    ensures Tracks(Scanned(pieces + [Managed(block + x[at..next])], None), x, next, None, spans + [(start, next)])
  {
    hide AllBytes, SpansOf;
    var raw := x[at..next];
    PiecesSnoc(pieces, Managed(block + raw), []);
    assert x[..at] == AllBytes(pieces) + block;
    assert x[..next] == x[..at] + raw;
    assert AllBytes(pieces) + block + raw == AllBytes(pieces) + (block + raw);
  }

  lemma {:induction false} RefusedStays(ls: seq<Bytes>)
    ensures Run(Refused, ls) == Refused
  {
    if ls != [] {
      RefusedStays(ls[..|ls| - 1]);
    }
  }

  lemma {:induction false} RunAppend(s: State, a: seq<Bytes>, b: seq<Bytes>)
    ensures Run(s, a + b) == Run(Run(s, a), b)
  {
    if b == [] {
      assert a + b == a;
    } else {
      assert (a + b)[..|a + b| - 1] == a + b[..|b| - 1];
      RunAppend(s, a, b[..|b| - 1]);
    }
  }

  lemma RunCons(s: State, l: Bytes, rest: seq<Bytes>)
    ensures Run(s, [l] + rest) == Run(Step(s, l), rest)
  {
    RunAppend(s, [l], rest);
    assert Run(s, [l]) == Step(Run(s, []), l);
  }

  /** The managed blocks as spans of positions, unless the file is refused. */
  method Scan(x: Bytes) returns (r: Option<seq<Span>>)
    ensures r == match Parse(x) case None => None case Some(pieces) => Some(SpansOf(pieces))
    ensures Parse(x).Some? ==> AllBytes(Parse(x).value) == x
  {
    hide Step, Tracks, KindOf, Text, Lines, LineLength, Run, AllBytes, SpansOf;
    var spans: seq<Span>, start: Option<nat>, at: nat := [], None, 0;
    ghost var s := START;
    StartTracks(x);
    assert x[0..] == x;
    while at < |x|
      invariant at <= |x| && Tracks(s, x, at, start, spans)
      invariant Run(s, Lines(x[at..])) == Run(START, Lines(x))
      decreases |x| - at
    {
      var next := at + LineLength(x[at..]);
      var raw := x[at..next];
      ghost var l, rest := CutLine(x[at..]);
      assert l == raw && rest == x[next..];
      RunCons(s, raw, Lines(rest));
      RefusedStays(Lines(rest));
      StepTracks(s, x, at, start, spans, next);
      match KindOf(Text(raw)) {
        case Header =>
          if start.Some? {
            return None;
          }
          start := Some(at);
        case Suspicious =>
          return None;
        case Terminal =>
          if start.Some? {
            spans, start := spans + [(start.value, next)], None;
          }
        case Ordinary =>
      }
      s, at := Step(s, raw), next;
    }
    EndTracks(s, x, start, spans);
    if start.Some? {
      return None;
    }
    return Some(spans);
  }

  lemma StartTracks(x: Bytes)
    ensures Tracks(START, x, 0, None, [])
  {
  }

  lemma EndTracks(s: State, x: Bytes, start: Option<nat>, spans: seq<Span>)
    requires Tracks(s, x, |x|, start, spans)
    ensures Lines(x[|x|..]) == [] && Run(s, []) == s && s.Scanned? && (s.open.Some? <==> start.Some?)
    ensures spans == SpansOf(s.pieces) && (start.None? ==> AllBytes(s.pieces) == x)
  {
    assert x[..|x|] == x;
  }

  // ----- the rebuilding loop -----

  predicate InOrder(spans: seq<Span>, end: nat) {
    && (forall i :: 0 <= i < |spans| ==> spans[i].0 <= spans[i].1 <= end)
    && (forall i :: 0 < i < |spans| ==> spans[i - 1].1 <= spans[i].0)
  }

  function LastEnd(spans: seq<Span>): nat {
    if spans == [] then 0 else spans[|spans| - 1].1
  }

  lemma {:induction false} SpansInOrder(pieces: seq<Piece>)
    ensures InOrder(SpansOf(pieces), |AllBytes(pieces)|)
    ensures |SpansOf(pieces)| == |Blocks(pieces)|
  {
    if pieces != [] {
      SpansInOrder(pieces[..|pieces| - 1]);
    }
  }

  /** The output once everything up to the end of the last of the given spans is done. */
  function Rebuilt(x: Bytes, spans: seq<Span>, required: Bytes): Bytes
    requires InOrder(spans, |x|)
  {
    if spans == [] then []
    else
      var before, last := spans[..|spans| - 1], spans[|spans| - 1];
      Rebuilt(x, before, required) + x[LastEnd(before)..last.0] + if before == [] then required else []
  }

  lemma {:induction false} RebuiltIsPrefixed(x: Bytes, y: Bytes, spans: seq<Span>, required: Bytes)
    requires InOrder(spans, |x|)
    ensures InOrder(spans, |x + y|)
    ensures Rebuilt(x + y, spans, required) == Rebuilt(x, spans, required)
  {
    if spans != [] {
      var before, last := spans[..|spans| - 1], spans[|spans| - 1];
      RebuiltIsPrefixed(x, y, before, required);
      SamePart(x, y, LastEnd(before), last.0);
    }
  }

  lemma SamePart(x: Bytes, y: Bytes, from: nat, to: nat)
    requires from <= to <= |x|
    ensures (x + y)[from..to] == x[from..to] && (x + y)[from..] == x[from..] + y
  {
  }

  ghost predicate Rebuilds(pieces: seq<Piece>, required: Bytes) {
    var x, spans := AllBytes(pieces), SpansOf(pieces);
    InOrder(spans, |x|) && Rebuilt(x, spans, required) + x[LastEnd(spans)..] == Render(pieces, required)
  }

  /** Copying between the spans renders the pieces. */
  lemma {:induction false} RebuildingRenders(pieces: seq<Piece>, required: Bytes)
    ensures Rebuilds(pieces, required)
  {
    if pieces != [] {
      hide Rebuilds;
      var before, last := pieces[..|pieces| - 1], pieces[|pieces| - 1];
      assert pieces == before + [last];
      RebuildingRenders(before, required);
      if last.Kept? {
        RebuildsKept(before, last.raw, required);
      } else {
        RebuildsManaged(before, last.bytes, required);
      }
    }
  }

  lemma RebuildsKept(before: seq<Piece>, raw: Bytes, required: Bytes)
    requires Rebuilds(before, required)
    ensures Rebuilds(before + [Kept(raw)], required)
  {
    PiecesSnoc(before, Kept(raw), required);
    hide AllBytes, Rebuilt, Render, SpansOf, Blocks;
    var x, spans := AllBytes(before), SpansOf(before);
    var from := LastEnd(spans);
    RebuiltIsPrefixed(x, raw, spans, required);
    SamePart(x, raw, from, |x|);
    assert SpansOf(before + [Kept(raw)]) == spans && AllBytes(before + [Kept(raw)]) == x + raw;
    assert Rebuilt(x, spans, required) + (x[from..] + raw) == (Rebuilt(x, spans, required) + x[from..]) + raw;
  }

  lemma RebuildsManaged(before: seq<Piece>, bytes: Bytes, required: Bytes)
    requires Rebuilds(before, required)
    ensures Rebuilds(before + [Managed(bytes)], required)
  {
    PiecesSnoc(before, Managed(bytes), required);
    SpansInOrder(before);
    hide AllBytes, Rebuilt, Render, SpansOf, Blocks;
    var x, spans := AllBytes(before), SpansOf(before);
    RebuiltIsPrefixed(x, bytes, spans, required);
    SamePart(x, bytes, LastEnd(spans), |x|);
    assert x[LastEnd(spans)..|x|] == x[LastEnd(spans)..];
    RebuiltSnoc(x + bytes, spans, (|x|, |x + bytes|), required);
    assert (x + bytes)[|x + bytes|..] == [];
  }

  lemma PiecesSnoc(before: seq<Piece>, last: Piece, required: Bytes)
    ensures AllBytes(before + [last]) == AllBytes(before) + PieceBytes(last)
    ensures SpansOf(before + [last])
         == SpansOf(before) + if last.Managed? then [(|AllBytes(before)|, |AllBytes(before + [last])|)] else []
    ensures Blocks(before + [last]) == Blocks(before) + if last.Managed? then [last.bytes] else []
    ensures Outside(before + [last]) == Outside(before) + if last.Kept? then last.raw else []
    ensures Render(before + [last], required)
         == Render(before, required) + if last.Kept? then last.raw else if Blocks(before) == [] then required else []
  {
    assert (before + [last])[..|before|] == before;
  }

  lemma RebuiltSnoc(x: Bytes, spans: seq<Span>, last: Span, required: Bytes)
    requires InOrder(spans, last.0) && last.0 <= last.1 <= |x|
    ensures InOrder(spans + [last], |x|)
    ensures Rebuilt(x, spans + [last], required)
         == Rebuilt(x, spans, required) + x[LastEnd(spans)..last.0] + if spans == [] then required else []
  {
    assert (spans + [last])[..|spans|] == spans;
  }

  method Rebuild(x: Bytes, spans: seq<Span>, required: Bytes) returns (r: Bytes)
    requires InOrder(spans, |x|)
    ensures r == Rebuilt(x, spans, required) + x[LastEnd(spans)..]
  {
    var outside: Bytes, previous: nat := [], 0;
    for index := 0 to |spans|
      invariant outside == Rebuilt(x, spans[..index], required) && previous == LastEnd(spans[..index])
      invariant previous <= |x|
    {
      var (start, end) := spans[index];
      assert spans[..index + 1][..index] == spans[..index];
      outside := outside + x[previous..start];
      if index == 0 {
        outside := outside + required;
      }
      previous := end;
    }
    assert spans[..|spans|] == spans;
    return outside + x[previous..];
  }

  /** The rewriter; `required` is the template, unless it cannot be read. */
  method ExpectedGitignore(required: Option<Bytes>, existing: Option<Bytes>) returns (r: Option<Bytes>)
    ensures r == if required.None? then None else Rewrite(required.value, existing)
  {
    hide Parse, Render, Rebuilt;
    if required.None? || !Ended(required.value) || 0 in required.value {
      return None;
    }
    if existing.None? {
      return required;
    }
    var x := existing.value;
    var spans := Scan(x);
    if spans.None? {
      return None;
    }
    SpansInOrder(Parse(x).value);
    if spans.value == [] {
      var separator := if x != [] && !Ended(x) then [NEWLINE] else [];
      return Some(x + separator + required.value);
    }
    RebuildingRenders(Parse(x).value, required.value);
    assert Rebuilds(Parse(x).value, required.value);
    var rebuilt := Rebuild(x, spans.value, required.value);
    return Some(rebuilt);
  }

  // ----- what rewriting keeps -----

  predicate Plain(raw: Bytes) {
    KindOf(Text(raw)) in {Terminal, Ordinary}
  }

  /** A template of one block: a header, ordinary lines, a terminal. */
  predicate Template(required: Bytes) {
    var ls := Lines(required);
    && Shippable(required) && |ls| >= 2
    && KindOf(Text(ls[0])) == Header && KindOf(Text(ls[|ls| - 1])) == Terminal
    && forall i :: 0 < i < |ls| - 1 ==> KindOf(Text(ls[i])) == Ordinary
  }

  // ----- the templates there are -----

  /** An entry of a template: a line that is no comment and not as long as the terminal. */
  predicate IsEntry(line: Bytes) {
    line != [] && Clean(line) && line[0] != HEADER[0] && |line| != |TERMINAL|
  }

  function Terminated(lines: seq<Bytes>): seq<Bytes> {
    seq(|lines|, i requires 0 <= i < |lines| => lines[i] + [NEWLINE])
  }

  /** The lines of a template with these entries. */
  function BlockLines(entries: seq<Bytes>): seq<Bytes> {
    Terminated([HEADER] + entries + [TERMINAL])
  }

  lemma {:induction false} ConcatHasNoNul(ls: seq<Bytes>)
    requires forall i :: 0 <= i < |ls| ==> 0 !in ls[i]
    ensures 0 !in Concat(ls)
  {
    if ls != [] {
      ConcatHasNoNul(ls[..|ls| - 1]);
    }
  }

  lemma TextOfClean(line: Bytes)
    requires line != [] && Clean(line)
    ensures Text(line + [NEWLINE]) == line && IsLine(line + [NEWLINE]) && Ended(line + [NEWLINE]) && 0 !in line + [NEWLINE]
  {
    assert (line + [NEWLINE])[..|line|] == line && line[|line| - 1] in line;
  }

  lemma KindOfEntry(line: Bytes)
    requires IsEntry(line)
    ensures KindOf(line) == Ordinary
  {
    HeaderShape();
    hide Ascii;
  }

  /** Every list of entries between header and terminal is a template. */
  lemma EntriesMakeATemplate(entries: seq<Bytes>)
    requires forall i :: 0 <= i < |entries| ==> IsEntry(entries[i])
    ensures Template(Concat(BlockLines(entries))) && Lines(Concat(BlockLines(entries))) == BlockLines(entries)
  {
    HeaderShape();
    hide Ascii, Concat, Lines, KindOf, Text, IsLine, Ended;
    var texts, ls := [HEADER] + entries + [TERMINAL], BlockLines(entries);
    forall i | 0 <= i < |texts|
      ensures Text(ls[i]) == texts[i] && IsLine(ls[i]) && Ended(ls[i]) && 0 !in ls[i]
    {
      TextOfClean(texts[i]);
    }
    LinesOfConcat(ls);
    LinesOf(Concat(ls));
    NoLines();
    ConcatHasNoNul(ls);
    EndKinds();
    forall i | 0 < i < |ls| - 1
      ensures KindOf(Text(ls[i])) == Ordinary
    {
      KindOfEntry(entries[i - 1]);
    }
  }

  lemma EndKinds()
    ensures KindOf(HEADER) == Header && KindOf(TERMINAL) == Terminal
  {
    HeaderShape();
    hide Ascii;
  }

  /** The entries of the template that ships. */
  const SHIPPED: seq<Bytes> :=
    [Ascii(".agentic/.venv/"), Ascii(".agentic-install/"), Ascii(".agentic-backup/"), Ascii("_to_delete/"),
     Ascii(".agentic-state/") + Ascii("**/lock"),
     Ascii(".agentic-state/") + Ascii("operating/") + Ascii("pending.json"),
     Ascii(".agentic-state/") + Ascii("publication-deny.json"),
     Ascii("*.awf-operating-*.tmp")]

  lemma ShippedWords()
    ensures IsEntry(Ascii(".agentic/.venv/")) && IsEntry(Ascii(".agentic-install/"))
    ensures IsEntry(Ascii(".agentic-state/"))
  {
    HeaderShape();
  }

  lemma MoreShippedWords()
    ensures IsEntry(Ascii(".agentic-backup/")) && IsEntry(Ascii("_to_delete/")) && IsEntry(Ascii("*.awf-operating-*.tmp"))
  {
    HeaderShape();
  }

  lemma ShippedEndings()
    ensures Clean(Ascii("**/lock")) && Clean(Ascii("operating/")) && Clean(Ascii("pending.json"))
    ensures Clean(Ascii("publication-deny.json"))
  {
  }

  /** The shipped template is one. */
  lemma ShippedIsTemplate()
    ensures Template(Concat(BlockLines(SHIPPED)))
  {
    ShippedWords();
    MoreShippedWords();
    ShippedEndings();
    HeaderShape();
    hide Ascii;
    EntriesMakeATemplate(SHIPPED);
  }

  // ----- running the scan over lines -----

  lemma {:induction false} InsideTheBlock(pieces: seq<Piece>, block: Bytes, ls: seq<Bytes>)
    requires forall i :: 0 <= i < |ls| ==> KindOf(Text(ls[i])) == Ordinary
    ensures Run(Scanned(pieces, Some(block)), ls) == Scanned(pieces, Some(block + Concat(ls)))
  {
    hide KindOf, Text;
    assert block + [] == block;
    if ls != [] {
      var front, last := ls[..|ls| - 1], ls[|ls| - 1];
      InsideTheBlock(pieces, block, front);
      assert KindOf(Text(last)) == Ordinary && Concat(ls) == Concat(front) + last;
      assert block + Concat(front) + last == block + (Concat(front) + last);
    }
  }

  lemma TemplateRuns(pieces: seq<Piece>, required: Bytes)
    requires Template(required)
    ensures Run(Scanned(pieces, None), Lines(required)) == Scanned(pieces + [Managed(required)], None)
  {
    hide KindOf, Text, Lines, Run, Concat;
    LinesOf(required);
    var ls := Lines(required);
    var n := |ls|;
    var head, middle, tail := ls[0], ls[1..n - 1], ls[n - 1];
    assert ls == [head] + (middle + [tail]);
    RunCons(Scanned(pieces, None), head, middle + [tail]);
    RunAppend(Scanned(pieces, Some(head)), middle, [tail]);
    InsideTheBlock(pieces, head, middle);
    RunOne(Scanned(pieces, Some(head + Concat(middle))), tail);
    ConcatThree(head, middle, tail);
  }

  lemma RunOne(s: State, l: Bytes)
    ensures Run(s, [l]) == Step(s, l)
  {
    RunCons(s, l, []);
    assert [l] + [] == [l];
  }

  lemma ConcatThree(head: Bytes, middle: seq<Bytes>, tail: Bytes)
    ensures Concat([head] + (middle + [tail])) == head + Concat(middle) + tail
  {
    ConcatAppend([head], middle + [tail]);
    ConcatAppend(middle, [tail]);
    ConcatOne(head);
    ConcatOne(tail);
    hide Concat;
    assert head + Concat(middle) + tail == head + (Concat(middle) + tail);
  }

  /** The kept lines are lines the scan passes over; only the last may lack its newline. */
  predicate Tidy(pieces: seq<Piece>, ended: bool) {
    forall i :: 0 <= i < |pieces| && pieces[i].Kept? ==>
                  IsLine(pieces[i].raw) && Plain(pieces[i].raw) && (ended || i < |pieces| - 1 ==> Ended(pieces[i].raw))
  }

  lemma StepTidies(s: State, raw: Bytes)
    requires s.Scanned? && Tidy(s.pieces, true) && IsLine(raw)
    ensures var t := Step(s, raw);
            t.Scanned? ==> Tidy(t.pieces, Ended(raw)) && (t.open.Some? ==> t.pieces == s.pieces)
  {
    hide KindOf, Text;
  }

  lemma {:induction false} RunTidies(ls: seq<Bytes>)
    requires AreLines(ls) && (ls != [] ==> Ended(ls[|ls| - 1]))
    ensures Run(START, ls).Scanned? ==> Tidy(Run(START, ls).pieces, true)
  {
    if ls != [] {
      RunTidies(ls[..|ls| - 1]);
      hide Step, Tidy;
      var s := Run(START, ls[..|ls| - 1]);
      RefusedStays([ls[|ls| - 1]]);
      if s.Scanned? {
        StepTidies(s, ls[|ls| - 1]);
      }
    }
  }

  lemma ParseTidies(x: Bytes)
    ensures Parse(x).Some? ==> Tidy(Parse(x).value, x == [] || Ended(x))
  {
    LinesOf(x);
    var ls := Lines(x);
    if ls != [] {
      hide Step, Tidy, Lines;
      var front, u := ls[..|ls| - 1], ls[|ls| - 1];
      RunTidies(front);
      var s := Run(START, front);
      if s.Scanned? {
        StepTidies(s, u);
      }
    }
  }

  /** What the rewritten file consists of. */
  function Collapse(pieces: seq<Piece>, required: Bytes): seq<Piece> {
    if pieces == [] then []
    else
      var before, last := pieces[..|pieces| - 1], pieces[|pieces| - 1];
      Collapse(before, required) + if last.Kept? then [last] else if Blocks(before) == [] then [Managed(required)] else []
  }

  function RenderLines(pieces: seq<Piece>, required: Bytes): seq<Bytes> {
    if pieces == [] then []
    else
      var before, last := pieces[..|pieces| - 1], pieces[|pieces| - 1];
      RenderLines(before, required) + Added(last, required, Blocks(before) == [])
  }

  lemma {:induction false} CollapseShape(pieces: seq<Piece>, required: Bytes)
    ensures Blocks(Collapse(pieces, required)) == if Blocks(pieces) == [] then [] else [required]
    ensures Outside(Collapse(pieces, required)) == Outside(pieces)
    ensures Render(Collapse(pieces, required), required) == Render(pieces, required)
  {
    if pieces != [] {
      hide Blocks, Outside, Render;
      var before, last := pieces[..|pieces| - 1], pieces[|pieces| - 1];
      assert pieces == before + [last];
      CollapseShape(before, required);
      PiecesSnoc(before, last, required);
      var collapsed := Collapse(before, required);
      if last.Kept? {
        PiecesSnoc(collapsed, last, required);
        assert Collapse(pieces, required) == collapsed + [last];
      } else if Blocks(before) == [] {
        PiecesSnoc(collapsed, Managed(required), required);
        assert Collapse(pieces, required) == collapsed + [Managed(required)];
      } else {
        assert Collapse(pieces, required) == collapsed;
      }
    }
  }

  lemma TidyFront(pieces: seq<Piece>)
    requires Tidy(pieces, false) && pieces != []
    ensures Tidy(pieces[..|pieces| - 1], true) && Tidy(pieces[..|pieces| - 1], false)
    ensures pieces[|pieces| - 1].Kept? ==> Plain(pieces[|pieces| - 1].raw)
  {
    hide Plain;
  }

  lemma {:induction false} RenderedRuns(pieces: seq<Piece>, required: Bytes)
    requires Template(required) && Tidy(pieces, false)
    ensures Run(START, RenderLines(pieces, required)) == Scanned(Collapse(pieces, required), None)
  {
    if pieces != [] {
      hide Run, Template, Blocks, Added, Tidy;
      TidyFront(pieces);
      var before, last := pieces[..|pieces| - 1], pieces[|pieces| - 1];
      RenderedRuns(before, required);
      AddedRuns(Collapse(before, required), last, required, Blocks(before) == []);
      RunAppend(START, RenderLines(before, required), Added(last, required, Blocks(before) == []));
    }
  }

  /** The lines that the last piece contributes. */
  function Added(last: Piece, required: Bytes, first: bool): seq<Bytes> {
    if last.Kept? then [last.raw] else if first then Lines(required) else []
  }

  lemma AddedRuns(pieces: seq<Piece>, last: Piece, required: Bytes, first: bool)
    requires Template(required) && (last.Kept? ==> Plain(last.raw))
    ensures Run(Scanned(pieces, None), Added(last, required, first))
         == Scanned(pieces + if last.Kept? then [last] else if first then [Managed(required)] else [], None)
  {
    hide KindOf, Text;
    if last.Kept? {
      RunOne(Scanned(pieces, None), last.raw);
    } else if first {
      TemplateRuns(pieces, required);
    } else {
      assert pieces + [] == pieces;
    }
  }

  predicate AllEnded(ls: seq<Bytes>) {
    AreLines(ls) && (ls != [] ==> Ended(ls[|ls| - 1]))
  }

  lemma AreLinesAppend(a: seq<Bytes>, b: seq<Bytes>)
    requires AllEnded(a) && AreLines(b)
    ensures AreLines(a + b) && (AllEnded(b) ==> AllEnded(a + b))
  {
  }

  lemma {:induction false} RenderedLines(pieces: seq<Piece>, required: Bytes, ended: bool)
    requires Template(required) && Tidy(pieces, ended)
    ensures AreLines(RenderLines(pieces, required)) && (ended ==> AllEnded(RenderLines(pieces, required)))
    ensures Concat(RenderLines(pieces, required)) == Render(pieces, required)
  {
    hide Concat, AreLines, AllEnded, Template, Lines, Blocks, Added;
    NoLines();
    if pieces != [] {
      var before, last := pieces[..|pieces| - 1], pieces[|pieces| - 1];
      RenderedLines(before, required, true);
      var added := Added(last, required, Blocks(before) == []);
      AddedLines(last, required, Blocks(before) == [], ended);
      AreLinesAppend(RenderLines(before, required), added);
      ConcatAppend(RenderLines(before, required), added);
    }
  }

  lemma AddedLines(last: Piece, required: Bytes, first: bool, ended: bool)
    requires Template(required) && (last.Kept? ==> IsLine(last.raw) && (ended ==> Ended(last.raw)))
    ensures AreLines(Added(last, required, first)) && (ended ==> AllEnded(Added(last, required, first)))
    ensures Concat(Added(last, required, first)) == if last.Kept? then last.raw else if first then required else []
  {
    hide Lines, Concat, KindOf, Text, IsLine;
    LinesOf(required);
    ConcatOne(PieceBytes(last));
    NoLines();
    assert Ended(required) && Lines(required) != [];
    hide Template;
  }

  /** Rendering leaves the pieces outside the blocks and one block. */
  lemma RenderedParses(pieces: seq<Piece>, required: Bytes)
    requires Template(required) && Tidy(pieces, false)
    ensures Parse(Render(pieces, required)) == Some(Collapse(pieces, required))
  {
    RenderedLines(pieces, required, false);
    LinesOfConcat(RenderLines(pieces, required));
    RenderedRuns(pieces, required);
  }

  // ----- appending the template -----

  /** Without blocks the pieces are the file itself. */
  lemma {:induction false} NoBlocks(pieces: seq<Piece>, required: Bytes)
    requires Blocks(pieces) == []
    ensures Render(pieces, required) == Outside(pieces) == AllBytes(pieces)
    ensures Collapse(pieces, required) == pieces
  {
    if pieces != [] {
      NoBlocks(pieces[..|pieces| - 1], required);
    }
  }

  /** The part of the last line before its last byte. */
  function LastStem(x: Bytes): Bytes
    requires x != []
  {
    LinesOf(x);
    var u := Lines(x)[|Lines(x)| - 1];
    u[..|u| - 1]
  }

  /** An unfinished last line that becomes a spoilt header once a newline takes its carriage return. */
  predicate Spoils(x: Bytes) {
    x != [] && x[|x| - 1] == RETURN && OPENING <= LastStem(x) && LastStem(x) <= HEADER
  }

  /** Ending the last line of a file: its other lines stay. */
  lemma EndedLines(x: Bytes)
    requires x != [] && !Ended(x)
    ensures var ls := Lines(x);
            && ls != [] && AllEnded(ls[..|ls| - 1] + [ls[|ls| - 1] + [NEWLINE]])
            && Concat(ls[..|ls| - 1] + [ls[|ls| - 1] + [NEWLINE]]) == x + [NEWLINE]
            && ls[|ls| - 1] != [] && !Ended(ls[|ls| - 1]) && LastStem(x) == ls[|ls| - 1][..|ls[|ls| - 1]| - 1]
            && ls[|ls| - 1][|ls[|ls| - 1]| - 1] == x[|x| - 1]
  {
    LinesOf(x);
    var ls := Lines(x);
    hide Lines;
    var front, u := ls[..|ls| - 1], ls[|ls| - 1];
    assert Concat(ls) == Concat(front) + u;
    assert (u + [NEWLINE])[..|u|] == u;
    assert NEWLINE !in u by { assert u == u[..|u| - 1] + [u[|u| - 1]]; }
    ConcatAppend(front, [u + [NEWLINE]]);
    ConcatOne(u + [NEWLINE]);
  }

  /** What a newline does to the kind of a line the scan passed over. */
  lemma EndingALine(u: Bytes)
    requires u != [] && !Ended(u) && Plain(u)
    ensures var suspicious := u[|u| - 1] == RETURN && OPENING <= u[..|u| - 1] && u[..|u| - 1] <= HEADER;
            KindOf(Text(u + [NEWLINE])) == Suspicious <==> suspicious
    ensures KindOf(Text(u + [NEWLINE])) != Header
  {
    HeaderShape();
    hide Ascii;
    assert (u + [NEWLINE])[..|u|] == u;
    if u[|u| - 1] == RETURN {
      StemOfHeader(u, u[..|u| - 1]);
    }
  }

  /** A line the scan passes over does not become a header when its carriage return goes. */
  lemma StemOfHeader(u: Bytes, line: Bytes)
    requires Plain(u) && !Ended(u) && u == line + [RETURN]
    ensures !(HEADER <= line)
  {
    assert HEADER <= line ==> HEADER <= u;
  }

  /** The template appended to a file without blocks, its last line ended. */
  lemma AppendedParses(x: Bytes, required: Bytes)
    requires Template(required) && Parse(x).Some? && Blocks(Parse(x).value) == []
    ensures var pieces, result := Parse(x).value, Parse(x + Separator(x) + required);
            if Spoils(x) then result == None
            else
              && result.Some? && Blocks(result.value) == [required] && Outside(result.value) == x + Separator(x)
              && Render(result.value, required) == x + Separator(x) + required
  {
    hide Template, Parse, Blocks, Spoils;
    ParseTidies(x);
    ParsedBytes(x);
    NoBlocks(Parse(x).value, required);
    if x == [] || Ended(x) {
      NotSpoilt(x);
      AppendedToEnded(x, required);
      assert x + Separator(x) == x;
    } else {
      AppendedToUnfinished(x, required);
    }
  }

  lemma NotSpoilt(x: Bytes)
    requires x == [] || Ended(x)
    ensures !Spoils(x)
  {
  }

  function StateBytes(s: State): Bytes
    requires s.Scanned?
  {
    AllBytes(s.pieces) + if s.open.Some? then s.open.value else []
  }

  lemma StepBytes(s: State, raw: Bytes)
    requires s.Scanned? && Step(s, raw).Scanned?
    ensures StateBytes(Step(s, raw)) == StateBytes(s) + raw
  {
    hide AllBytes, KindOf, Text;
    PiecesSnoc(s.pieces, Kept(raw), []);
    if s.open.Some? {
      PiecesSnoc(s.pieces, Managed(s.open.value + raw), []);
    }
  }

  lemma {:induction false} RunBytes(ls: seq<Bytes>)
    ensures Run(START, ls).Scanned? ==> StateBytes(Run(START, ls)) == Concat(ls)
  {
    if ls != [] {
      hide Step, StateBytes;
      var front, raw := ls[..|ls| - 1], ls[|ls| - 1];
      RunBytes(front);
      RefusedStays([raw]);
      RunOne(Refused, raw);
      if Run(START, ls).Scanned? {
        StepBytes(Run(START, front), raw);
      }
    }
  }

  lemma ParsedBytes(x: Bytes)
    ensures Parse(x).Some? ==> AllBytes(Parse(x).value) == x
  {
    hide AllBytes, Run, Lines, Concat;
    LinesOf(x);
    RunBytes(Lines(x));
    if Parse(x).Some? {
      assert AllBytes(Parse(x).value) + [] == x;
    }
  }

  lemma AppendedToEnded(x: Bytes, required: Bytes)
    requires Template(required) && Parse(x).Some? && Blocks(Parse(x).value) == [] && (x == [] || Ended(x))
    requires AllBytes(Parse(x).value) == x && Tidy(Parse(x).value, true)
    ensures Parse(x + required) == Some(Parse(x).value + [Managed(required)])
    ensures Appended(Parse(x).value, x, required)
  {
    hide Template, Run, Concat, Blocks, Lines, AllBytes, Tidy, Appended;
    LinesOfConcatenation(x, required);
    RunAppend(START, Lines(x), Lines(required));
    TemplateRuns(Parse(x).value, required);
    AppendedShape(Parse(x).value, required);
  }

  lemma LinesOfConcatenation(x: Bytes, y: Bytes)
    requires x == [] || Ended(x)
    ensures Lines(x + y) == Lines(x) + Lines(y)
  {
    hide Lines, Concat;
    NoLines();
    LinesOf(x);
    LinesOf(y);
    AreLinesAppend(Lines(x), Lines(y));
    ConcatAppend(Lines(x), Lines(y));
    LinesOfConcat(Lines(x) + Lines(y));
  }

  /** What one block after pieces without blocks amounts to. */
  ghost predicate Appended(pieces: seq<Piece>, x: Bytes, required: Bytes) {
    var more := pieces + [Managed(required)];
    Blocks(more) == [required] && Outside(more) == x && Render(more, required) == x + required
  }

  lemma AppendedShape(pieces: seq<Piece>, required: Bytes)
    requires Blocks(pieces) == []
    ensures Appended(pieces, AllBytes(pieces), required)
  {
    NoBlocks(pieces, required);
    PiecesSnoc(pieces, Managed(required), required);
    hide Blocks, Outside, Render, AllBytes;
  }

  lemma AppendedToUnfinished(x: Bytes, required: Bytes)
    requires Template(required) && Parse(x).Some? && Blocks(Parse(x).value) == [] && x != [] && !Ended(x)
    ensures var y := x + [NEWLINE];
            if Spoils(x) then Parse(y + required) == None
            else Parse(y).Some? && Parse(y + required) == Some(Parse(y).value + [Managed(required)])
                 && Appended(Parse(y).value, y, required)
  {
    hide Template, Blocks, AllBytes, Tidy, Appended, Run, Lines, Concat;
    var y := x + [NEWLINE];
    var pieces, u := UnfinishedParse(x);
    if Spoils(x) {
      LinesOfConcatenation(y, required);
      RunAppend(START, Lines(y), Lines(required));
      RefusedStays(Lines(required));
    } else {
      ParsedBytes(y);
      ParseTidies(y);
      PiecesSnoc(pieces, Kept(u + [NEWLINE]), []);
      assert Blocks(pieces) + [] == Blocks(pieces);
      AppendedToEnded(y, required);
    }
  }

  /** Where a file without blocks ends in an unfinished line: the line is kept, and what a newline
      after it would do. */
  lemma UnfinishedParse(x: Bytes) returns (pieces: seq<Piece>, u: Bytes)
    requires Parse(x).Some? && Blocks(Parse(x).value) == [] && x != [] && !Ended(x)
    ensures Blocks(pieces) == []
    ensures Run(START, Lines(x + [NEWLINE])) == if Spoils(x) then Refused else Scanned(pieces + [Kept(u + [NEWLINE])], None)
  {
    hide Blocks, Lines, Run, Concat, LastStem, Step, AreLines;
    EndedLines(x);
    var ls := Lines(x);
    var front := ls[..|ls| - 1];
    u := ls[|ls| - 1];
    assert ls == front + [u];
    RunLast(front, u);
    RunLast(front, u + [NEWLINE]);
    RefusedStays([u]);
    RunOne(Refused, u);
    pieces := Run(START, front).pieces;
    EndingAStep(Run(START, front), u);
    LinesOfConcat(front + [u + [NEWLINE]]);
  }

  lemma RunLast(front: seq<Bytes>, l: Bytes)
    ensures Run(START, front + [l]) == Step(Run(START, front), l)
  {
    RunAppend(START, front, [l]);
    RunOne(Run(START, front), l);
  }

  lemma EndingAStep(s: State, u: Bytes)
    requires s.Scanned? && u != [] && !Ended(u)
    requires Step(s, u).Scanned? && Step(s, u).open.None? && Blocks(Step(s, u).pieces) == []
    ensures Blocks(s.pieces) == []
    ensures Step(s, u + [NEWLINE]) ==
            if u[|u| - 1] == RETURN && OPENING <= u[..|u| - 1] && u[..|u| - 1] <= HEADER then Refused
            else Scanned(s.pieces + [Kept(u + [NEWLINE])], None)
  {
    hide Blocks, KindOf, Text, Plain;
    OpenOrKept(s, u);
    EndingALine(u);
    PlainOrNot(u + [NEWLINE]);
  }

  lemma PlainOrNot(raw: Bytes)
    ensures KindOf(Text(raw)) !in {Header, Suspicious} ==> Plain(raw)
  {
  }

  /** A line that leaves no block behind it was kept. */
  lemma OpenOrKept(s: State, u: Bytes)
    requires s.Scanned? && Step(s, u).Scanned? && Step(s, u).open.None? && Blocks(Step(s, u).pieces) == []
    ensures s.open.None? && Plain(u) && Blocks(s.pieces) == []
  {
    hide Blocks, KindOf, Text;
    if s.open.Some? {
      ClosingLeavesABlock(s, u);
    } else {
      BlocksSnoc(s.pieces, Kept(u));
    }
  }

  lemma BlocksSnoc(before: seq<Piece>, last: Piece)
    ensures last.Managed? ==> Blocks(before + [last]) == Blocks(before) + [last.bytes]
    ensures last.Kept? ==> Blocks(before + [last]) == Blocks(before)
  {
    assert (before + [last])[..|before|] == before;
  }

  lemma ClosingLeavesABlock(s: State, u: Bytes)
    requires s.Scanned? && s.open.Some? && Step(s, u).Scanned? && Step(s, u).open.None?
    ensures Blocks(Step(s, u).pieces) != []
  {
    hide Blocks, KindOf, Text;
    BlocksSnoc(s.pieces, Managed(s.open.value + u));
  }

  // ----- the rewriter in terms of lines -----

  lemma AsciiAppend(a: string, b: string)
    ensures Ascii(a) + Ascii(b) == Ascii(a + b)
  {
  }

  lemma FrontWords()
    ensures "# AWF " + "operating recovery " + "files are local; " == "# AWF operating recovery files are local; "
  {
  }

  lemma BackWords()
    ensures "changes/ is " + "versioned audit " + "evidence." == "changes/ is versioned audit evidence."
  {
  }

  lemma FrontOfHeader(i: nat)
    requires i < 42
    ensures "# AWF operating recovery files are local; changes/ is versioned audit evidence."[i]
         == "# AWF operating recovery files are local; "[i]
  {
  }

  lemma BackOfHeader(i: nat)
    requires i < 37
    ensures "# AWF operating recovery files are local; changes/ is versioned audit evidence."[42 + i]
         == "changes/ is versioned audit evidence."[i]
  {
  }

  lemma WholeHeader()
    ensures "# AWF operating recovery files are local; " + "changes/ is versioned audit evidence."
         == "# AWF operating recovery files are local; changes/ is versioned audit evidence."
  {
    var whole := "# AWF operating recovery files are local; changes/ is versioned audit evidence.";
    var parts := "# AWF operating recovery files are local; " + "changes/ is versioned audit evidence.";
    assert |parts| == |whole|;
    forall i | 0 <= i < |whole|
      ensures whole[i] == parts[i]
    {
      if i < 42 {
        FrontOfHeader(i);
      } else {
        BackOfHeader(i - 42);
      }
    }
  }

  /** The bytes the source looks for. */
  lemma HeaderIsSpelled()
    ensures HEADER == Ascii("# AWF operating recovery files are local; changes/ is versioned audit evidence.")
    ensures TERMINAL == Ascii(".awf-*.tmp") && OPENING == Ascii("# AWF ") == HEADER[..6]
  {
    assert |OPENING| == 6;
    hide Ascii;
    SpelledInTwo();
    AsciiAppend("# AWF operating recovery files are local; ", "changes/ is versioned audit evidence.");
    WholeHeader();
  }

  lemma SpelledInTwo()
    ensures HEADER == Ascii("# AWF operating recovery files are local; ") + Ascii("changes/ is versioned audit evidence.")
  {
    hide Ascii;
    AsciiAppend("# AWF ", "operating recovery ");
    AsciiAppend("# AWF " + "operating recovery ", "files are local; ");
    FrontWords();
    AsciiAppend("changes/ is ", "versioned audit ");
    AsciiAppend("changes/ is " + "versioned audit ", "evidence.");
    BackWords();
    assert HEADER == (OPENING + Ascii("operating recovery ") + Ascii("files are local; "))
                     + (Ascii("changes/ is ") + Ascii("versioned audit ") + Ascii("evidence."));
  }

  /** A line that holds this text, unfinished or ended by a newline or by a return and a newline. */
  predicate Says(raw: Bytes, text: Bytes) {
    raw == text || raw == text + [10] || raw == text + [13, 10]
  }

  predicate OpensBlock(raw: Bytes) {
    Says(raw, HEADER)
  }

  predicate ClosesBlock(raw: Bytes) {
    Says(raw, TERMINAL)
  }

  /** A line that goes on after the header, or holds a beginning of it from the sixth byte on. */
  predicate Spoilt(raw: Bytes) {
    !OpensBlock(raw) && (HEADER <= raw || exists k :: 6 <= k < |HEADER| && Says(raw, HEADER[..k]))
  }

  /** Where the last opening has no closing line after it. */
  predicate InBlock(ls: seq<Bytes>) {
    exists h :: 0 <= h < |ls| && StaysOpen(ls, h)
  }

  predicate StaysOpen(ls: seq<Bytes>, h: nat)
    requires h < |ls|
  {
    OpensBlock(ls[h]) && forall j :: h < j < |ls| ==> !ClosesBlock(ls[j])
  }

  predicate Breaks(ls: seq<Bytes>, i: nat)
    requires i < |ls|
  {
    Spoilt(ls[i]) || (OpensBlock(ls[i]) && InBlock(ls[..i]))
  }

  /** No spoilt line, no block opened in another, and none left open. */
  predicate Bracketed(ls: seq<Bytes>) {
    (forall i :: 0 <= i < |ls| ==> !Breaks(ls, i)) && !InBlock(ls)
  }

  /** The lines outside the blocks, in order. */
  function Survivors(ls: seq<Bytes>): Bytes {
    if ls == [] then []
    else
      var front, last := ls[..|ls| - 1], ls[|ls| - 1];
      Survivors(front) + if OpensBlock(last) || InBlock(front) then [] else last
  }

  predicate OpensFirst(ls: seq<Bytes>, h: nat) {
    h < |ls| && OpensBlock(ls[h]) && forall j :: 0 <= j < h ==> !OpensBlock(ls[j])
  }

  predicate NoneOpens(ls: seq<Bytes>) {
    forall i :: 0 <= i < |ls| ==> !OpensBlock(ls[i])
  }

  lemma SaysText(raw: Bytes, line: Bytes)
    requires RETURN !in line && NEWLINE !in line && line != []
    ensures Text(raw) == line <==> Says(raw, line)
  {
    assert line[|line| - 1] in line;
    if Ended(raw) {
      var body := raw[..|raw| - 1];
      assert raw == body + [10];
      assert body != [] ==> body == body[..|body| - 1] + [body[|body| - 1]];
    }
  }

  /** How lines are told apart. */
  lemma KindMeans(raw: Bytes)
    ensures KindOf(Text(raw)) == Header <==> OpensBlock(raw)
    ensures KindOf(Text(raw)) == Suspicious <==> Spoilt(raw)
    ensures KindOf(Text(raw)) == Terminal <==> ClosesBlock(raw)
  {
    HeaderShape();
    HeaderIsSpelled();
    hide Ascii;
    SaysText(raw, HEADER);
    SaysText(raw, TERMINAL);
    HeaderInText(raw);
    BeginningInText(raw);
    hide Says, Text;
    assert !(HEADER <= TERMINAL) && !(OPENING <= TERMINAL);
  }

  lemma HeaderInText(raw: Bytes)
    ensures HEADER <= Text(raw) <==> HEADER <= raw
  {
    HeaderShape();
    hide Ascii;
    if HEADER <= raw {
      assert HEADER[|HEADER| - 1] in HEADER && raw[|HEADER| - 1] == HEADER[|HEADER| - 1];
    }
  }

  lemma BeginningInText(raw: Bytes)
    ensures (OPENING <= Text(raw) && Text(raw) <= HEADER && Text(raw) != HEADER)
            <==> exists k :: 6 <= k < |HEADER| && Says(raw, HEADER[..k])
  {
    HeaderShape();
    HeaderIsSpelled();
    hide Ascii, Says, Text;
    assert |OPENING| == 6;
    var line := Text(raw);
    if OPENING <= line && line <= HEADER && line != HEADER {
      assert line == HEADER[..|line|];
      SaysText(raw, line);
    }
    forall k | 6 <= k < |HEADER| && Says(raw, HEADER[..k])
      ensures OPENING <= line && line <= HEADER && line != HEADER
    {
      SaysText(raw, HEADER[..k]);
    }
  }

  lemma InsideSnoc(front: seq<Bytes>, l: Bytes)
    ensures InBlock(front + [l]) <==> OpensBlock(l) || (InBlock(front) && !ClosesBlock(l))
  {
    HeaderShape();
    hide Ascii, Says;
    var ls := front + [l];
    assert ls[|front|] == l;
    forall h | 0 <= h < |front|
      ensures StaysOpen(ls, h) <==> StaysOpen(front, h) && !ClosesBlock(l)
    {
      assert forall j :: h < j < |front| ==> ls[j] == front[j];
      assert StaysOpen(ls, h) ==> forall j :: h < j < |front| ==> !ClosesBlock(front[j]) by {
        if StaysOpen(ls, h) {
          forall j | h < j < |front| ensures !ClosesBlock(front[j]) { assert !ClosesBlock(ls[j]); }
        }
      }
    }
    assert StaysOpen(ls, |front|) <==> OpensBlock(l);
  }

  lemma BreaksSnoc(front: seq<Bytes>, l: Bytes)
    ensures (exists i :: 0 <= i < |front + [l]| && Breaks(front + [l], i))
            <==> (exists i :: 0 <= i < |front| && Breaks(front, i)) || Spoilt(l) || (OpensBlock(l) && InBlock(front))
  {
    hide OpensBlock, Spoilt, InBlock;
    var ls := front + [l];
    forall i | 0 <= i < |front|
      ensures Breaks(ls, i) <==> Breaks(front, i)
    {
      assert ls[..i] == front[..i];
    }
    assert ls[..|front|] == front && ls[|front|] == l;
    assert Breaks(ls, |front|) <==> Spoilt(l) || (OpensBlock(l) && InBlock(front));
  }

  lemma SurvivorsSnoc(front: seq<Bytes>, l: Bytes)
    ensures Survivors(front + [l]) == Survivors(front) + if OpensBlock(l) || InBlock(front) then [] else l
  {
    assert (front + [l])[..|front|] == front;
  }

  /** Up to the first opening everything survives; from there on the template and what survives. */
  ghost predicate Replaces(ls: seq<Bytes>, required: Bytes, r: Bytes) {
    forall h: nat :: OpensFirst(ls, h) ==>
                  && Concat(ls[..h]) <= Survivors(ls)
                  && r == Concat(ls[..h]) + required + Survivors(ls)[|Concat(ls[..h])|..]
  }

  /** What the scan has made of lines that do not break. */
  ghost predicate Traces(pieces: seq<Piece>, ls: seq<Bytes>, required: Bytes) {
    && Outside(pieces) == Survivors(ls)
    && (NoneOpens(ls) ==> Blocks(pieces) == [] && Survivors(ls) == Concat(ls))
    && (Blocks(pieces) == [] && !InBlock(ls) ==> NoneOpens(ls))
    && (Blocks(pieces) == [] ==> Render(pieces, required) == Survivors(ls))
    && (Blocks(pieces) == [] ==> forall h: nat :: OpensFirst(ls, h) ==> Survivors(ls) == Concat(ls[..h]))
    && (Blocks(pieces) != [] ==> Replaces(ls, required, Render(pieces, required)))
  }

  lemma FirstSnoc(front: seq<Bytes>, l: Bytes, h: nat)
    ensures OpensFirst(front + [l], h) <==> OpensFirst(front, h) || (h == |front| && NoneOpens(front) && OpensBlock(l))
    ensures h <= |front| ==> (front + [l])[..h] == front[..h]
  {
    hide OpensBlock;
    var ls := front + [l];
    assert forall j :: 0 <= j < |front| ==> ls[j] == front[j];
    assert ls[|front|] == l;
    if OpensFirst(ls, h) {
      forall j | 0 <= j < h ensures !OpensBlock(front[j]) { assert !OpensBlock(ls[j]); }
    }
  }

  lemma NoneOpensSnoc(front: seq<Bytes>, l: Bytes)
    ensures NoneOpens(front + [l]) <==> NoneOpens(front) && !OpensBlock(l)
    ensures NoneOpens(front) ==> !InBlock(front)
    ensures Concat(front + [l]) == Concat(front) + l
  {
    hide OpensBlock;
    var ls := front + [l];
    assert ls[..|front|] == front && ls[|front|] == l;
    if NoneOpens(ls) {
      forall j | 0 <= j < |front| ensures !OpensBlock(front[j]) { assert !OpensBlock(ls[j]); }
    }
  }

  lemma TellsOpening(pieces: seq<Piece>, front: seq<Bytes>, l: Bytes, required: Bytes)
    requires Traces(pieces, front, required) && !InBlock(front) && OpensBlock(l)
    ensures Traces(pieces, front + [l], required)
  {
    NoneOpensSnoc(front, l);
    SurvivorsSnoc(front, l);
    InsideSnoc(front, l);
    hide OpensBlock, InBlock, Survivors, NoneOpens, Concat, Outside, Blocks, Render;
    forall h: nat
      ensures OpensFirst(front + [l], h) <==> OpensFirst(front, h) || (h == |front| && NoneOpens(front))
      ensures h <= |front| ==> (front + [l])[..h] == front[..h]
    {
      FirstSnoc(front, l, h);
    }
    hide OpensFirst;
    assert front[..|front|] == front;
  }

  /** Before the first opening, the snoc of a line that opens nothing changes nothing. */
  lemma FirstStays(front: seq<Bytes>, l: Bytes)
    requires !OpensBlock(l)
    ensures forall h: nat :: OpensFirst(front + [l], h) <==> OpensFirst(front, h)
    ensures forall h: nat :: h <= |front| ==> (front + [l])[..h] == front[..h]
  {
    hide OpensBlock;
    forall h: nat
      ensures OpensFirst(front + [l], h) <==> OpensFirst(front, h)
      ensures h <= |front| ==> (front + [l])[..h] == front[..h]
    {
      FirstSnoc(front, l, h);
    }
  }

  lemma TellsInside(pieces: seq<Piece>, front: seq<Bytes>, l: Bytes, required: Bytes)
    requires Traces(pieces, front, required) && InBlock(front) && !OpensBlock(l) && !ClosesBlock(l)
    ensures Traces(pieces, front + [l], required)
  {
    NoneOpensSnoc(front, l);
    SurvivorsSnoc(front, l);
    InsideSnoc(front, l);
    FirstStays(front, l);
    hide OpensBlock, InBlock, Survivors, NoneOpens, Concat, Outside, Blocks, Render, OpensFirst;
    assert Survivors(front) + [] == Survivors(front);
  }

  lemma TellsClosing(pieces: seq<Piece>, front: seq<Bytes>, l: Bytes, block: Bytes, required: Bytes)
    requires Traces(pieces, front, required) && InBlock(front) && !OpensBlock(l)
    ensures Traces(pieces + [Managed(block)], front + [l], required)
  {
    NoneOpensSnoc(front, l);
    SurvivorsSnoc(front, l);
    FirstStays(front, l);
    PiecesSnoc(pieces, Managed(block), required);
    hide OpensBlock, InBlock, Survivors, NoneOpens, Concat, Outside, Blocks, Render, OpensFirst;
    assert Outside(pieces) + [] == Outside(pieces) && Survivors(front) + [] == Survivors(front);
    if Blocks(pieces) != [] {
      assert Render(pieces, required) + [] == Render(pieces, required);
    } else {
      assert forall h: nat :: OpensFirst(front, h) ==> Survivors(front)[|Concat(front[..h])|..] == [];
    }
  }

  lemma TellsKept(pieces: seq<Piece>, front: seq<Bytes>, l: Bytes, required: Bytes)
    requires Traces(pieces, front, required) && !InBlock(front) && !OpensBlock(l)
    ensures Traces(pieces + [Kept(l)], front + [l], required)
  {
    NoneOpensSnoc(front, l);
    SurvivorsSnoc(front, l);
    InsideSnoc(front, l);
    FirstStays(front, l);
    PiecesSnoc(pieces, Kept(l), required);
    assert NoneOpens(front) ==> forall h: nat :: !OpensFirst(front, h);
    hide OpensBlock, InBlock, Survivors, NoneOpens, Concat, Outside, Blocks, Render, OpensFirst;
    assert Blocks(pieces) + [] == Blocks(pieces);
    if Blocks(pieces) != [] {
      forall h: nat | OpensFirst(front + [l], h)
        ensures Concat(front[..h]) <= Survivors(front) + l
        ensures (Survivors(front) + l)[|Concat(front[..h])|..] == Survivors(front)[|Concat(front[..h])|..] + l
        ensures Render(pieces, required) + l
             == Concat(front[..h]) + required + (Survivors(front)[|Concat(front[..h])|..] + l)
      {
        SamePart(Survivors(front), l, |Concat(front[..h])|, |Survivors(front)|);
        ConcatAssociates(Concat(front[..h]) + required, Survivors(front)[|Concat(front[..h])|..], l);
      }
    }
  }

  ghost predicate Broken(ls: seq<Bytes>) {
    exists i :: 0 <= i < |ls| && Breaks(ls, i)
  }

  lemma {:induction false} RunMeans(ls: seq<Bytes>, required: Bytes)
    ensures var s := Run(START, ls);
            if Broken(ls) then s == Refused
            else s.Scanned? && (s.open.Some? <==> InBlock(ls)) && Traces(s.pieces, ls, required)
  {
    if ls != [] {
      var front, l := ls[..|ls| - 1], ls[|ls| - 1];
      assert ls == front + [l];
      RunMeans(front, required);
      BreaksSnoc(front, l);
      InsideSnoc(front, l);
      KindMeans(l);
      RunLast(front, l);
      hide Run, OpensBlock, ClosesBlock, Spoilt, Traces, KindOf, Text, InBlock;
      var s := Run(START, front);
      if s.Scanned? && !Spoilt(l) {
        if s.open.None? {
          if OpensBlock(l) {
            TellsOpening(s.pieces, front, l, required);
          } else {
            TellsKept(s.pieces, front, l, required);
          }
        } else if !OpensBlock(l) {
          if ClosesBlock(l) {
            TellsClosing(s.pieces, front, l, s.open.value + l, required);
          } else {
            TellsInside(s.pieces, front, l, required);
          }
        }
      }
    }
  }

  /** What rewriting does to a file's lines: it refuses exactly those that are not bracketed; it
      leaves the others as they are and adds the template at the end, or puts it where the first
      block opens and drops all lines of blocks. */
  lemma RewriteMeans(required: Bytes, x: Bytes)
    ensures var ls, r := Lines(x), Rewrite(required, Some(x));
            && AreLines(ls) && Concat(ls) == x
            && (r.Some? <==> required != [] && required[|required| - 1] == 10 && 0 !in required && Bracketed(ls))
            && (r.Some? && NoneOpens(ls) ==>
                  r.value == x + (if x != [] && x[|x| - 1] != 10 then [10] else []) + required)
            && (r.Some? ==> Replaces(ls, required, r.value))
  {
    LinesOf(x);
    RunMeans(Lines(x), required);
    hide Run, Lines, Concat, Survivors, InBlock, Breaks, AreLines, Render, Outside, Blocks;
    assert Bracketed(Lines(x)) <==> !Broken(Lines(x)) && !InBlock(Lines(x));
    var ls := Lines(x);
    assert NoneOpens(ls) ==> forall h: nat :: !OpensFirst(ls, h);
    hide NoneOpens, OpensFirst;
  }

  // ----- the rewriter as a whole -----

  /** The only inputs whose rewriting is not stable: no block yet, and an unfinished last line that
      ending it turns into a spoilt header. */
  predicate Unstable(existing: Option<Bytes>) {
    existing.Some? && Parse(existing.value).Some? && Blocks(Parse(existing.value).value) == [] && Spoils(existing.value)
  }

  /** The bytes an input holds outside its blocks, with the newline that appending adds. */
  function Surviving(existing: Option<Bytes>): Bytes {
    match existing
    case None => []
    case Some(x) =>
      match Parse(x)
      case None => []
      case Some(pieces) => if Blocks(pieces) == [] then x + Separator(x) else Outside(pieces)
  }

  ghost predicate Settled(required: Bytes, survivors: Bytes, y: Bytes) {
    && Parse(y).Some? && Blocks(Parse(y).value) == [required] && Outside(Parse(y).value) == survivors
    && Render(Parse(y).value, required) == y
  }

  lemma RewritingSettles(required: Bytes, existing: Option<Bytes>)
    requires Template(required) && Rewrite(required, existing).Some?
    ensures var y := Rewrite(required, existing).value;
            if Unstable(existing) then Parse(y) == None else Settled(required, Surviving(existing), y)
  {
    hide Template, Blocks, Outside, Render, Spoils;
    match existing {
      case None =>
        ParseOfNothing();
        NotSpoilt([]);
        AppendedParses([], required);
        assert [] + Separator([]) + required == required;
      case Some(x) =>
        var pieces := Parse(x).value;
        if Blocks(pieces) == [] {
          AppendedParses(x, required);
        } else {
          ParseTidies(x);
          RenderedParses(pieces, required);
          CollapseShape(pieces, required);
        }
    }
  }

  lemma ParseOfNothing()
    ensures Parse([]) == Some([]) && Blocks([]) == []
  {
  }

  /** The result has exactly one managed block, the template, and every byte outside the old blocks
      survives in order: for every input but the unstable ones. */
  lemma OneBlockRestKept(required: Bytes, existing: Option<Bytes>)
    requires Template(required) && Rewrite(required, existing).Some?
    ensures var result := Parse(Rewrite(required, existing).value);
            (result.Some? && Blocks(result.value) == [required] && Outside(result.value) == Surviving(existing))
            <==> !Unstable(existing)
  {
    hide Template, Parse, Blocks, Outside, Render, Spoils;
    RewritingSettles(required, existing);
  }

  /** A second application changes nothing exactly if the input was not unstable; otherwise it
      refuses what the first one made. */
  lemma IdempotentExactly(required: Bytes, existing: Option<Bytes>)
    requires Template(required) && Rewrite(required, existing).Some?
    ensures var once := Rewrite(required, existing);
            Rewrite(required, once) == if Unstable(existing) then None else once
  {
    hide Parse, Blocks, Outside, Render, Spoils, Lines;
    RewritingSettles(required, existing);
  }

  /** Such an input: the first six bytes of the header, a carriage return, and no newline. */
  lemma SecondApplicationCanRefuse(required: Bytes)
    requires Template(required)
    ensures var x := Some(OPENING + [RETURN]);
            Rewrite(required, x).Some? && Rewrite(required, Rewrite(required, x)) == None
  {
    hide Run, Lines, KindOf, Rewrite;
    var x := OPENING + [RETURN];
    SpoiltLater();
    RewriteOfPlain(required, x);
    IdempotentExactly(required, Some(x));
  }

  lemma RewriteOfPlain(required: Bytes, x: Bytes)
    requires Shippable(required) && Parse(x).Some?
    ensures Rewrite(required, Some(x)).Some?
  {
  }

  lemma SpoiltLater()
    ensures Unstable(Some(OPENING + [RETURN]))
  {
    hide Ascii, KindOf, Text, Parse, LastStem, Blocks;
    OpeningAlone();
    LoneLine(OPENING + [RETURN]);
  }

  /** A file of one ordinary line without a newline. */
  lemma LoneLine(x: Bytes)
    requires IsLine(x) && KindOf(Text(x)) == Ordinary
    ensures Parse(x) == Some([Kept(x)]) && Blocks([Kept(x)]) == [] && LastStem(x) == x[..|x| - 1]
  {
    hide Run, Lines, Concat, KindOf, Text, LastStem, Step, Blocks, IsLine;
    LoneStem(x);
    RunOne(START, x);
    KeptAlone(x);
  }

  lemma LoneStem(x: Bytes)
    requires IsLine(x)
    ensures Lines(x) == [x] && LastStem(x) == x[..|x| - 1]
  {
    hide Lines, Concat;
    ConcatOne(x);
    LinesOfConcat([x]);
  }

  lemma KeptAlone(x: Bytes)
    requires KindOf(Text(x)) == Ordinary
    ensures Step(START, x) == Scanned([Kept(x)], None) && Blocks([Kept(x)]) == []
  {
    hide KindOf, Text;
    assert [] + [Kept(x)] == [Kept(x)];
    PiecesSnoc([], Kept(x), []);
  }

  lemma OpeningAlone()
    ensures var x := OPENING + [RETURN];
            KindOf(Text(x)) == Ordinary && IsLine(x) && !Ended(x) && x[..|x| - 1] == OPENING && OPENING <= HEADER
  {
    HeaderShape();
    assert forall b :: b in OPENING ==> b != NEWLINE;
    hide Ascii;
    var x := OPENING + [RETURN];
    assert x[..|x| - 1] == OPENING && RETURN in x;
    assert !(x <= HEADER);
    assert !(HEADER <= x) by {
      assert |HEADER| > |x|;
    }
  }
}
