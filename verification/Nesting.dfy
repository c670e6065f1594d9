/** The nesting guard that runs before a record is parsed as JSON: a byte scan that must not be
    misled by brackets inside strings. Its partner is the grammar of sections 2 and 7 of RFC 8259. */
module Nesting {
  import opened Core

  const LIMIT := 8
  const QUOTE: Byte := 34
  const BACKSLASH: Byte := 92

  predicate Opens(b: Byte) { b == 91 || b == 123 }

  predicate Closes(b: Byte) { b == 93 || b == 125 }

  // ----- the scan -----

  datatype Scan = Scanning(depth: int, quoted: bool, escaped: bool) | TooDeep

  const START := Scanning(0, false, false)

  function ScanByte(s: Scan, b: Byte): Scan {
    if s.TooDeep? then s
    else if s.quoted then
      if s.escaped then s.(escaped := false)
      else if b == BACKSLASH then s.(escaped := true)
      else if b == QUOTE then s.(quoted := false)
      else s
    else if b == QUOTE then s.(quoted := true)
    else if Opens(b) then (if s.depth + 1 > LIMIT then TooDeep else s.(depth := s.depth + 1))
    else if Closes(b) then s.(depth := s.depth - 1)
    else s
  }

  function ScanAll(s: Scan, raw: seq<Byte>): Scan {
    if raw == [] then s else ScanByte(ScanAll(s, raw[..|raw| - 1]), raw[|raw| - 1])
  }

  predicate Shallow(raw: seq<Byte>) {
    ScanAll(START, raw) != TooDeep
  }

  method CheckDepth(raw: seq<Byte>) returns (ok: bool)
    ensures ok == Shallow(raw)
  {
    var depth := 0;
    var quoted, escaped := false, false;
    for i := 0 to |raw|
      invariant ScanAll(START, raw[..i]) == Scanning(depth, quoted, escaped)
    {
      var byte := raw[i];
      assert raw[..i + 1][..i] == raw[..i];
      if quoted {
        if escaped {
          escaped := false;
        } else if byte == BACKSLASH {
          escaped := true;
        } else if byte == QUOTE {
          quoted := false;
        }
      } else if byte == QUOTE {
        quoted := true;
      } else if Opens(byte) {
        depth := depth + 1;
        if depth > LIMIT {
          ScanConcat(START, raw[..i + 1], raw[i + 1..]);
          TooDeepStays(raw[i + 1..]);
          assert raw == raw[..i + 1] + raw[i + 1..];
          return false;
        }
      } else if Closes(byte) {
        depth := depth - 1;
      }
    }
    assert raw[..|raw|] == raw;
    return true;
  }

  // ----- the grammar -----

  /** Insignificant white space. */
  type Blank = s: seq<Byte> | forall b :: b in s ==> b in {32, 9, 10, 13}

  /** A number or one of the three literal names; wider than the grammar, which only helps. */
  type Token = s: seq<Byte> | forall b :: b in s ==> b !in {34, 91, 93, 123, 125}

  type Unescaped = b: Byte | b != 34 && b != 92

  /** One character of a string; the hexadecimal digits after `\u` are plain characters. */
  datatype Char = Plain(byte: Unescaped) | Escape(code: Byte)

  datatype Value =
    | Scalar(token: Token)
    | String(chars: seq<Char>)
    | Array(blank: Blank, elements: Elements)
    | Object(blank: Blank, members: Members)

  datatype Elements =
    | NoElement
    | Element(before: Blank, value: Value, after: Blank, rest: Elements)

  datatype Members =
    | NoMember
    | Member(start: Blank, name: seq<Char>, colon: Blank, before: Blank, value: Value, after: Blank, rest: Members)

  function Chars(chars: seq<Char>): seq<Byte> {
    if chars == [] then []
    else Chars(chars[..|chars| - 1]) +
         (match chars[|chars| - 1] case Plain(b) => [b] case Escape(b) => [92, b])
  }

  function Quoted(chars: seq<Char>): seq<Byte> {
    [34] + Chars(chars) + [34]
  }

  function Render(v: Value): seq<Byte> {
    match v
    case Scalar(token) => token
    case String(chars) => Quoted(chars)
    case Array(blank, elements) => [91] + (blank + RenderElements(elements, true)) + [93]
    case Object(blank, members) => [123] + (blank + RenderMembers(members, true)) + [125]
  }

  function Comma(first: bool): seq<Byte> {
    if first then [] else [44]
  }

  function RenderElements(e: Elements, first: bool): seq<Byte> {
    match e
    case NoElement => []
    case Element(before, value, after, rest) =>
      (Comma(first) + before) + Render(value) + after + RenderElements(rest, false)
  }

  function RenderMembers(m: Members, first: bool): seq<Byte> {
    match m
    case NoMember => []
    case Member(start, name, colon, before, value, after, rest) =>
      (Comma(first) + start) + Quoted(name) + (colon + [58] + before) + Render(value) + after +
      RenderMembers(rest, false)
  }

  /** How many arrays and objects enclose the innermost value. */
  function Depth(v: Value): nat {
    match v
    case Scalar(_) => 0
    case String(_) => 0
    case Array(_, elements) => 1 + ElementsDepth(elements)
    case Object(_, members) => 1 + MembersDepth(members)
  }

  function ElementsDepth(e: Elements): nat {
    match e
    case NoElement => 0
    case Element(_, value, _, rest) => Max(Depth(value), ElementsDepth(rest))
  }

  function MembersDepth(m: Members): nat {
    match m
    case NoMember => 0
    case Member(_, _, _, _, value, _, rest) => Max(Depth(value), MembersDepth(rest))
  }

  // ----- the scan is exact on the grammar -----

  lemma {:induction false} ScanConcat(s: Scan, a: seq<Byte>, b: seq<Byte>)
    ensures ScanAll(s, a + b) == ScanAll(ScanAll(s, a), b)
  {
    if b == [] {
      assert a + b == a;
    } else {
      assert (a + b)[..|a + b| - 1] == a + b[..|b| - 1];
      ScanConcat(s, a, b[..|b| - 1]);
    }
  }

  lemma ScanOne(s: Scan, b: Byte)
    ensures ScanAll(s, [b]) == ScanByte(s, b)
  {
    assert [b][..0] == [];
  }

  lemma TooDeepStays(raw: seq<Byte>)
    ensures ScanAll(TooDeep, raw) == TooDeep
  {
  }

  /** From `depth`, scanning `raw` goes `inner` deeper and comes back, or is rejected on the way. */
  predicate Carries(depth: int, raw: seq<Byte>, inner: int) {
    ScanAll(Scanning(depth, false, false), raw)
    == if depth + inner > LIMIT then TooDeep else Scanning(depth, false, false)
  }

  predicate Inert(raw: seq<Byte>) {
    forall b :: b in raw ==> b !in {34, 91, 93, 123, 125}
  }

  lemma CarriesConcat(depth: int, a: seq<Byte>, x: int, b: seq<Byte>, y: int)
    requires Carries(depth, a, x) && Carries(depth, b, y)
    ensures Carries(depth, a + b, Max(x, y))
  {
    ScanConcat(Scanning(depth, false, false), a, b);
    TooDeepStays(b);
  }

  lemma {:induction false} CarriesInert(depth: int, raw: seq<Byte>)
    requires depth <= LIMIT && Inert(raw)
    ensures Carries(depth, raw, 0)
  {
    if raw != [] {
      var front, last := raw[..|raw| - 1], raw[|raw| - 1];
      assert last in raw;
      forall b | b in front
        ensures b in raw
      {
      }
      CarriesInert(depth, front);
    }
  }

  lemma {:induction false} ScanChars(depth: int, chars: seq<Char>)
    ensures ScanAll(Scanning(depth, true, false), Chars(chars)) == Scanning(depth, true, false)
  {
    if chars != [] {
      var before, s := Chars(chars[..|chars| - 1]), Scanning(depth, true, false);
      ScanChars(depth, chars[..|chars| - 1]);
      match chars[|chars| - 1]
      case Plain(b) =>
        ScanConcat(s, before, [b]);
        ScanOne(s, b);
      case Escape(b) =>
        ScanConcat(s, before, [BACKSLASH, b]);
        assert [BACKSLASH, b] == [BACKSLASH] + [b];
        ScanConcat(s, [BACKSLASH], [b]);
        ScanOne(s, BACKSLASH);
        ScanOne(s.(escaped := true), b);
    }
  }

  lemma CarriesQuoted(depth: int, chars: seq<Char>)
    requires depth <= LIMIT
    ensures Carries(depth, Quoted(chars), 0)
  {
    var s := Scanning(depth, false, false);
    ScanConcat(s, [QUOTE] + Chars(chars), [QUOTE]);
    ScanConcat(s, [QUOTE], Chars(chars));
    ScanOne(s, QUOTE);
    ScanOne(s.(quoted := true), QUOTE);
    ScanChars(depth, chars);
  }

  /** A bracketed body goes one deeper than its inside. */
  lemma CarriesBracketed(depth: int, open: Byte, inside: seq<Byte>, close: Byte, inner: nat)
    requires depth <= LIMIT && Opens(open) && Closes(close)
    requires depth < LIMIT ==> Carries(depth + 1, inside, inner)
    ensures Carries(depth, [open] + inside + [close], 1 + inner)
  {
    var s := Scanning(depth, false, false);
    ScanConcat(s, [open] + inside, [close]);
    ScanConcat(s, [open], inside);
    ScanOne(s, open);
    ScanOne(s.(depth := depth + 1), close);
    TooDeepStays(inside);
    TooDeepStays([close]);
  }

  lemma {:induction false} CarriesValue(depth: int, v: Value)
    requires depth <= LIMIT
    ensures Carries(depth, Render(v), Depth(v))
    decreases v
  {
    match v
    case Scalar(token) => CarriesInert(depth, token);
    case String(chars) => CarriesQuoted(depth, chars);
    case Array(blank, elements) =>
      if depth < LIMIT {
        CarriesInert(depth + 1, blank);
        CarriesElements(depth + 1, elements, true);
        CarriesConcat(depth + 1, blank, 0, RenderElements(elements, true), ElementsDepth(elements));
      }
      CarriesBracketed(depth, 91, blank + RenderElements(elements, true), 93, ElementsDepth(elements));
    case Object(blank, members) =>
      if depth < LIMIT {
        CarriesInert(depth + 1, blank);
        CarriesMembers(depth + 1, members, true);
        CarriesConcat(depth + 1, blank, 0, RenderMembers(members, true), MembersDepth(members));
      }
      CarriesBracketed(depth, 123, blank + RenderMembers(members, true), 125, MembersDepth(members));
  }

  /** One value between harmless bytes, then the rest of the list. */
  lemma CarriesItem(depth: int, lead: seq<Byte>, value: seq<Byte>, d: nat, after: seq<Byte>, rest: seq<Byte>, inner: nat)
    requires depth <= LIMIT
    requires Carries(depth, lead, 0) && Carries(depth, value, d) && Inert(after) && Carries(depth, rest, inner)
    ensures Carries(depth, lead + value + after + rest, Max(d, inner))
  {
    CarriesConcat(depth, lead, 0, value, d);
    CarriesInert(depth, after);
    CarriesConcat(depth, lead + value, d, after, 0);
    CarriesConcat(depth, lead + value + after, d, rest, inner);
  }

  lemma {:induction false} CarriesElements(depth: int, e: Elements, first: bool)
    requires depth <= LIMIT
    ensures Carries(depth, RenderElements(e, first), ElementsDepth(e))
    decreases e
  {
    match e
    case NoElement =>
    case Element(before, value, after, rest) =>
      CarriesInert(depth, Comma(first) + before);
      CarriesValue(depth, value);
      CarriesElements(depth, rest, false);
      CarriesItem(depth, Comma(first) + before, Render(value), Depth(value), after,
                  RenderElements(rest, false), ElementsDepth(rest));
  }

  lemma {:induction false} CarriesMembers(depth: int, m: Members, first: bool)
    requires depth <= LIMIT
    ensures Carries(depth, RenderMembers(m, first), MembersDepth(m))
    decreases m
  {
    match m
    case NoMember =>
    case Member(start, name, colon, before, value, after, rest) =>
      var lead, gap := Comma(first) + start, colon + [58] + before;
      CarriesInert(depth, lead);
      CarriesQuoted(depth, name);
      CarriesConcat(depth, lead, 0, Quoted(name), 0);
      CarriesInert(depth, gap);
      CarriesConcat(depth, lead + Quoted(name), 0, gap, 0);
      CarriesValue(depth, value);
      CarriesMembers(depth, rest, false);
      CarriesItem(depth, lead + Quoted(name) + gap, Render(value), Depth(value), after,
                  RenderMembers(rest, false), MembersDepth(rest));
  }

  /** On a JSON text the guard rejects exactly the values nested deeper than the limit, whatever
      brackets, quotes and backslashes occur inside its strings. */
  lemma NestingIsExact(before: Blank, v: Value, after: Blank)
    ensures Shallow(before + Render(v) + after) <==> Depth(v) <= 8
  {
    CarriesInert(0, before);
    CarriesValue(0, v);
    CarriesConcat(0, before, 0, Render(v), Depth(v));
    CarriesInert(0, after);
    CarriesConcat(0, before + Render(v), Depth(v), after, 0);
  }
}
