/** UTF-8 (section 3 of RFC 3629) as the capture engine uses it: encoding with surrogates let
    through, decoding with each of the error handlers `replace`, `ignore` and `surrogatepass`,
    and the two size-bounding cuts that must land on code point boundaries. */
module Utf8 {
  import opened Core

  type CodePoint = c: int | 0 <= c < 0x11_0000
  type Text = seq<CodePoint>

  const REPLACEMENT: CodePoint := 0xFFFD

  function Ascii(s: string): (t: Text)
    ensures |t| == |s|
  {
    seq(|s|, i requires 0 <= i < |s| => s[i] as int)
  }

  /** One decoded piece of a byte string: a code point, or a malformed piece. */
  datatype Piece = Point(code: CodePoint) | Bad

  // ----- encoding -----

  function EncodeOne(c: CodePoint): (r: seq<Byte>)
    ensures 1 <= |r| <= 4
  {
    if c < 0x80 then [c]
    else if c < 0x800 then [0xC0 + c / 64, 0x80 + c % 64]
    else if c < 0x1_0000 then [0xE0 + c / 4096, 0x80 + c / 64 % 64, 0x80 + c % 64]
    else [0xF0 + c / 262144, 0x80 + c / 4096 % 64, 0x80 + c / 64 % 64, 0x80 + c % 64]
  }

  function Encode(t: Text): seq<Byte> {
    if t == [] then [] else EncodeOne(t[0]) + Encode(t[1..])
  }

  predicate Continuation(b: Byte) {
    0x80 <= b < 0xC0
  }

  predicate Surrogate(c: CodePoint) {
    0xD800 <= c < 0xE000
  }

  // ----- decoding -----

  /** Which second bytes may follow the lead byte; `pass` lets surrogates through. */
  predicate SecondOk(lead: Byte, b: Byte, pass: bool) {
    && Continuation(b)
    && (lead == 0xE0 ==> 0xA0 <= b)
    && (lead == 0xED && !pass ==> b < 0xA0)
    && (lead == 0xF0 ==> 0x90 <= b)
    && (lead == 0xF4 ==> b < 0x90)
  }

  function Payload(b: Byte): int {
    b as int - 0x80
  }

  /** The first piece of a non-empty byte string and how many bytes it takes. A malformed piece is
      the longest prefix that could still have started a sequence, and at least one byte. */
  function Take(raw: seq<Byte>, pass: bool): (r: (Piece, nat))
    requires raw != []
    ensures 1 <= r.1 <= |raw|
    ensures r.0.Point? ==> |EncodeOne(r.0.code)| == r.1
  {
    var lead: int := raw[0];
    if lead < 0x80 then (Point(lead), 1)
    else if lead < 0xC2 || lead > 0xF4 then (Bad, 1)
    else if |raw| < 2 || !SecondOk(lead, raw[1], pass) then (Bad, 1)
    else if lead < 0xE0 then (Point((lead - 0xC0) * 64 + Payload(raw[1])), 2)
    else if |raw| < 3 || !Continuation(raw[2]) then (Bad, 2)
    else if lead < 0xF0 then (Point((lead - 0xE0) * 4096 + Payload(raw[1]) * 64 + Payload(raw[2])), 3)
    else if |raw| < 4 || !Continuation(raw[3]) then (Bad, 3)
    else (Point((lead - 0xF0) * 262144 + Payload(raw[1]) * 4096 + Payload(raw[2]) * 64 + Payload(raw[3])), 4)
  }

  function Pieces(raw: seq<Byte>, pass: bool): seq<Piece> {
    if raw == [] then [] else
      var (piece, n) := Take(raw, pass);
      [piece] + Pieces(raw[n..], pass)
  }

  function Points(t: Text): seq<Piece> {
    seq(|t|, i requires 0 <= i < |t| => Point(t[i]))
  }

  /** The text of the well-formed pieces: the handler `ignore`. */
  function KeepPoints(pieces: seq<Piece>): Text {
    if pieces == [] then []
    else (if pieces[0].Point? then [pieces[0].code] else []) + KeepPoints(pieces[1..])
  }

  function DecodeIgnore(raw: seq<Byte>): Text {
    KeepPoints(Pieces(raw, false))
  }

  function Shown(piece: Piece): CodePoint {
    if piece.Point? then piece.code else REPLACEMENT
  }

  /** The handler `replace`: a malformed piece shows as U+FFFD. */
  function DecodeReplace(raw: seq<Byte>): Text {
    if raw == [] then [] else
      var (piece, n) := Take(raw, false);
      [Shown(piece)] + DecodeReplace(raw[n..])
  }

  /** Strict decoding that lets surrogates through; a malformed piece is an error. */
  function DecodePass(raw: seq<Byte>): Option<Text> {
    var pieces := Pieces(raw, true);
    if Bad in pieces then None else Some(KeepPoints(pieces))
  }

  // ----- laws -----

  lemma {:induction false} EncodeConcat(a: Text, b: Text)
    ensures Encode(a + b) == Encode(a) + Encode(b)
  {
    if a == [] {
      assert a + b == b;
    } else {
      EncodeConcat(a[1..], b);
      ConcatTail(a, b);
      EncodeCons(a);
      EncodeCons(a + b);
      hide Encode, EncodeOne;
      ConcatAssociates(EncodeOne(a[0]), Encode(a[1..]), Encode(b));
    }
  }

  /** The bytes of a code point beyond ASCII pass every check of the decoder. */
  lemma EncodedShape(c: CodePoint, pass: bool)
    requires pass || !Surrogate(c)
    requires 0x80 <= c
    ensures var e := EncodeOne(c);
            && 2 <= |e| && 0xC2 <= e[0] <= 0xF4 && SecondOk(e[0], e[1], pass)
            && (|e| == 2 <==> e[0] < 0xE0) && (|e| == 3 <==> 0xE0 <= e[0] < 0xF0)
            && (forall i :: 1 <= i < |e| ==> Continuation(e[i]))
  {
  }

  /** A number is the sum of its base-64 digits. */
  lemma Digits64(c: CodePoint)
    ensures c == c / 64 * 64 + c % 64
    ensures c == c / 4096 * 4096 + c / 64 % 64 * 64 + c % 64
    ensures c == c / 262144 * 262144 + c / 4096 % 64 * 4096 + c / 64 % 64 * 64 + c % 64
  {
  }

  /** A code point's own bytes are read back whatever follows them. */
  lemma TakeEncoded(c: CodePoint, rest: seq<Byte>, pass: bool)
    requires pass || !Surrogate(c)
    ensures Take(EncodeOne(c) + rest, pass) == (Point(c), |EncodeOne(c)|)
  {
    var e := EncodeOne(c);
    var raw := e + rest;
    assert forall i :: 0 <= i < |e| ==> raw[i] == e[i];
    if 0x80 <= c {
      EncodedShape(c, pass);
      Digits64(c);
      assert SecondOk(raw[0], raw[1], pass);
    }
  }

  lemma Base64Digits(high: nat, low: nat)
    requires low < 64
    ensures (high * 64 + low) / 64 == high && (high * 64 + low) % 64 == low
  {
  }

  lemma Strict2(x: Byte, y: Byte)
    requires 0xC2 <= x < 0xE0 && Continuation(y)
    ensures EncodeOne((x - 0xC0) * 64 + Payload(y)) == [x, y]
  {
    Base64Digits(x - 0xC0, Payload(y));
  }

  lemma Strict3(x: Byte, y: Byte, z: Byte, pass: bool)
    requires 0xE0 <= x < 0xF0 && SecondOk(x, y, pass) && Continuation(z)
    ensures var c := (x - 0xE0) * 4096 + Payload(y) * 64 + Payload(z);
            EncodeOne(c) == [x, y, z] && (pass || !Surrogate(c))
  {
    var high := (x - 0xE0) * 64 + Payload(y);
    Base64Digits(x - 0xE0, Payload(y));
    Base64Digits(high, Payload(z));
    assert (x - 0xE0) * 4096 + Payload(y) * 64 + Payload(z) == high * 64 + Payload(z);
    assert (high * 64 + Payload(z)) / 4096 == high / 64;
  }

  lemma Strict4(w: Byte, x: Byte, y: Byte, z: Byte, pass: bool)
    requires 0xF0 <= w <= 0xF4 && SecondOk(w, x, pass) && Continuation(y) && Continuation(z)
    ensures var c := (w - 0xF0) * 262144 + Payload(x) * 4096 + Payload(y) * 64 + Payload(z);
            EncodeOne(c) == [w, x, y, z] && !Surrogate(c)
  {
    var top := (w - 0xF0) * 64 + Payload(x);
    var high := top * 64 + Payload(y);
    var c := high * 64 + Payload(z);
    Base64Digits(w - 0xF0, Payload(x));
    Base64Digits(top, Payload(y));
    Base64Digits(high, Payload(z));
    assert (w - 0xF0) * 262144 + Payload(x) * 4096 + Payload(y) * 64 + Payload(z) == c;
    assert c / 4096 == high / 64 && c / 262144 == top / 64;
  }

  /** Only the bytes of a code point are read as that code point; a surrogate only if it may pass. */
  lemma TakeIsStrict(raw: seq<Byte>, pass: bool)
    requires raw != []
    ensures var (piece, n) := Take(raw, pass);
            piece.Point? ==> raw[..n] == EncodeOne(piece.code) && (pass || !Surrogate(piece.code))
  {
    var (piece, n) := Take(raw, pass);
    if piece.Point? {
      if n == 2 {
        Strict2(raw[0], raw[1]);
      } else if n == 3 {
        Strict3(raw[0], raw[1], raw[2], pass);
      } else if n == 4 {
        Strict4(raw[0], raw[1], raw[2], raw[3], pass);
      }
      hide EncodeOne;
    }
  }

  /** Fewer bytes than a code point needs are one malformed piece. */
  lemma TakeUnfinished(c: CodePoint, n: nat)
    requires !Surrogate(c)
    requires 0 < n < |EncodeOne(c)|
    ensures Take(EncodeOne(c)[..n], false) == (Bad, n)
  {
    EncodedShape(c, false);
  }

  /** Bytes that begin the encoding of a code point other than a surrogate. */
  ghost predicate Begins(bytes: seq<Byte>) {
    exists c: CodePoint :: !Surrogate(c) && bytes <= EncodeOne(c)
  }

  /** No code point stands at the start, and these are the most bytes that begin one, or a single one. */
  ghost predicate Illformed(raw: seq<Byte>, n: nat)
    requires n <= |raw|
  {
    && (forall c: CodePoint :: !Surrogate(c) ==> !(EncodeOne(c) <= raw))
    && 1 <= n && (n > 1 ==> Begins(raw[..n])) && (n < |raw| ==> !Begins(raw[..n + 1]))
  }

  lemma BadIsMalformed(raw: seq<Byte>)
    requires raw != [] && Take(raw, false).0.Bad?
    ensures Illformed(raw, Take(raw, false).1)
  {
    var n := Take(raw, false).1;
    if n > 1 {
      BadCanGoOn(raw);
    }
    forall c: CodePoint | !Surrogate(c)
      ensures !(EncodeOne(c) <= raw)
      ensures n < |raw| ==> !(raw[..n + 1] <= EncodeOne(c))
    {
      if EncodeOne(c) <= raw {
        PointAtStart(raw, c);
      }
      if n < |raw| {
        BadGoesNoFurther(raw, c);
      }
    }
    hide Take, EncodeOne;
  }

  lemma PointAtStart(raw: seq<Byte>, c: CodePoint)
    requires !Surrogate(c) && EncodeOne(c) <= raw
    ensures Take(raw, false) == (Point(c), |EncodeOne(c)|)
  {
    TakeEncoded(c, raw[|EncodeOne(c)|..], false);
    assert EncodeOne(c) + raw[|EncodeOne(c)|..] == raw;
  }

  lemma BadCanGoOn(raw: seq<Byte>)
    requires raw != [] && Take(raw, false).0.Bad? && Take(raw, false).1 > 1
    ensures Begins(raw[..Take(raw, false).1])
  {
    var n := Take(raw, false).1;
    var more := raw[..n] + [0x80, 0x80];
    TakeIsStrict(more, false);
    var (piece, m) := Take(more, false);
    assert piece.Point? && m > n;
    hide Take, EncodeOne;
    assert more[..m][..n] == raw[..n];
    assert raw[..n] <= EncodeOne(piece.code);
  }

  lemma BadGoesNoFurther(raw: seq<Byte>, c: CodePoint)
    requires raw != [] && Take(raw, false).0.Bad? && Take(raw, false).1 < |raw| && !Surrogate(c)
    ensures !(raw[..Take(raw, false).1 + 1] <= EncodeOne(c))
  {
    hide Take, EncodeOne;
    var e := EncodeOne(c);
    assert e + [] == e;
    TakeEncoded(c, [], false);
    if raw[..Take(raw, false).1 + 1] <= e {
      BadIsSeen(raw, e);
    }
  }

  /** A malformed piece is recognised by its own bytes and the next one. */
  lemma BadIsSeen(raw: seq<Byte>, other: seq<Byte>)
    requires raw != [] && Take(raw, false).0.Bad? && Take(raw, false).1 < |raw|
    requires raw[..Take(raw, false).1 + 1] <= other
    ensures Take(other, false) == Take(raw, false)
  {
    var n := Take(raw, false).1;
    assert forall i :: 0 <= i <= n ==> other[i] == raw[..n + 1][i] == raw[i];
  }

  /** How malformed bytes are shown: what is decoded first is the code point that stands there, or
      U+FFFD for the most bytes that begin none; then the rest is decoded. */
  lemma ReplaceMeans(raw: seq<Byte>) returns (n: nat)
    requires raw != []
    ensures 1 <= n <= |raw| && DecodeReplace(raw) != [] && DecodeReplace(raw)[1..] == DecodeReplace(raw[n..])
    ensures var c := DecodeReplace(raw)[0];
            (!Surrogate(c) && raw[..n] == EncodeOne(c)) || (c == 0xFFFD && Illformed(raw, n))
  {
    n := Take(raw, false).1;
    if Take(raw, false).0.Point? {
      TakeIsStrict(raw, false);
    } else {
      BadIsMalformed(raw);
    }
    hide Take, EncodeOne, Illformed;
  }

  /** Decoding undoes encoding, with or without surrogates. */
  lemma {:induction false} PiecesEncoded(t: Text, pass: bool)
    requires pass || forall c :: c in t ==> !Surrogate(c)
    ensures Pieces(Encode(t), pass) == Points(t)
  {
    if t != [] {
      TakeEncoded(t[0], Encode(t[1..]), pass);
      EncodeCons(t);
      hide Encode, EncodeOne, Take, Pieces;
      PiecesCons(EncodeOne(t[0]), Encode(t[1..]), pass, Point(t[0]));
      PiecesEncoded(t[1..], pass);
    }
  }

  lemma EncodeCons(t: Text)
    requires t != []
    ensures Encode(t) == EncodeOne(t[0]) + Encode(t[1..])
  {
  }

  lemma PiecesCons(first: seq<Byte>, rest: seq<Byte>, pass: bool, piece: Piece)
    requires first != [] && Take(first + rest, pass) == (piece, |first|)
    ensures Pieces(first + rest, pass) == [piece] + Pieces(rest, pass)
  {
    hide Take;
    assert (first + rest)[|first|..] == rest;
  }

  lemma {:induction false} KeepAllPoints(t: Text)
    ensures KeepPoints(Points(t)) == t
  {
    if t != [] {
      assert Points(t)[1..] == Points(t[1..]);
      KeepAllPoints(t[1..]);
    }
  }

  lemma DecodePassEncoded(t: Text)
    ensures DecodePass(Encode(t)) == Some(t)
  {
    PiecesEncoded(t, true);
    KeepAllPoints(t);
  }

  /** Replacement at most triples the size: a malformed byte becomes one three-byte mark. */
  lemma {:induction false} ReplaceExpansion(raw: seq<Byte>)
    ensures |Encode(DecodeReplace(raw))| <= 3 * |raw|
  {
    if raw != [] {
      var (piece, n) := Take(raw, false);
      var rest := DecodeReplace(raw[n..]);
      ReplaceExpansion(raw[n..]);
      assert ([Shown(piece)] + rest)[1..] == rest;
      assert Encode([Shown(piece)] + rest) == EncodeOne(Shown(piece)) + Encode(rest);
    }
  }

  // ----- the longest suffix that fits -----

  /** The longest suffix of `t` whose encoding takes at most `limit` bytes. */
  function Fitting(t: Text, limit: nat): (r: Text)
    ensures |Encode(r)| <= limit
  {
    if |Encode(t)| <= limit then t else Fitting(t[1..], limit)
  }

  /** `kept` is the longest suffix of `t` that starts on a code point and fits. */
  predicate LongestSuffix(kept: Text, t: Text, limit: nat) {
    && |kept| <= |t| && kept == t[|t| - |kept|..]
    && |Encode(kept)| <= limit
    && forall k: nat :: k < |t| - |kept| ==> |Encode(t[k..])| > limit
  }

  lemma {:induction false} FittingIsLongest(t: Text, limit: nat)
    ensures LongestSuffix(Fitting(t, limit), t, limit)
  {
    if |Encode(t)| > limit {
      FittingIsLongest(t[1..], limit);
      forall k: nat | k < |t| - |Fitting(t, limit)|
        ensures |Encode(t[k..])| > limit
      {
        if k == 0 {
          assert t[0..] == t;
        } else {
          assert t[k..] == t[1..][k - 1..];
        }
      }
    }
  }

  /** Cutting early changes nothing: only the last bytes of the whole text ever matter. */
  lemma {:induction false} FittingAbsorbs(a: Text, b: Text, limit: nat)
    ensures Fitting(Fitting(a, limit) + b, limit) == Fitting(a + b, limit)
  {
    if |Encode(a)| > limit {
      FittingAbsorbs(a[1..], b, limit);
      EncodeConcat(a, b);
      assert (a + b)[1..] == a[1..] + b;
    }
  }

  function StripContinuations(raw: seq<Byte>): seq<Byte> {
    if raw != [] && Continuation(raw[0]) then StripContinuations(raw[1..]) else raw
  }

  lemma EncodeStartsClean(t: Text)
    ensures t != [] ==> !Continuation(Encode(t)[0])
    ensures StripContinuations(Encode(t)) == Encode(t)
  {
  }

  lemma {:induction false} StripRun(run: seq<Byte>, t: Text)
    requires forall b :: b in run ==> Continuation(b)
    ensures StripContinuations(run + Encode(t)) == Encode(t)
  {
    if run == [] {
      EncodeStartsClean(t);
      assert run + Encode(t) == Encode(t);
    } else {
      StripRun(run[1..], t);
      assert (run + Encode(t))[1..] == run[1..] + Encode(t);
    }
  }

  /** Where a cut to the last `limit` bytes lands: inside at most one code point. */
  lemma {:induction false} CutSplits(t: Text, limit: nat) returns (run: seq<Byte>)
    requires |Encode(t)| > limit
    ensures Encode(t)[|Encode(t)| - limit..] == run + Encode(Fitting(t, limit))
    ensures forall b :: b in run ==> Continuation(b)
  {
    var first, rest := EncodeOne(t[0]), Encode(t[1..]);
    EncodeCons(t);
    LaterBytesContinue(t[0]);
    SuffixOfTwo(first, rest, limit);
    hide Encode, EncodeOne, Continuation;
    if |rest| > limit {
      run := CutSplits(t[1..], limit);
    } else {
      run := first[|first| - (limit - |rest|)..];
    }
  }

  lemma LaterBytesContinue(c: CodePoint)
    ensures forall i :: 1 <= i < |EncodeOne(c)| ==> Continuation(EncodeOne(c)[i])
  {
  }

  lemma SuffixOfTwo(first: seq<Byte>, rest: seq<Byte>, limit: nat)
    requires limit < |first + rest|
    ensures (first + rest)[|first + rest| - limit..]
         == if |rest| > limit then rest[|rest| - limit..] else first[|first| - (limit - |rest|)..] + rest
  {
  }

  /** The byte cut followed by the strip is the longest suffix that fits. */
  lemma CutIsFitting(t: Text, limit: nat)
    requires |Encode(t)| > limit
    ensures StripContinuations(Encode(t)[|Encode(t)| - limit..]) == Encode(Fitting(t, limit))
  {
    var run := CutSplits(t, limit);
    StripRun(run, Fitting(t, limit));
  }

  // ----- bounded displays -----

  const MARK: Text := Ascii("[truncated]")

  /** Encoding with the handler `replace`: a surrogate becomes a question mark. */
  function Substituted(t: Text): (r: Text)
    ensures |r| == |t|
    ensures forall c :: c in r ==> !Surrogate(c)
    ensures (forall c :: c in t ==> !Surrogate(c)) ==> r == t
  {
    seq(|t|, i requires 0 <= i < |t| => if Surrogate(t[i]) then 63 else t[i])
  }

  /** The longest prefix of `t` whose encoding takes at most `limit` bytes. */
  function Leading(t: Text, limit: nat): (r: Text)
    ensures |Encode(r)| <= limit
    ensures r <= t
  {
    if t == [] || |EncodeOne(t[0])| > limit then []
    else
      var r := Leading(t[1..], limit - |EncodeOne(t[0])|);
      assert Encode([t[0]] + r) == EncodeOne(t[0]) + Encode(r) by { assert ([t[0]] + r)[1..] == r; }
      [t[0]] + r
  }

  /** No longer prefix fits. */
  lemma {:induction false} LeadingIsLongest(t: Text, limit: nat, k: nat)
    requires |Leading(t, limit)| < k <= |t|
    ensures |Encode(t[..k])| > limit
  {
    EncodeCons(t[..k]);
    assert t[..k][1..] == t[1..][..k - 1];
    if |EncodeOne(t[0])| <= limit {
      LeadingIsLongest(t[1..], limit - |EncodeOne(t[0])|, k - 1);
    }
  }

  /** `kept` is the longest prefix of `t` that fits. */
  predicate LongestPrefix(kept: Text, t: Text, limit: nat) {
    && kept <= t && |Encode(kept)| <= limit
    && forall k: nat :: |kept| < k <= |t| ==> |Encode(t[..k])| > limit
  }

  lemma LeadingIsLongestPrefix(t: Text, limit: nat)
    ensures LongestPrefix(Leading(t, limit), t, limit)
  {
    hide Encode, Leading;
    forall k: nat | |Leading(t, limit)| < k <= |t|
      ensures |Encode(t[..k])| > limit
    {
      LeadingIsLongest(t, limit, k);
    }
  }

  /** What is kept of an encoded value when only `room` bytes are left for it. */
  function KeptPart(raw: seq<Byte>, room: nat, suffix: bool): Text
    requires room <= |raw|
  {
    DecodeIgnore(if suffix && room != 0 then raw[|raw| - room..] else raw[..room])
  }

  function Bounded(value: Text, limit: int, suffix: bool := false): Text {
    var raw := Encode(Substituted(value));
    if |raw| <= limit then Substituted(value)
    else if limit < |MARK| then MARK[..Max(0, limit)]
    else
      var kept := KeptPart(raw, limit - |MARK|, suffix);
      if suffix then MARK + kept else kept + MARK
  }

  lemma IgnoreFirst(raw: seq<Byte>, c: CodePoint, n: nat)
    requires raw != [] && Take(raw, false) == (Point(c), n)
    ensures DecodeIgnore(raw) == [c] + DecodeIgnore(raw[n..])
  {
    hide Take;
    assert Pieces(raw, false)[1..] == Pieces(raw[n..], false);
  }

  /** A cut after `limit` bytes leaves the longest prefix and at most one unfinished sequence. */
  lemma {:induction false} IgnorePrefix(t: Text, limit: nat)
    requires forall c :: c in t ==> !Surrogate(c)
    requires limit <= |Encode(t)|
    ensures DecodeIgnore(Encode(t)[..limit]) == Leading(t, limit)
  {
    var cut := Encode(t)[..limit];
    if t != [] && cut != [] {
      var first := EncodeOne(t[0]);
      if |first| <= limit {
        var more := Encode(t[1..])[..limit - |first|];
        assert cut == first + more && cut[|first|..] == more;
        TakeEncoded(t[0], more, false);
        IgnorePrefix(t[1..], limit - |first|);
        IgnoreFirst(cut, t[0], |first|);
      } else {
        assert cut == first[..limit];
        TakeUnfinished(t[0], limit);
        assert cut[limit..] == [];
        assert Pieces(cut, false) == [Bad] && [Bad][1..] == [];
      }
    }
  }

  lemma {:induction false} IgnoreRun(run: seq<Byte>, t: Text)
    requires forall b :: b in run ==> Continuation(b)
    requires forall c :: c in t ==> !Surrogate(c)
    ensures DecodeIgnore(run + Encode(t)) == t
  {
    var raw := run + Encode(t);
    if run == [] {
      assert raw == Encode(t);
      PiecesEncoded(t, false);
      KeepAllPoints(t);
    } else {
      assert raw[1..] == run[1..] + Encode(t);
      assert raw[0] == run[0] && run[0] in run;
      assert Pieces(raw, false)[1..] == Pieces(raw[1..], false);
      IgnoreRun(run[1..], t);
    }
  }

  lemma {:induction false} PlainSize(t: Text)
    requires forall i :: 0 <= i < |t| ==> t[i] < 0x80
    ensures |Encode(t)| == |t|
  {
    if t != [] {
      PlainSize(t[1..]);
    }
  }

  lemma MarkSize(n: nat)
    requires n <= |MARK|
    ensures |Encode(MARK[..n])| == n
    ensures |Encode(MARK)| == |MARK| == 11
  {
    PlainSize(MARK[..n]);
    PlainSize(MARK);
  }

  lemma BoundedTooSmall(value: Text, limit: int, suffix: bool)
    requires limit < |MARK|
    ensures |Encode(Bounded(value, limit, suffix))| <= Max(0, limit)
  {
    MarkSize(Max(0, limit));
    if |Encode(Substituted(value))| <= limit {
    }
  }

  lemma IgnoreSuffix(clean: Text, room: nat)
    requires room < |Encode(clean)|
    requires forall c :: c in clean ==> !Surrogate(c)
    ensures DecodeIgnore(Encode(clean)[|Encode(clean)| - room..]) == Fitting(clean, room)
  {
    var run := CutSplits(clean, room);
    FittingIsLongest(clean, room);
    IgnoreRun(run, Fitting(clean, room));
  }

  lemma KeptPartMeaning(clean: Text, room: nat, suffix: bool)
    requires room < |Encode(clean)|
    requires forall c :: c in clean ==> !Surrogate(c)
    ensures KeptPart(Encode(clean), room, suffix) == if suffix then Fitting(clean, room) else Leading(clean, room)
  {
    if !suffix {
      IgnorePrefix(clean, room);
    } else if room == 0 {
      assert Encode(clean)[..0] == [];
      assert Fitting(clean, 0) == [];
    } else {
      IgnoreSuffix(clean, room);
    }
  }

  /** What a display keeps: all of a value that fits, otherwise the longest prefix (or suffix) that
      leaves room for the mark, cut between code points; never more bytes than allowed. */
  lemma BoundedMeaning(value: Text, limit: int, suffix: bool)
    ensures |Encode(Bounded(value, limit, suffix))| <= Max(0, limit)
    ensures |Encode(Substituted(value))| <= limit ==> Bounded(value, limit, suffix) == Substituted(value)
    ensures limit < 11 && limit < |Encode(Substituted(value))| ==>
              Bounded(value, limit, suffix) == Ascii("[truncated]")[..Max(0, limit)]
    ensures 11 <= limit < |Encode(Substituted(value))| ==>
              var clean, room, mark := Substituted(value), limit - 11, Ascii("[truncated]");
              if suffix then
                Bounded(value, limit, suffix) == mark + Fitting(clean, room) && LongestSuffix(Fitting(clean, room), clean, room)
              else
                Bounded(value, limit, suffix) == Leading(clean, room) + mark && LongestPrefix(Leading(clean, room), clean, room)
  {
    var clean, room := Substituted(value), limit - |MARK|;
    if limit < |MARK| {
      BoundedTooSmall(value, limit, suffix);
    } else if limit < |Encode(clean)| {
      KeptPartMeaning(clean, room, suffix);
      LeadingIsLongestPrefix(clean, room);
      FittingIsLongest(clean, room);
      hide LongestPrefix, LongestSuffix, Encode, Leading, Fitting;
      MarkSize(|MARK|);
      EncodeConcat(MARK, Fitting(clean, room));
      EncodeConcat(Leading(clean, room), MARK);
    }
  }
}
