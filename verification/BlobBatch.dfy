/** Reading the length-prefixed answer of a batch of blob requests. The format is the one in which a
    blob's content may look like anything, headers included. */
module BlobBatch {
  import opened Core

  const SPACE: Byte := 32

  type Oid = seq<Byte>

  datatype Error = Truncated | MalformedMetadata | Inconsistent | Trailing

  /** How the host language reads an integer; it accepts more spellings than plain digits. */
  type IntReader = seq<Byte> -> Option<int>

  const BLOB: seq<Byte> := [98, 108, 111, 98]  // "blob"

  // ----- the format -----

  /** A request is an object id: it holds neither spaces nor newlines. */
  predicate IsWord(w: seq<Byte>) {
    forall b :: b in w ==> b != 32 && b != 10 && b < 128
  }

  /** One spelling of a size. */
  predicate Spells(reader: IntReader, size: seq<Byte>, n: nat) {
    IsWord(size) && reader(size) == Some(n)
  }

  function Header(oid: Oid, size: seq<Byte>): seq<Byte> {
    oid + [32] + [98, 108, 111, 98] + [32] + size
  }

  function Answer(oid: Oid, size: seq<Byte>, content: seq<Byte>): seq<Byte> {
    Header(oid, size) + [10] + content + [10]
  }

  function Answers(oids: seq<Oid>, sizes: seq<seq<Byte>>, contents: seq<seq<Byte>>): seq<Byte>
    requires |oids| == |sizes| == |contents|
  {
    if oids == [] then []
    else Answer(oids[0], sizes[0], contents[0]) + Answers(oids[1..], sizes[1..], contents[1..])
  }

  predicate AllSpell(reader: IntReader, sizes: seq<seq<Byte>>, contents: seq<seq<Byte>>) {
    |sizes| == |contents| && forall i :: 0 <= i < |sizes| ==> Spells(reader, sizes[i], |contents[i]|)
  }

  // ----- the parser -----

  /** The first position of a byte at or after `from`, or the length. */
  function Find(s: seq<Byte>, b: Byte, from: nat): (r: nat)
    requires from <= |s|
    ensures from <= r <= |s|
    ensures b !in s[from..r]
    ensures r < |s| ==> s[r] == b
    decreases |s| - from
  {
    if from == |s| || s[from] == b then from
    else
      var r := Find(s, b, from + 1);
      assert s[from..r] == [s[from]] + s[from + 1..r];
      r
  }

  /** The three words of a header, if it is ASCII and splits at exactly two spaces. */
  function Words(header: seq<Byte>): (r: Option<(seq<Byte>, seq<Byte>, seq<Byte>)>) {
    var i := Find(header, SPACE, 0);
    if (exists b :: b in header && b >= 128) || i == |header| then None
    else
      var j := Find(header, SPACE, i + 1);
      if j == |header| || SPACE in header[j + 1..] then None
      else Some((header[..i], header[i + 1..j], header[j + 1..]))
  }

  /** The first answer, and where the next one starts. */
  function ParseOne(reader: IntReader, raw: seq<Byte>, oid: Oid): (r: Result<(seq<Byte>, nat), Error>)
    ensures r.Ok? ==> 0 < r.value.1 <= |raw|
  {
    var newline := Find(raw, NEWLINE, 0);
    if newline == |raw| then Err(Truncated)
    else
      var words := Words(raw[..newline]);
      if words.None? || reader(words.value.2).None? then Err(MalformedMetadata)
      else
        var (actual, kind, text) := words.value;
        var size := reader(text).value;
        var offset := newline + 1;
        var end := offset + size;
        if actual != oid || kind != BLOB || size < 0 || end >= |raw| || raw[end] != NEWLINE then Err(Inconsistent)
        else Ok((raw[offset..end], end + 1))
  }

  function Parse(reader: IntReader, raw: seq<Byte>, oids: seq<Oid>): (r: Result<seq<seq<Byte>>, Error>)
    ensures r.Ok? ==> |r.value| == |oids|
  {
    if oids == [] then if raw == [] then Ok([]) else Err(Trailing)
    else
      var one := ParseOne(reader, raw, oids[0]);
      if one.Err? then Err(one.error)
      else
        var rest := Parse(reader, raw[one.value.1..], oids[1..]);
        if rest.Err? then rest else Ok([one.value.0] + rest.value)
  }

  // ----- the requests -----

  /** The distinct ids in order of first appearance. */
  function FirstOf(oids: seq<Oid>): (r: seq<Oid>)
    ensures forall o :: o in r <==> o in oids
    ensures forall i, j :: 0 <= i < j < |r| ==> r[i] != r[j]
  {
    if oids == [] then []
    else
      var before, last := FirstOf(oids[..|oids| - 1]), oids[|oids| - 1];
      assert oids == oids[..|oids| - 1] + [last];
      if last in before then before else before + [last]
  }

  /** More requests only add ids at the end. */
  lemma {:induction false} FirstOfGrows(oids: seq<Oid>, n: nat)
    requires n <= |oids|
    ensures FirstOf(oids[..n]) <= FirstOf(oids)
  {
    if n == |oids| {
      assert oids[..n] == oids;
    } else {
      FirstOfGrows(oids[..|oids| - 1], n);
      assert oids[..|oids| - 1][..n] == oids[..n];
    }
  }

  /** The mapping read from the answers: each id with the content at its place. */
  ghost predicate Maps(blobs: map<Oid, seq<Byte>>, oids: seq<Oid>, contents: seq<seq<Byte>>) {
    && |contents| == |oids|
    && (forall o :: o in blobs <==> o in oids)
    && (forall i :: 0 <= i < |oids| ==> oids[i] in blobs && blobs[oids[i]] == contents[i])
  }

  function Prepend(done: seq<seq<Byte>>, r: Result<seq<seq<Byte>>, Error>): Result<seq<seq<Byte>>, Error> {
    if r.Err? then r else Ok(done + r.value)
  }

  method ReadBlobs(reader: IntReader, raw: seq<Byte>, requested: seq<Oid>) returns (r: Result<map<Oid, seq<Byte>>, Error>)
    ensures var parsed := Parse(reader, raw, FirstOf(requested));
            if parsed.Err? then r == Err(parsed.error)
            else r.Ok? && Maps(r.value, FirstOf(requested), parsed.value)
  {
    hide ParseOne, Parse;
    var oids := FirstOf(requested);
    var blobs: map<Oid, seq<Byte>> := map[];
    var offset: nat := 0;
    ghost var contents: seq<seq<Byte>> := [];
    assert raw[0..] == raw && oids[0..] == oids && oids[..0] == [];
    assert Prepend([], Parse(reader, raw, oids)) == Parse(reader, raw, oids) by {
      assert forall x: seq<seq<Byte>> :: [] + x == x;
    }
    for k := 0 to |oids|
      invariant offset <= |raw|
      invariant Maps(blobs, oids[..k], contents)
      invariant Parse(reader, raw, oids) == Prepend(contents, Parse(reader, raw[offset..], oids[k..]))
    {
      var one := ParseOne(reader, raw[offset..], oids[k]);
      assert oids[k..][1..] == oids[k + 1..] && oids[..k + 1] == oids[..k] + [oids[k]];
      ParseSteps(reader, raw[offset..], oids[k..], contents);
      if one.Err? {
        return Err(one.error);
      }
      assert raw[offset..][one.value.1..] == raw[offset + one.value.1..];
      blobs := blobs[oids[k] := one.value.0];
      contents := contents + [one.value.0];
      offset := offset + one.value.1;
    }
    assert oids[..|oids|] == oids && oids[|oids|..] == [];
    ParseEnds(reader, raw[offset..], contents);
    if offset != |raw| {
      return Err(Trailing);
    }
    return Ok(blobs);
  }

  lemma ParseSteps(reader: IntReader, raw: seq<Byte>, oids: seq<Oid>, done: seq<seq<Byte>>)
    requires oids != []
    ensures var one := ParseOne(reader, raw, oids[0]);
            Prepend(done, Parse(reader, raw, oids))
            == if one.Err? then Err(one.error)
               else Prepend(done + [one.value.0], Parse(reader, raw[one.value.1..], oids[1..]))
  {
    hide ParseOne;
    var one := ParseOne(reader, raw, oids[0]);
    if one.Ok? {
      var rest := Parse(reader, raw[one.value.1..], oids[1..]);
      if rest.Ok? {
        assert done + ([one.value.0] + rest.value) == done + [one.value.0] + rest.value;
      }
    }
  }

  lemma ParseEnds(reader: IntReader, raw: seq<Byte>, done: seq<seq<Byte>>)
    ensures Prepend(done, Parse(reader, raw, [])) == if raw == [] then Ok(done) else Err(Trailing)
  {
    assert done + [] == done;
  }

  // ----- exactness -----

  /** A byte found first splits the text there and nowhere earlier. */
  lemma {:induction false} FindStopsAt(s: seq<Byte>, b: Byte, from: nat, at: nat)
    requires from <= at < |s| && s[at] == b
    requires b !in s[from..at]
    ensures Find(s, b, from) == at
    decreases at - from
  {
    if from < at {
      assert s[from..at][0] == s[from] && s[from..at][1..] == s[from + 1..at];
      FindStopsAt(s, b, from + 1, at);
    }
  }

  lemma FindIsFirst(a: seq<Byte>, b: Byte, rest: seq<Byte>)
    requires b !in a
    ensures Find(a + [b] + rest, b, 0) == |a|
  {
    assert (a + [b] + rest)[0..|a|] == a;
    FindStopsAt(a + [b] + rest, b, 0, |a|);
  }

  /** ASCII without spaces. */
  predicate Spaceless(w: seq<Byte>) {
    forall b :: b in w ==> b != 32 && b < 128
  }

  function ThreeWords(a: seq<Byte>, b: seq<Byte>, c: seq<Byte>): seq<Byte> {
    a + [32] + (b + [32] + c)
  }

  /** Three words are what is read of a header, and of nothing else. */
  lemma WordsOfThree(a: seq<Byte>, b: seq<Byte>, c: seq<Byte>)
    requires Spaceless(a) && Spaceless(b) && Spaceless(c)
    ensures Words(ThreeWords(a, b, c)) == Some((a, b, c))
  {
    hide Find, ThreeWords;
    SpacesOfThree(a, b, c);
    var h := ThreeWords(a, b, c);
    FindStopsAt(h, SPACE, 0, |a|);
    FindStopsAt(h, SPACE, |a| + 1, |a| + 1 + |b|);
  }

  lemma SpacesOfThree(a: seq<Byte>, b: seq<Byte>, c: seq<Byte>)
    ensures var h := ThreeWords(a, b, c);
            var i, j := |a|, |a| + 1 + |b|;
            && |h| == j + 1 + |c| && h[..i] == h[0..i] == a && h[i + 1..j] == b && h[j + 1..] == c
            && h[i] == h[j] == SPACE && forall x :: x in h ==> x in a || x in b || x in c || x == SPACE
  {
  }

  lemma WordsOfHeader(oid: Oid, size: seq<Byte>)
    requires IsWord(oid) && IsWord(size)
    ensures Words(Header(oid, size)) == Some((oid, BLOB, size))
  {
    WordsOfThree(oid, BLOB, size);
    hide Words;
    assert Header(oid, size) == ThreeWords(oid, BLOB, size);
  }

  lemma HeaderOfWords(header: seq<Byte>)
    requires Words(header).Some? && Words(header).value.1 == BLOB && NEWLINE !in header
    ensures var (oid, _, size) := Words(header).value;
            header == Header(oid, size) && IsWord(size)
  {
    var (oid, kind, size) := Words(header).value;
    assert header == oid + [SPACE] + kind + [SPACE] + size;
    assert forall b :: b in size ==> b in header;
  }

  lemma ParseOneAnswer(reader: IntReader, oid: Oid, size: seq<Byte>, content: seq<Byte>, rest: seq<Byte>)
    requires IsWord(oid) && Spells(reader, size, |content|)
    ensures ParseOne(reader, Answer(oid, size, content) + rest, oid) == Ok((content, |Answer(oid, size, content)|))
  {
    hide Words, Find;
    var h := Header(oid, size);
    var raw := Answer(oid, size, content) + rest;
    assert raw == h + [NEWLINE] + (content + [NEWLINE] + rest);
    assert NEWLINE !in h;
    FindIsFirst(h, NEWLINE, content + [NEWLINE] + rest);
    assert raw[..|h|] == h;
    WordsOfHeader(oid, size);
    var end := |h| + 1 + |content|;
    assert raw[|h| + 1..end] == content && raw[end] == NEWLINE;
  }

  lemma AnswerParsed(reader: IntReader, raw: seq<Byte>, oid: Oid) returns (size: seq<Byte>)
    requires ParseOne(reader, raw, oid).Ok?
    ensures var (content, n) := ParseOne(reader, raw, oid).value;
            && raw == Answer(oid, size, content) + raw[n..]
            && Spells(reader, size, |content|)
  {
    hide Words, Find;
    var newline := Find(raw, NEWLINE, 0);
    var header := raw[..newline];
    assert raw[0..newline] == header;
    HeaderOfWords(header);
    size := Words(header).value.2;
    var (content, n) := ParseOne(reader, raw, oid).value;
    assert raw == header + [NEWLINE] + content + [NEWLINE] + raw[n..];
  }

  lemma ThreeOfWords(header: seq<Byte>)
    requires Words(header).Some?
    ensures var (a, b, c) := Words(header).value;
            Spaceless(a) && Spaceless(b) && Spaceless(c) && header == ThreeWords(a, b, c)
  {
    var (a, b, c) := Words(header).value;
    hide Find;
    assert header[0..|a|] == a;
    assert header == a + [SPACE] + b + [SPACE] + c;
    assert forall x :: x in header ==> x < 128;
    assert forall x :: x in a || x in b || x in c ==> x in header;
    hide Words;
  }

  /** The first line, before its newline, is three words, the last of which is read as a number. */
  predicate Headed(reader: IntReader, raw: seq<Byte>, a: seq<Byte>, b: seq<Byte>, c: seq<Byte>) {
    && Spaceless(a) && Spaceless(b) && Spaceless(c) && 10 !in ThreeWords(a, b, c)
    && ThreeWords(a, b, c) + [10] <= raw && reader(c).Some?
  }

  /** Why an answer is refused. */
  lemma RefusalMeans(reader: IntReader, raw: seq<Byte>, oid: Oid)
    ensures ParseOne(reader, raw, oid) == Err(Truncated) <==> 10 !in raw
    ensures ParseOne(reader, raw, oid) == Err(MalformedMetadata) <==> 10 in raw && forall a, b, c :: !Headed(reader, raw, a, b, c)
    ensures ParseOne(reader, raw, oid) != Err(Trailing)
  {
    var newline := Find(raw, NEWLINE, 0);
    hide Find;
    assert newline == |raw| <==> 10 !in raw by {
      assert raw[0..|raw|] == raw;
    }
    if newline < |raw| {
      var header := raw[..newline];
      assert raw[0..newline] == header;
      if Words(header).Some? {
        ThreeOfWords(header);
        var (a, b, c) := Words(header).value;
        assert reader(c).Some? ==> Headed(reader, raw, a, b, c);
      }
      forall a, b, c | Headed(reader, raw, a, b, c)
        ensures Words(header) == Some((a, b, c))
      {
        WordsOfThree(a, b, c);
        HeaderIsFirstLine(raw, ThreeWords(a, b, c), newline);
      }
    }
    hide Words, Headed;
  }

  lemma HeaderIsFirstLine(raw: seq<Byte>, header: seq<Byte>, newline: nat)
    requires newline < |raw| && raw[newline] == 10 && 10 !in raw[..newline] && 10 !in header && header + [10] <= raw
    ensures raw[..newline] == header
  {
    assert raw[|header|] == (header + [10])[|header|] == 10;
    assert forall i :: 0 <= i < |header| ==> header[i] == (header + [10])[i] == raw[i];
    assert forall i :: 0 <= i < newline ==> raw[i] == raw[..newline][i];
    assert |header| == newline;
    assert raw[..newline] == (header + [10])[..newline];
  }

  /** A refused input holds whole answers up to the first that is refused, or more than all of them. */
  lemma {:induction false} RefusalIsFirst(reader: IntReader, raw: seq<Byte>, oids: seq<Oid>)
      returns (sizes: seq<seq<Byte>>, contents: seq<seq<Byte>>, rest: seq<Byte>)
    requires Parse(reader, raw, oids).Err?
    ensures |sizes| == |contents| <= |oids| && AllSpell(reader, sizes, contents)
    ensures raw == Answers(oids[..|contents|], sizes, contents) + rest
    ensures if |contents| == |oids| then rest != [] && Parse(reader, raw, oids) == Err(Trailing)
            else ParseOne(reader, rest, oids[|contents|]).Err?
                 && Parse(reader, raw, oids).error == ParseOne(reader, rest, oids[|contents|]).error
  {
    hide ParseOne;
    sizes, contents, rest := [], [], raw;
    if oids != [] {
      var one := ParseOne(reader, raw, oids[0]);
      if one.Ok? {
        var size := AnswerParsed(reader, raw, oids[0]);
        var moreSizes, moreContents, left := RefusalIsFirst(reader, raw[one.value.1..], oids[1..]);
        sizes, contents, rest := [size] + moreSizes, [one.value.0] + moreContents, left;
        var n := |contents|;
        assert oids[..n][0] == oids[0] && oids[..n][1..] == oids[1..][..n - 1];
        assert sizes[1..] == moreSizes && contents[1..] == moreContents;
        ConcatAssociates(Answer(oids[0], size, one.value.0), Answers(oids[1..][..n - 1], moreSizes, moreContents), rest);
      }
    }
  }

  lemma {:induction false} ParseAnswers(reader: IntReader, oids: seq<Oid>, sizes: seq<seq<Byte>>, contents: seq<seq<Byte>>)
    requires |oids| == |sizes| && AllSpell(reader, sizes, contents)
    requires forall i :: 0 <= i < |oids| ==> IsWord(oids[i])
    ensures Parse(reader, Answers(oids, sizes, contents), oids) == Ok(contents)
  {
    hide ParseOne;
    if oids != [] {
      var first, rest := Answer(oids[0], sizes[0], contents[0]), Answers(oids[1..], sizes[1..], contents[1..]);
      ParseOneAnswer(reader, oids[0], sizes[0], contents[0], rest);
      assert (first + rest)[|first|..] == rest;
      ParseAnswers(reader, oids[1..], sizes[1..], contents[1..]);
      assert [contents[0]] + contents[1..] == contents;
    }
  }

  lemma {:induction false} AnswersParsed(reader: IntReader, raw: seq<Byte>, oids: seq<Oid>) returns (sizes: seq<seq<Byte>>)
    requires Parse(reader, raw, oids).Ok?
    ensures var contents := Parse(reader, raw, oids).value;
            |oids| == |sizes| && AllSpell(reader, sizes, contents) && raw == Answers(oids, sizes, contents)
  {
    hide ParseOne;
    if oids == [] {
      sizes := [];
    } else {
      var one := ParseOne(reader, raw, oids[0]);
      var size := AnswerParsed(reader, raw, oids[0]);
      var rest := AnswersParsed(reader, raw[one.value.1..], oids[1..]);
      sizes := [size] + rest;
      var contents := Parse(reader, raw, oids).value;
      assert sizes[1..] == rest && contents[1..] == Parse(reader, raw[one.value.1..], oids[1..]).value;
    }
  }

  /** The parser accepts exactly the answers to the request, up to how the sizes are spelled, and
      reads exactly their contents. */
  lemma BatchIsExact(reader: IntReader, raw: seq<Byte>, oids: seq<Oid>, contents: seq<seq<Byte>>)
    requires |contents| == |oids|
    requires forall i :: 0 <= i < |oids| ==> IsWord(oids[i])
    ensures Parse(reader, raw, oids) == Ok(contents)
            <==> exists sizes: seq<seq<Byte>> :: AllSpell(reader, sizes, contents) && raw == Answers(oids, sizes, contents)
  {
    if Parse(reader, raw, oids) == Ok(contents) {
      var sizes := AnswersParsed(reader, raw, oids);
    }
    if sizes: seq<seq<Byte>> :| AllSpell(reader, sizes, contents) && raw == Answers(oids, sizes, contents) {
      ParseAnswers(reader, oids, sizes, contents);
    }
  }

  function Sizes(contents: seq<seq<Byte>>): seq<seq<Byte>> {
    seq(|contents|, i requires 0 <= i < |contents| => Decimal(|contents[i]|))
  }

  /** The round trip with sizes in plain digits, as Git writes them: whatever the contents. */
  lemma BatchRoundTrip(reader: IntReader, oids: seq<Oid>, contents: seq<seq<Byte>>)
    requires |contents| == |oids|
    requires forall i :: 0 <= i < |oids| ==> IsWord(oids[i])
    requires forall n: nat :: reader(Decimal(n)) == Some(n)
    ensures Parse(reader, Answers(oids, Sizes(contents), contents), oids) == Ok(contents)
  {
    assert AllSpell(reader, Sizes(contents), contents);
    ParseAnswers(reader, oids, Sizes(contents), contents);
  }
}
