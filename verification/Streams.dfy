/** One captured pipe: a bounded tail of its raw bytes, a bounded tail of its decoded text, and the
    parser that hears every chunk. The incremental decoder is library code; each read carries what
    the decoder made of it, or nothing if it raised. */
module Streams {
  import opened Core
  import opened Counters
  import opened Utf8
  import Events
  import Framing

  const CHUNK := 4096
  const TAIL := 65536

  datatype StreamCounter = ObservedBytes | RetainedRawBytes | DiscardedRawBytes

  /** What one poll of the pipe yields. */
  datatype Read =
    | Nothing
    | Data(chunk: seq<Byte>, decoded: Option<Text>)
    | End(decoded: Option<Text>)
    | Failure

  predicate Feasible(polls: seq<Read>) {
    forall i :: 0 <= i < |polls| && polls[i].Data? ==> 1 <= |polls[i].chunk| <= CHUNK
  }

  predicate Stops(r: Read) {
    r.End? || r.Failure?
  }

  // ----- what a sequence of reads amounts to -----

  function Chunk(r: Read): seq<Byte> {
    if r.Data? then r.chunk else []
  }

  function Bytes(polls: seq<Read>): seq<Byte> {
    if polls == [] then [] else Bytes(polls[..|polls| - 1]) + Chunk(polls[|polls| - 1])
  }

  function Last(s: seq<Byte>, n: nat): seq<Byte> {
    s[|s| - Min(n, |s|)..]
  }

  function Output(r: Read): Option<Text> {
    match r
    case Data(_, decoded) => decoded
    case End(decoded) => decoded
    case _ => Some([])
  }

  predicate DecodingFailed(polls: seq<Read>) {
    exists i :: 0 <= i < |polls| && Output(polls[i]).None?
  }

  /** All the text decoded before the first decoding error. */
  function Decoded(polls: seq<Read>): Text {
    if polls == [] then []
    else
      var before := Decoded(polls[..|polls| - 1]);
      if DecodingFailed(polls) then before else before + Output(polls[|polls| - 1]).value
  }

  // ----- what the stream keeps -----

  datatype Holdings = Holdings(tail: seq<Byte>, highWater: nat, counts: Tally<StreamCounter>, text: Text, decodeError: bool)

  const NO_COUNTS: map<StreamCounter, nat> := map[ObservedBytes := 0, RetainedRawBytes := 0, DiscardedRawBytes := 0]

  const NOTHING := Holdings([], 0, Tally(NO_COUNTS, false), [], false)

  function KeepRaw(k: Holdings, chunk: seq<Byte>): Holdings {
    var overflow := Max(0, |k.tail| + |chunk| - TAIL);
    var counts := k.counts.Add(ObservedBytes, |chunk|);
    var counts := if overflow == 0 then counts else counts.Add(DiscardedRawBytes, overflow);
    var tail := k.tail[Min(overflow, |k.tail|)..] + chunk;
    k.(tail := tail, highWater := Max(k.highWater, |tail|), counts := counts.Set(RetainedRawBytes, |tail|))
  }

  function KeepText(k: Holdings, decoding: bool, decoded: Option<Text>): Holdings {
    if !decoding || k.decodeError then k
    else if decoded.None? then k.(decodeError := true)
    else k.(text := Fitting(k.text + decoded.value, TAIL))
  }

  function KeepOne(k: Holdings, decoding: bool, r: Read): Holdings {
    match r
    case Data(chunk, decoded) => KeepText(KeepRaw(k, chunk), decoding, decoded)
    case End(decoded) => KeepText(k, decoding, decoded)
    case _ => k
  }

  function KeepAll(decoding: bool, polls: seq<Read>): Holdings {
    if polls == [] then NOTHING
    else KeepOne(KeepAll(decoding, polls[..|polls| - 1]), decoding, polls[|polls| - 1])
  }

  // ----- the stream -----

  class Stream {
    var tail: seq<Byte>
    const counts: Counts<StreamCounter>
    const parser: Framing.Parser?
    const decoding: bool
    var eof: bool
    var failed: bool
    var highWater: nat
    var textTail: Text
    var decodeError: bool

    /** The objects of the parser. */
    ghost const Hearers: set<object>

    ghost predicate Wired() {
      && Hearers == (if parser == null then {} else {parser as object, parser.counts, parser.reasons})
      && counts as object !in Hearers && this as object !in Hearers
    }

    function View(): Holdings
      reads this, counts
    {
      Holdings(tail, highWater, counts.View(), textTail, decodeError)
    }

    constructor (parser: Framing.Parser?, decoding: bool)
      ensures this.parser == parser && this.decoding == decoding && fresh(counts)
      ensures Wired() && View() == NOTHING && !eof && !failed
    {
      tail, eof, failed, highWater, textTail, decodeError := [], false, false, 0, [], false;
      counts := new Counts(NO_COUNTS);
      this.parser, this.decoding := parser, decoding;
      Hearers := if parser == null then {} else {parser as object, parser.counts, parser.reasons};
    }

    method KeepChunk(chunk: seq<Byte>)
      requires |chunk| <= CHUNK
      modifies this`tail, this`highWater, counts
      ensures View() == KeepRaw(old(View()), chunk)
    {
      counts.Add(ObservedBytes, |chunk|);
      var overflow := Max(0, |tail| + |chunk| - TAIL);
      if overflow != 0 {
        tail := tail[Min(overflow, |tail|)..];
        counts.Add(DiscardedRawBytes, overflow);
      }
      tail := tail + chunk;
      highWater := Max(highWater, |tail|);
      counts.Set(RetainedRawBytes, |tail|);
    }

    /** The decoded tail is cut in bytes and repaired at its left edge, which is the longest suffix
        of whole code points. */
    method Decode(decoded: Option<Text>)
      modifies this`textTail, this`decodeError
      ensures View() == KeepText(old(View()), decoding, decoded)
    {
      if !decoding || decodeError {
        return;
      }
      if decoded.None? {
        decodeError := true;
        return;
      }
      var whole := textTail + decoded.value;
      var raw := Encode(whole);
      if |raw| > TAIL {
        CutIsFitting(whole, TAIL);
        raw := raw[|raw| - TAIL..];
        while raw != [] && Continuation(raw[0])
          invariant StripContinuations(raw) == Encode(Fitting(whole, TAIL))
          decreases |raw|
        {
          raw := raw[1..];
        }
      }
      DecodePassEncoded(Fitting(whole, TAIL));
      textTail := DecodePass(raw).value;
    }

    /** The parser, if there is one, has heard exactly `bytes` since it was in state `begun`. */
    ghost predicate Followed(begun: Framing.ParserState, bytes: seq<Byte>)
      requires Wired()
      reads Hearers
    {
      parser != null ==>
        parser.Valid() && parser.View() == Framing.Feeding(Events.Assess(parser.loads), begun, bytes)
    }

    /** The parser has raised, which ends the reader too. */
    predicate Deaf()
      reads Hearers
      requires Wired()
    {
      parser != null && parser.raised
    }

    method Hear(chunk: seq<Byte>, ghost begun: Framing.ParserState, ghost before: seq<Byte>)
      requires Wired() && Followed(begun, before) && !Deaf()
      modifies Hearers
      ensures Followed(begun, before + chunk)
    {
      if parser != null {
        Framing.ChunkingIsInvisible(Events.Assess(parser.loads), begun, before, chunk);
        parser.Feed(chunk);
      }
    }

    /** The body of the draining loop. */
    method Take(r: Read, ghost begun: Framing.ParserState, ghost before: seq<Byte>)
      requires Wired() && (r.Data? ==> |r.chunk| <= CHUNK)
      requires !Deaf() && Followed(begun, before)
      modifies this, counts, Hearers
      ensures View() == KeepOne(old(View()), decoding, r)
      ensures Followed(begun, before + Chunk(r))
      ensures eof == r.End? && failed == r.Failure?
    {
      if r.Data? {
        KeepChunk(r.chunk);
        Decode(r.decoded);
        Hear(r.chunk, begun, before);
      } else {
        assert before + [] == before;
        if r.End? {
          Decode(r.decoded);
        }
      }
      eof, failed := r.End?, r.Failure?;
    }

    /** The draining loop: polls until the pipe ends or fails, the supervisor stops the reader (the
        polls run out) or the parser raises. */
    method Pump(polls: seq<Read>, ghost begun: Framing.ParserState) returns (n: nat)
      requires Wired() && Feasible(polls) && View() == NOTHING && !eof && !failed
      requires !Deaf() && Followed(begun, [])
      modifies this, counts, Hearers
      ensures n <= |polls| && View() == KeepAll(decoding, polls[..n]) && Followed(begun, Bytes(polls[..n]))
      ensures forall i :: 0 <= i < n - 1 ==> !Stops(polls[i])
      ensures n == |polls| || (n > 0 && Stops(polls[n - 1])) || Deaf()
      ensures eof <==> n > 0 && polls[n - 1].End?
      ensures failed <==> n > 0 && polls[n - 1].Failure?
    {
      n := 0;
      assert polls[..0] == [];
      while n < |polls| && !eof && !failed && !Deaf()
        invariant n <= |polls| && View() == KeepAll(decoding, polls[..n]) && Followed(begun, Bytes(polls[..n]))
        invariant forall i :: 0 <= i < n - 1 ==> !Stops(polls[i])
        invariant eof <==> n > 0 && polls[n - 1].End?
        invariant failed <==> n > 0 && polls[n - 1].Failure?
        decreases |polls| - n
      {
        assert polls[..n + 1][..n] == polls[..n];
        Take(polls[n], begun, Bytes(polls[..n]));
        n := n + 1;
      }
    }

    /** Draining a pipe: at the end, however it ends, the parser is told that the stream is over. */
    method Drain(polls: seq<Read>) returns (n: nat)
      requires Wired() && Feasible(polls) && View() == NOTHING && !eof && !failed
      requires parser != null ==> parser.Valid() && !parser.raised
      modifies this, counts, Hearers
      ensures n <= |polls| && View() == KeepAll(decoding, polls[..n])
      ensures forall i :: 0 <= i < n - 1 ==> !Stops(polls[i])
      ensures n == |polls| || (n > 0 && Stops(polls[n - 1])) || Deaf()
      ensures eof <==> n > 0 && polls[n - 1].End?
      ensures failed <==> n > 0 && polls[n - 1].Failure?
      ensures parser != null ==>
                parser.View() == Framing.Finish(Framing.Feeding(Events.Assess(parser.loads), old(parser.View()), Bytes(polls[..n])))
    {
      n := Pump(polls, if parser == null then Framing.INITIAL else parser.View());
      if parser != null {
        parser.FinishStream();
      }
    }
  }

  // ----- the tails depend only on what has gone by -----

  lemma LastAppends(s: seq<Byte>, chunk: seq<Byte>, n: nat)
    requires |chunk| <= n
    ensures var overflow := Max(0, |Last(s, n)| + |chunk| - n);
            overflow <= |Last(s, n)| && Last(s + chunk, n) == Last(s, n)[overflow..] + chunk
  {
  }

  predicate Accounted(k: Holdings, bytes: seq<Byte>) {
    && k.tail == Last(bytes, 65536)
    && k.highWater == |k.tail|
    && k.counts.At(ObservedBytes) == Min(MAX_COUNT, |bytes|)
    && k.counts.At(RetainedRawBytes) == |k.tail|
    && k.counts.At(DiscardedRawBytes) == Min(MAX_COUNT, |bytes| - |k.tail|)
  }

  lemma KeepRawAccounts(k: Holdings, bytes: seq<Byte>, chunk: seq<Byte>)
    requires Accounted(k, bytes) && |chunk| <= CHUNK
    ensures Accounted(KeepRaw(k, chunk), bytes + chunk)
  {
    LastAppends(bytes, chunk, TAIL);
  }

  lemma KeepOneAccounts(k: Holdings, bytes: seq<Byte>, decoding: bool, r: Read)
    requires Accounted(k, bytes) && |Chunk(r)| <= CHUNK
    ensures Accounted(KeepOne(k, decoding, r), bytes + Chunk(r))
  {
    if r.Data? {
      KeepRawAccounts(k, bytes, r.chunk);
      assert Accounted(KeepText(KeepRaw(k, r.chunk), decoding, r.decoded), bytes + r.chunk);
    } else {
      assert bytes + Chunk(r) == bytes;
    }
  }

  lemma NothingAccounts()
    ensures Accounted(NOTHING, [])
  {
    assert Last([], TAIL) == [];
    assert NOTHING.counts.At(ObservedBytes) == NOTHING.counts.At(RetainedRawBytes)
           == NOTHING.counts.At(DiscardedRawBytes) == 0;
  }

  /** Whatever the chunks, the raw tail is the last bytes of the stream, as many as fit, and every
      observed byte is either in it or counted as discarded; each counter is exact up to its cap. */
  lemma {:induction false} RawTailIsLast(decoding: bool, polls: seq<Read>)
    requires Feasible(polls)
    ensures Accounted(KeepAll(decoding, polls), Bytes(polls))
  {
    if polls == [] {
      NothingAccounts();
    } else {
      var before, r := polls[..|polls| - 1], polls[|polls| - 1];
      RawTailIsLast(decoding, before);
      KeepOneAccounts(KeepAll(decoding, before), Bytes(before), decoding, r);
      assert KeepAll(decoding, polls) == KeepOne(KeepAll(decoding, before), decoding, r);
    }
  }

  /** The text kept is that of all text decoded so far. */
  predicate KeepsText(k: Holdings, polls: seq<Read>) {
    k.text == Fitting(Decoded(polls), TAIL) && k.decodeError == DecodingFailed(polls)
  }

  lemma KeepOneKeepsText(k: Holdings, before: seq<Read>, r: Read)
    requires KeepsText(k, before)
    ensures KeepsText(KeepOne(k, true, r), before + [r])
  {
    assert (before + [r])[..|before|] == before;
    FailsByNow(before, r);
    if Output(r).Some? {
      FittingAbsorbs(Decoded(before), Output(r).value, TAIL);
      if !r.Data? && !r.End? {
        assert Decoded(before) + [] == Decoded(before);
      }
    }
  }

  lemma {:induction false} AllKeepsText(polls: seq<Read>)
    ensures KeepsText(KeepAll(true, polls), polls)
  {
    if polls != [] {
      AllKeepsText(polls[..|polls| - 1]);
      KeepOneKeepsText(KeepAll(true, polls[..|polls| - 1]), polls[..|polls| - 1], polls[|polls| - 1]);
      assert polls[..|polls| - 1] + [polls[|polls| - 1]] == polls;
    }
  }

  /** Whatever the chunks, the text tail is the longest suffix of all the text decoded before the
      first decoding error that starts on a code point and takes at most TAIL bytes in UTF-8. */
  lemma TextTailIsLongest(polls: seq<Read>)
    ensures LongestSuffix(KeepAll(true, polls).text, Decoded(polls), 65536)
    ensures KeepAll(true, polls).decodeError <==> DecodingFailed(polls)
  {
    AllKeepsText(polls);
    FittingIsLongest(Decoded(polls), TAIL);
  }

  lemma FailsByNow(before: seq<Read>, r: Read)
    ensures DecodingFailed(before + [r]) <==> DecodingFailed(before) || Output(r).None?
  {
    var after := before + [r];
    assert after[|before|] == r;
    assert forall i :: 0 <= i < |before| ==> after[i] == before[i];
    if i :| 0 <= i < |before| && Output(before[i]).None? {
      assert Output(after[i]).None?;
    }
  }
}
