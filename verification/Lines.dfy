/** The batch view of a captured stream: split it at its newlines, hand over the lines that fit and
    reject the others. The byte-wise parser refines it, and conserves every byte it is fed. */
module Lines {
  import opened Core
  import opened Counters
  import opened Events
  import opened Chronology
  import opened Framing

  predicate IsLine(l: seq<Byte>) {
    10 !in l
  }

  predicate AreLines(ls: seq<seq<Byte>>) {
    forall l :: l in ls ==> IsLine(l)
  }

  function Unlines(ls: seq<seq<Byte>>): seq<Byte> {
    if ls == [] then [] else Unlines(ls[..|ls| - 1]) + (ls[|ls| - 1] + [10])
  }

  // ----- the batch specification -----

  function HearLine(judge: Assessor, k: Knowledge, l: seq<Byte>): Knowledge {
    if k.raised then k
    else if l == [] then Record(judge, k, l)
    else if |l| <= CARRY then Record(judge, SeeCarry(k, |l|), l)
    else TooLong(SeeCarry(k, CARRY), |l|)
  }

  function HearAll(judge: Assessor, k: Knowledge, ls: seq<seq<Byte>>): Knowledge {
    if ls == [] then k else HearLine(judge, HearAll(judge, k, ls[..|ls| - 1]), ls[|ls| - 1])
  }

  /** Where an unterminated last line leaves the parser. */
  function Leftover(k: Knowledge, rest: seq<Byte>): ParserState {
    if rest == [] || k.raised then ParserState([], false, 0, k)
    else if |rest| <= CARRY then ParserState(rest, false, 0, SeeCarry(k, |rest|))
    else ParserState([], true, Min(MAX_COUNT, |rest|), TooLong(SeeCarry(k, CARRY), |rest|))
  }

  /** A record that would make the parser raise. */
  predicate Crashes(judge: Assessor, l: seq<Byte>) {
    |l| <= CARRY && judge(l).Ok? && Raises(judge(l).value)
  }

  // ----- the byte-wise parser refines it -----

  lemma SeeCarryGrows(k: Knowledge, m: nat, n: nat)
    requires m <= n
    ensures SeeCarry(SeeCarry(k, m), n) == SeeCarry(k, n)
  {
    assert k.counts.values[CarryHighWater := Max(k.counts.At(CarryHighWater), m)]
             [CarryHighWater := Max(k.counts.At(CarryHighWater), n)]
           == k.counts.values[CarryHighWater := Max(k.counts.At(CarryHighWater), n)];
  }

  lemma TooLongGrows(k: Knowledge, n: nat)
    ensures TooLong(k, n + 1)
            == TooLong(k, n).(counts := TooLong(k, n).counts.Add(PartialBytes, 1).Add(OversizedRecordBytes, 1))
  {
    var t := Reject(k, Oversized).counts;
    AddCommutes(t.Add(PartialBytes, n), OversizedRecordBytes, n, PartialBytes, 1);
    AddMerges(t, PartialBytes, n, 1);
    AddMerges(t.Add(PartialBytes, n + 1), OversizedRecordBytes, n, 1);
  }

  lemma {:induction false} FeedLine(judge: Assessor, k: Knowledge, l: seq<Byte>)
    requires IsLine(l) && !k.raised
    ensures Feeding(judge, ParserState([], false, 0, k), l) == Leftover(k, l)
  {
    if l != [] {
      var before, b := l[..|l| - 1], l[|l| - 1];
      assert b in l;
      FeedLine(judge, k, before);
      LeftoverGrows(judge, k, before, b);
      assert before + [b] == l;
    }
  }

  lemma LeftoverGrows(judge: Assessor, k: Knowledge, before: seq<Byte>, b: Byte)
    requires !k.raised && b != NEWLINE
    ensures Step(judge, Leftover(k, before), b) == Leftover(k, before + [b])
  {
    hide Feeding, Record;
    if before == [] {
    } else if |before| < CARRY {
      SeeCarryGrows(k, |before|, |before| + 1);
    } else if |before| > CARRY {
      TooLongGrows(SeeCarry(k, CARRY), |before|);
    }
  }

  lemma FeedTerminated(judge: Assessor, k: Knowledge, l: seq<Byte>)
    requires IsLine(l) && !k.raised
    ensures var s := Feeding(judge, ParserState([], false, 0, k), l + [NEWLINE]);
            s == ParserState(if s.knows.raised then l else [], false, 0, HearLine(judge, k, l))
  {
    assert (l + [NEWLINE])[..|l|] == l;
    FeedLine(judge, k, l);
    hide Feeding, Record;
    NotRaisedByFraming(k, |l|);
  }

  lemma NotRaisedByFraming(k: Knowledge, n: nat)
    ensures SeeCarry(k, n).raised == TooLong(k, n).raised == k.raised
  {
  }

  /** Every stream is such a list of lines and a rest. */
  lemma {:induction false} EveryStreamSplits(stream: seq<Byte>) returns (ls: seq<seq<Byte>>, rest: seq<Byte>)
    ensures AreLines(ls) && IsLine(rest) && stream == Unlines(ls) + rest
  {
    if stream == [] {
      ls, rest := [], [];
    } else {
      var last := stream[|stream| - 1];
      ls, rest := EveryStreamSplits(stream[..|stream| - 1]);
      assert stream == stream[..|stream| - 1] + [last];
      if last == NEWLINE {
        assert (ls + [rest])[..|ls|] == ls;
        ls, rest := ls + [rest], [];
      } else {
        rest := rest + [last];
      }
    }
  }

  // ----- when the parser raises -----

  lemma RecordRaises(judge: Assessor, k: Knowledge, l: seq<Byte>)
    requires !k.raised
    ensures HearLine(judge, k, l).raised <==> Crashes(judge, l)
  {
  }

  /** The lines the parser gets to hear: all of them, up to the first that makes it raise. */
  function Heard(judge: Assessor, ls: seq<seq<Byte>>): (r: seq<seq<Byte>>)
    ensures r <= ls
    ensures forall i :: 0 <= i < |r| - 1 ==> !Crashes(judge, r[i])
    ensures |r| < |ls| ==> r != [] && Crashes(judge, r[|r| - 1])
  {
    if ls == [] then []
    else
      var r := Heard(judge, ls[..|ls| - 1]);
      if r != [] && Crashes(judge, r[|r| - 1]) then r else ls
  }

  predicate Alive(judge: Assessor, ls: seq<seq<Byte>>) {
    forall i :: 0 <= i < |ls| - 1 ==> !Crashes(judge, ls[i])
  }

  lemma {:induction false} RaisedMeans(judge: Assessor, ls: seq<seq<Byte>>)
    requires Alive(judge, ls)
    ensures HearAll(judge, IGNORANT, ls).raised <==> ls != [] && Crashes(judge, ls[|ls| - 1])
  {
    if ls != [] {
      RaisedMeans(judge, ls[..|ls| - 1]);
      RecordRaises(judge, HearAll(judge, IGNORANT, ls[..|ls| - 1]), ls[|ls| - 1]);
    }
  }

  lemma {:induction false} HearHeard(judge: Assessor, ls: seq<seq<Byte>>)
    ensures HearAll(judge, IGNORANT, ls) == HearAll(judge, IGNORANT, Heard(judge, ls))
  {
    if ls != [] {
      var before := ls[..|ls| - 1];
      HearHeard(judge, before);
      RaisedMeans(judge, Heard(judge, before));
    }
  }

  /** The parser has met a record that makes it raise; it is the last line heard. */
  predicate Stopped(judge: Assessor, ls: seq<seq<Byte>>) {
    var heard := Heard(judge, ls);
    heard != [] && Crashes(judge, heard[|heard| - 1])
  }

  /** Where a stream of terminated lines and an unterminated rest leaves the parser. An exception
      leaves the record that caused it in the carry. */
  function Outcome(judge: Assessor, ls: seq<seq<Byte>>, rest: seq<Byte>): ParserState {
    var heard := Heard(judge, ls);
    var k := HearAll(judge, IGNORANT, heard);
    if Stopped(judge, ls) then ParserState(heard[|heard| - 1], false, 0, k) else Leftover(k, rest)
  }

  lemma AllAreHeard(judge: Assessor, ls: seq<seq<Byte>>)
    ensures !Stopped(judge, ls) ==> Heard(judge, ls) == ls
  {
  }

  lemma {:induction false} FeedLines(judge: Assessor, ls: seq<seq<Byte>>)
    requires AreLines(ls)
    ensures Feeding(judge, INITIAL, Unlines(ls)) == Outcome(judge, ls, [])
    ensures Outcome(judge, ls, []).knows.raised <==> Stopped(judge, ls)
  {
    hide Feeding, HearLine, Leftover, Crashes;
    RaisedMeans(judge, Heard(judge, ls));
    NothingLeft(HearAll(judge, IGNORANT, Heard(judge, ls)));
    if ls == [] {
      FeedNothing(judge, INITIAL);
    } else {
      var before, l := ls[..|ls| - 1], ls[|ls| - 1];
      assert l in ls;
      FeedLines(judge, before);
      var s := Feeding(judge, INITIAL, Unlines(before));
      ChunkingIsInvisible(judge, INITIAL, Unlines(before), l + [NEWLINE]);
      if Stopped(judge, before) {
        RaisedHearsNothing(judge, s, l + [NEWLINE]);
      } else {
        AllAreHeard(judge, before);
        NothingLeft(HearAll(judge, IGNORANT, before));
        FeedTerminated(judge, s.knows, l);
        assert Heard(judge, ls) == ls;
      }
    }
  }

  lemma FeedNothing(judge: Assessor, s: ParserState)
    ensures Feeding(judge, s, []) == s
  {
  }

  lemma NothingLeft(k: Knowledge)
    ensures Leftover(k, []) == ParserState([], false, 0, k)
  {
  }

  /** Framing refines splitting. Whatever the stream and however it is cut into chunks, the records
      are exactly its terminated lines of at most CARRY bytes, in order and up to the first that
      makes the parser raise; each longer line is rejected once. The carry is the unterminated rest,
      or nothing while that is dropped, or the record at which the parser raised. */
  lemma FramingRefinesSplitting(judge: Assessor, ls: seq<seq<Byte>>, rest: seq<Byte>)
    requires AreLines(ls) && IsLine(rest)
    ensures Feeding(judge, INITIAL, Unlines(ls) + rest) == Outcome(judge, ls, rest)
  {
    hide Feeding, HearAll, Leftover, Unlines;
    FeedLines(judge, ls);
    ChunkingIsInvisible(judge, INITIAL, Unlines(ls), rest);
    var s := Feeding(judge, INITIAL, Unlines(ls));
    if Stopped(judge, ls) {
      RaisedHearsNothing(judge, s, rest);
    } else {
      NothingLeft(HearAll(judge, IGNORANT, Heard(judge, ls)));
      FeedLine(judge, s.knows, rest);
    }
  }

  lemma HeardStops(judge: Assessor, ls: seq<seq<Byte>>)
    ensures var r := Heard(judge, ls);
            r != [] && Crashes(judge, r[|r| - 1]) <==> exists i :: 0 <= i < |ls| && Crashes(judge, ls[i])
  {
    var r := Heard(judge, ls);
    assert forall i :: 0 <= i < |r| ==> r[i] == ls[i];
  }

  /** The parser raises exactly when some line crashes it, and hears nothing from then on. */
  lemma OnlyHeardLinesMatter(judge: Assessor, ls: seq<seq<Byte>>)
    ensures HearAll(judge, IGNORANT, ls) == HearAll(judge, IGNORANT, Heard(judge, ls))
    ensures HearAll(judge, IGNORANT, ls).raised <==> exists i :: 0 <= i < |ls| && Crashes(judge, ls[i])
  {
    HearHeard(judge, ls);
    HeardStops(judge, ls);
    RaisedMeans(judge, Heard(judge, ls));
  }

  // ----- what the counters say about the lines -----

  function Verdict(judge: Assessor, l: seq<Byte>): Option<Reason> {
    if |l| > CARRY then Some(Oversized)
    else match judge(l) case Err(reason) => Some(reason) case Ok(_) => None
  }

  /** How many bytes of the lines were handed to `record`. */
  function Delivered(ls: seq<seq<Byte>>): nat {
    if ls == [] then 0
    else Delivered(ls[..|ls| - 1]) + (if |ls[|ls| - 1]| <= CARRY then |ls[|ls| - 1]| else 0)
  }

  function Dropped(ls: seq<seq<Byte>>): nat {
    if ls == [] then 0
    else Dropped(ls[..|ls| - 1]) + (if |ls[|ls| - 1]| > CARRY then |ls[|ls| - 1]| else 0)
  }

  function Rejections(judge: Assessor, ls: seq<seq<Byte>>): nat {
    if ls == [] then 0
    else Rejections(judge, ls[..|ls| - 1]) + (if Verdict(judge, ls[|ls| - 1]).Some? then 1 else 0)
  }

  function RejectionsFor(judge: Assessor, ls: seq<seq<Byte>>, reason: Reason): nat {
    if ls == [] then 0
    else RejectionsFor(judge, ls[..|ls| - 1], reason) + (if Verdict(judge, ls[|ls| - 1]) == Some(reason) then 1 else 0)
  }

  function Acceptances(judge: Assessor, ls: seq<seq<Byte>>): nat {
    if ls == [] then 0
    else Acceptances(judge, ls[..|ls| - 1]) + (if Verdict(judge, ls[|ls| - 1]).None? then 1 else 0)
  }

  predicate Counted(judge: Assessor, k: Knowledge, ls: seq<seq<Byte>>) {
    && k.counts.At(OversizedRecordBytes) == Min(MAX_COUNT, Dropped(ls))
    && k.counts.At(PartialBytes) == Min(MAX_COUNT, Dropped(ls))
    && k.counts.At(UnfinishedRecordBytes) == 0
    && k.counts.At(IncompleteRecords) == 0
    && k.counts.At(Accepted) == Min(MAX_COUNT, Acceptances(judge, ls))
    && k.counts.At(Rejected) == Min(MAX_COUNT, Rejections(judge, ls))
    && (forall r :: k.reasons.At(r) == Min(MAX_COUNT, RejectionsFor(judge, ls, r)))
  }

  function Bump(value: nat, n: nat): nat {
    if n == 0 then value else Min(MAX_COUNT, value + n)
  }

  /** What one line may add to the counters. */
  datatype Effect = Effect(gone: nat, accepted: bool, reason: Option<Reason>)

  const NO_EFFECT := Effect(0, false, None)

  function EffectOf(judge: Assessor, l: seq<Byte>): Effect {
    Effect(if |l| > CARRY then |l| else 0, Verdict(judge, l).None?, Verdict(judge, l))
  }

  predicate Delta(k: Knowledge, after: Knowledge, e: Effect) {
    && after.counts.At(OversizedRecordBytes) == Bump(k.counts.At(OversizedRecordBytes), e.gone)
    && after.counts.At(PartialBytes) == Bump(k.counts.At(PartialBytes), e.gone)
    && after.counts.At(UnfinishedRecordBytes) == k.counts.At(UnfinishedRecordBytes)
    && after.counts.At(IncompleteRecords) == k.counts.At(IncompleteRecords)
    && after.counts.At(Accepted) == Bump(k.counts.At(Accepted), if e.accepted then 1 else 0)
    && after.counts.At(Rejected) == Bump(k.counts.At(Rejected), if e.reason.Some? then 1 else 0)
    && (forall r :: after.reasons.At(r) == Bump(k.reasons.At(r), if e.reason == Some(r) then 1 else 0))
  }

  lemma DeltaReject(k: Knowledge, reason: Reason)
    ensures Delta(k, Reject(k, reason), Effect(0, false, Some(reason)))
  {
  }

  lemma DeltaTooLong(k: Knowledge, n: nat)
    requires n > 0
    ensures Delta(k, TooLong(k, n), Effect(n, false, Some(Oversized)))
  {
    DeltaReject(k, Oversized);
  }

  lemma DeltaSeeCarry(k: Knowledge, n: nat, after: Knowledge, e: Effect)
    requires Delta(SeeCarry(k, n), after, e)
    ensures Delta(k, after, e)
  {
    assert forall c :: c != CarryHighWater ==> SeeCarry(k, n).counts.At(c) == k.counts.At(c);
  }

  lemma DeltaAdvance(k: Knowledge, m: Mark)
    ensures Delta(k, Advance(k, m), NO_EFFECT)
  {
    hide Place, Duplicate, SlotConflict, LaterStarted;
    assert forall c :: c != Duplicates && c != ChronologyConflicts ==> Advance(k, m).counts.At(c) == k.counts.At(c);
  }

  lemma DeltaAccept(k: Knowledge, e: Event)
    requires WellFormed(e)
    ensures Delta(k, Accept(k, e), Effect(0, true, None))
  {
    hide Advance;
    var begun := k.(counts := k.counts.Add(IgnoredUnknownFields, e.unknownFields).Add(Accepted, 1));
    assert Delta(k, begun, Effect(0, true, None));
    if IsTransition(e) {
      DeltaAdvance(begun, MarkOf(e));
    }
  }

  lemma DeltaHeed(k: Knowledge, verdict: Result<GoodEvent, Reason>)
    ensures Delta(k, Heed(k, verdict), Effect(0, verdict.Ok?, if verdict.Err? then Some(verdict.error) else None))
  {
    if verdict.Ok? {
      DeltaAccept(k, verdict.value);
    } else {
      DeltaReject(k, verdict.error);
    }
  }

  lemma LineIsCounted(judge: Assessor, k: Knowledge, l: seq<Byte>)
    requires !k.raised
    ensures Delta(k, HearLine(judge, k, l), EffectOf(judge, l))
  {
    hide Delta, Heed;
    var seen := SeeCarry(k, Min(|l|, CARRY));
    if |l| > CARRY {
      DeltaTooLong(seen, |l|);
      DeltaSeeCarry(k, CARRY, HearLine(judge, k, l), EffectOf(judge, l));
    } else if l == [] {
      DeltaHeed(k, judge(l));
    } else {
      DeltaHeed(seen, judge(l));
      DeltaSeeCarry(k, |l|, HearLine(judge, k, l), EffectOf(judge, l));
    }
  }

  lemma OneMoreIsCounted(judge: Assessor, k: Knowledge, after: Knowledge, ls: seq<seq<Byte>>, l: seq<Byte>)
    requires Counted(judge, k, ls)
    requires Delta(k, after, EffectOf(judge, l))
    ensures Counted(judge, after, ls + [l])
  {
    assert (ls + [l])[..|ls|] == ls;
  }

  lemma {:induction false} LinesAreCounted(judge: Assessor, ls: seq<seq<Byte>>)
    requires Alive(judge, ls)
    ensures Counted(judge, HearAll(judge, IGNORANT, ls), ls)
  {
    if ls == [] {
      NothingIsCounted(judge);
    } else {
      hide Counted, Delta, HearLine, HearAll, Alive;
      var before, l := ls[..|ls| - 1], ls[|ls| - 1];
      var k := HearAll(judge, IGNORANT, before);
      AliveFront(judge, ls);
      LinesAreCounted(judge, before);
      LineIsCounted(judge, k, l);
      OneMoreIsCounted(judge, k, HearLine(judge, k, l), before, l);
      assert before + [l] == ls;
    }
  }

  lemma NothingIsCounted(judge: Assessor)
    ensures Counted(judge, HearAll(judge, IGNORANT, []), [])
  {
  }

  lemma AliveFront(judge: Assessor, ls: seq<seq<Byte>>)
    requires Alive(judge, ls) && ls != []
    ensures var before := HearAll(judge, IGNORANT, ls[..|ls| - 1]);
            && Alive(judge, ls[..|ls| - 1]) && !before.raised
            && HearAll(judge, IGNORANT, ls) == HearLine(judge, before, ls[|ls| - 1])
  {
    hide HearLine, Crashes;
    RaisedMeans(judge, ls[..|ls| - 1]);
  }

  /** Each rejected line is rejected for exactly one reason. */
  lemma {:induction false} ReasonsAddUp(judge: Assessor, ls: seq<seq<Byte>>)
    ensures Acceptances(judge, ls) + Rejections(judge, ls) == |ls|
    ensures Rejections(judge, ls)
            == RejectionsFor(judge, ls, Oversized) + RejectionsFor(judge, ls, TooNested)
               + RejectionsFor(judge, ls, DuplicateKeys) + RejectionsFor(judge, ls, InvalidJson)
               + RejectionsFor(judge, ls, WrongType) + RejectionsFor(judge, ls, UnknownEvent)
  {
    if ls != [] {
      ReasonsAddUp(judge, ls[..|ls| - 1]);
      hide Verdict;
      var v := Verdict(judge, ls[|ls| - 1]);
      if v.Some? {
        match v.value
        case Oversized =>
        case TooNested =>
        case DuplicateKeys =>
        case InvalidJson =>
        case WrongType =>
        case UnknownEvent =>
      }
    }
  }

  function NonNewlines(s: seq<Byte>): nat {
    if s == [] then 0 else NonNewlines(s[..|s| - 1]) + (if s[|s| - 1] == 10 then 0 else 1)
  }

  lemma {:induction false} NonNewlinesConcat(a: seq<Byte>, b: seq<Byte>)
    ensures NonNewlines(a + b) == NonNewlines(a) + NonNewlines(b)
  {
    if b == [] {
      assert a + b == a;
    } else {
      assert (a + b)[..|a + b| - 1] == a + b[..|b| - 1];
      NonNewlinesConcat(a, b[..|b| - 1]);
    }
  }

  lemma {:induction false} NonNewlinesOfLine(l: seq<Byte>)
    requires IsLine(l)
    ensures NonNewlines(l) == |l|
  {
    if l != [] {
      assert l[|l| - 1] in l;
      NonNewlinesOfLine(l[..|l| - 1]);
    }
  }

  lemma {:induction false} NonNewlinesOfLines(ls: seq<seq<Byte>>)
    requires AreLines(ls)
    ensures NonNewlines(Unlines(ls)) == Delivered(ls) + Dropped(ls)
  {
    if ls != [] {
      var l := ls[|ls| - 1];
      assert l in ls;
      NonNewlinesOfLines(ls[..|ls| - 1]);
      NonNewlinesConcat(Unlines(ls[..|ls| - 1]), l + [NEWLINE]);
      NonNewlinesConcat(l, [NEWLINE]);
      NonNewlinesOfLine(l);
    }
  }

  // ----- the accounts of a whole stream -----

  /** The lines the counters speak of: those heard, and an unterminated one that is too long already. */
  function Sentenced(judge: Assessor, ls: seq<seq<Byte>>, rest: seq<Byte>): seq<seq<Byte>> {
    Heard(judge, ls) + if Stopped(judge, ls) || |rest| <= CARRY then [] else [rest]
  }

  /** The line that is open when the stream ends: the record at which the parser raised, or the rest. */
  function Open(judge: Assessor, ls: seq<seq<Byte>>, rest: seq<Byte>): seq<Byte> {
    var heard := Heard(judge, ls);
    if Stopped(judge, ls) then heard[|heard| - 1] else rest
  }

  /** The bytes the parser takes in: all of them, unless it raises. */
  function Taken(judge: Assessor, ls: seq<seq<Byte>>, rest: seq<Byte>): seq<Byte> {
    Unlines(Heard(judge, ls)) + if Stopped(judge, ls) then [] else rest
  }

  /** What is known at the end is what the sentenced lines told, but for the high-water mark. */
  lemma OutcomeKnows(judge: Assessor, ls: seq<seq<Byte>>, rest: seq<Byte>)
    ensures var k, s := HearAll(judge, IGNORANT, Sentenced(judge, ls, rest)), Outcome(judge, ls, rest);
            && s.knows == (if Stopped(judge, ls) || rest == [] || |rest| > CARRY then k else SeeCarry(k, |rest|))
            && s.carry == (if |Open(judge, ls, rest)| <= CARRY then Open(judge, ls, rest) else [])
            && s.discarding == (|Open(judge, ls, rest)| > CARRY)
            && s.discarded == (if s.discarding then Min(MAX_COUNT, |Open(judge, ls, rest)|) else 0)
    ensures Alive(judge, Sentenced(judge, ls, rest))
  {
    hide SeeCarry, TooLong;
    var heard, all := Heard(judge, ls), Sentenced(judge, ls, rest);
    RaisedMeans(judge, heard);
    if Stopped(judge, ls) || |rest| <= CARRY {
      assert all == heard;
    } else {
      assert all[..|all| - 1] == heard;
      assert forall i :: 0 <= i < |heard| ==> all[i] == heard[i];
    }
  }

  lemma OutcomeIsCounted(judge: Assessor, ls: seq<seq<Byte>>, rest: seq<Byte>)
    ensures Counted(judge, Outcome(judge, ls, rest).knows, Sentenced(judge, ls, rest))
  {
    hide Outcome, Sentenced, HearAll;
    var all := Sentenced(judge, ls, rest);
    OutcomeKnows(judge, ls, rest);
    LinesAreCounted(judge, all);
    SeeingKeepsCounts(judge, HearAll(judge, IGNORANT, all), |rest|, all);
  }

  lemma SeeingKeepsCounts(judge: Assessor, k: Knowledge, n: nat, ls: seq<seq<Byte>>)
    requires Counted(judge, k, ls)
    ensures Counted(judge, SeeCarry(k, n), ls)
  {
    assert forall c :: c != CarryHighWater ==> SeeCarry(k, n).counts.At(c) == k.counts.At(c);
  }

  lemma FinishIsCounted(s: ParserState)
    requires s.knows.counts.At(IncompleteRecords) == s.knows.counts.At(UnfinishedRecordBytes) == 0
    ensures var c, open := Finish(s).knows.counts, s.carry != [] || s.discarding;
            && c.At(IncompleteRecords) == (if open then 1 else 0)
            && c.At(PartialBytes) == (if open then Min(MAX_COUNT, s.knows.counts.At(PartialBytes) + |s.carry|)
                                      else s.knows.counts.At(PartialBytes))
            && c.At(UnfinishedRecordBytes) == (if open then Min(MAX_COUNT, |s.carry| + s.discarded) else 0)
            && c.At(OversizedRecordBytes) == s.knows.counts.At(OversizedRecordBytes)
            && c.At(Accepted) == s.knows.counts.At(Accepted)
  {
  }

  lemma DroppedSnoc(ls: seq<seq<Byte>>, l: seq<Byte>)
    ensures Dropped(ls + [l]) == Dropped(ls) + if |l| > CARRY then |l| else 0
    ensures Delivered(ls + [l]) == Delivered(ls) + if |l| > CARRY then 0 else |l|
  {
    assert (ls + [l])[..|ls|] == ls;
  }

  /** Where the bytes taken in are: delivered in a record, dropped with a line that is too long, or
      in an open line that is not a record yet. */
  lemma TakenBytes(judge: Assessor, ls: seq<seq<Byte>>, rest: seq<Byte>)
    requires AreLines(ls) && IsLine(rest)
    ensures var all := Sentenced(judge, ls, rest);
            NonNewlines(Taken(judge, ls, rest))
            == Delivered(all) + Dropped(all) + if Stopped(judge, ls) || |rest| > CARRY then 0 else |rest|
  {
    hide Delivered, Dropped, NonNewlines, Unlines, Heard, Stopped;
    var heard := Heard(judge, ls);
    forall l | l in heard ensures IsLine(l) { HeardAreLines(judge, ls, l); }
    NonNewlinesOfLines(heard);
    NonNewlinesOfLine(rest);
    NonNewlinesConcat(Unlines(heard), rest);
    DroppedSnoc(heard, rest);
    assert Unlines(heard) + [] == Unlines(heard) && heard + [] == heard;
  }

  lemma HeardAreLines(judge: Assessor, ls: seq<seq<Byte>>, l: seq<Byte>)
    requires AreLines(ls) && l in Heard(judge, ls)
    ensures IsLine(l)
  {
    var i :| 0 <= i < |Heard(judge, ls)| && Heard(judge, ls)[i] == l;
    assert ls[i] == l;
  }

  /** The accounts of any stream, now and after it has ended. Each counter is exact up to its cap. */
  lemma BytesAreAccounted(judge: Assessor, ls: seq<seq<Byte>>, rest: seq<Byte>)
    requires AreLines(ls) && IsLine(rest)
    ensures var s, lost := Feeding(judge, INITIAL, Unlines(ls) + rest), Dropped(Sentenced(judge, ls, rest));
            var open, end := Open(judge, ls, rest), Finish(s).knows.counts;
            && s.carry == (if |open| <= CARRY then open else [])
            && s.knows.counts.At(OversizedRecordBytes) == end.At(OversizedRecordBytes) == Min(MAX_COUNT, lost)
            && end.At(PartialBytes) == Min(MAX_COUNT, lost + |s.carry|)
            && end.At(UnfinishedRecordBytes) == Min(MAX_COUNT, |open|)
            && end.At(IncompleteRecords) == (if open == [] then 0 else 1)
            && end.At(Accepted) == Min(MAX_COUNT, Acceptances(judge, Heard(judge, ls)))
  {
    hide Feeding, Outcome, Finish, Open, Dropped, Acceptances, Heard, Sentenced, Stopped, AreLines, IsLine, HearAll, Rejections;
    FramingRefinesSplitting(judge, ls, rest);
    OutcomeKnows(judge, ls, rest);
    OutcomeIsCounted(judge, ls, rest);
    FinishIsCounted(Outcome(judge, ls, rest));
    AcceptancesAreHeard(judge, ls, rest);
  }

  lemma AcceptancesAreHeard(judge: Assessor, ls: seq<seq<Byte>>, rest: seq<Byte>)
    ensures Acceptances(judge, Sentenced(judge, ls, rest)) == Acceptances(judge, Heard(judge, ls))
  {
    hide Heard, Stopped;
    var heard := Heard(judge, ls);
    assert (heard + [rest])[..|heard|] == heard && heard + [] == heard;
  }

  /** Byte conservation. The bytes taken in, newlines aside, are those delivered in records, those
      in the carry and those dropped, each once, exactly if the parser has not raised at a record with
      bytes in it: such a record is delivered and stays in the carry. */
  lemma BytesAreConserved(judge: Assessor, ls: seq<seq<Byte>>, rest: seq<Byte>)
    requires AreLines(ls) && IsLine(rest)
    ensures var s, all := Feeding(judge, INITIAL, Unlines(ls) + rest), Sentenced(judge, ls, rest);
            NonNewlines(Taken(judge, ls, rest)) == Delivered(all) + |s.carry| + Dropped(all)
            <==> !(Stopped(judge, ls) && Open(judge, ls, rest) != [])
    ensures Feeding(judge, INITIAL, Unlines(ls) + rest).knows.counts.At(OversizedRecordBytes)
         == Min(MAX_COUNT, Dropped(Sentenced(judge, ls, rest)))
    ensures !Stopped(judge, ls) <==> forall i :: 0 <= i < |ls| ==> !Crashes(judge, ls[i])
    ensures !Stopped(judge, ls) ==> Taken(judge, ls, rest) == Unlines(ls) + rest
  {
    hide Feeding, Outcome, Dropped, Delivered, NonNewlines, Unlines, Sentenced, Heard;
    FramingRefinesSplitting(judge, ls, rest);
    OutcomeKnows(judge, ls, rest);
    TakenBytes(judge, ls, rest);
    OutcomeIsCounted(judge, ls, rest);
    HeardStops(judge, ls);
    StoppedRecordFits(judge, ls);
    AllAreHeard(judge, ls);
  }

  lemma StoppedRecordFits(judge: Assessor, ls: seq<seq<Byte>>)
    ensures Stopped(judge, ls) ==> |Open(judge, ls, [])| <= CARRY
  {
  }

  /** The record at which the parser raises is counted twice: as accepted, and when the stream ends
      as unfinished with all its bytes. */
  lemma RaisingCountsTwice(judge: Assessor, ls: seq<seq<Byte>>, l: seq<Byte>, rest: seq<Byte>)
    requires AreLines(ls) && IsLine(l) && IsLine(rest)
    requires (forall i :: 0 <= i < |ls| ==> !Crashes(judge, ls[i])) && Crashes(judge, l) && l != []
    ensures var s := Feeding(judge, INITIAL, Unlines(ls + [l]) + rest);
            var end := Finish(s).knows.counts;
            && s.carry == l
            && end.At(Accepted) == Min(MAX_COUNT, Acceptances(judge, ls) + 1)
            && end.At(IncompleteRecords) == 1
            && end.At(UnfinishedRecordBytes) == |l|
            && end.At(PartialBytes) == Min(MAX_COUNT, Dropped(ls) + |l|)
  {
    hide Feeding, Finish, Heard, Stopped, Open, Sentenced, Unlines, Dropped, Acceptances, Crashes, IsLine, AreLines;
    RaisingIsHeard(judge, ls, l, rest);
    AreLinesSnoc(ls, l);
    BytesAreAccounted(judge, ls + [l], rest);
    DroppedSnoc(ls, l);
    StoppedRecordFits(judge, ls + [l]);
    AcceptedSnoc(judge, ls, l);
  }

  lemma RaisingIsHeard(judge: Assessor, ls: seq<seq<Byte>>, l: seq<Byte>, rest: seq<Byte>)
    requires (forall i :: 0 <= i < |ls| ==> !Crashes(judge, ls[i])) && Crashes(judge, l)
    ensures var all := ls + [l];
            && Heard(judge, all) == all && Stopped(judge, all) && Sentenced(judge, all, rest) == all
            && Open(judge, all, rest) == l && |l| <= CARRY
  {
    var all := ls + [l];
    HeardStops(judge, ls);
    AllAreHeard(judge, ls);
    assert all[..|all| - 1] == ls;
  }

  lemma AreLinesSnoc(ls: seq<seq<Byte>>, l: seq<Byte>)
    requires AreLines(ls) && IsLine(l)
    ensures AreLines(ls + [l])
  {
  }

  lemma AcceptedSnoc(judge: Assessor, ls: seq<seq<Byte>>, l: seq<Byte>)
    requires Crashes(judge, l)
    ensures Acceptances(judge, ls + [l]) == Acceptances(judge, ls) + 1
  {
    assert (ls + [l])[..|ls|] == ls;
  }

  /** The rejections and their reasons, over any stream and even if a record makes the parser raise. */
  lemma RejectionsAreAccounted(judge: Assessor, ls: seq<seq<Byte>>, rest: seq<Byte>)
    requires AreLines(ls) && IsLine(rest)
    ensures var k, all := Feeding(judge, INITIAL, Unlines(ls) + rest).knows, Sentenced(judge, ls, rest);
            && k.counts.At(Rejected) == Min(MAX_COUNT, Rejections(judge, all))
            && k.counts.At(Accepted) == Min(MAX_COUNT, Acceptances(judge, all))
            && Acceptances(judge, all) + Rejections(judge, all) == |all|
            && (forall r :: k.reasons.At(r) == Min(MAX_COUNT, RejectionsFor(judge, all, r)))
            && (k.counts.At(Rejected) < MAX_COUNT ==>
                  k.counts.At(Rejected)
                  == k.reasons.At(Oversized) + k.reasons.At(TooNested) + k.reasons.At(DuplicateKeys)
                     + k.reasons.At(InvalidJson) + k.reasons.At(WrongType) + k.reasons.At(UnknownEvent))
  {
    hide Feeding, Outcome, Sentenced, Rejections, RejectionsFor, Acceptances;
    FramingRefinesSplitting(judge, ls, rest);
    OutcomeIsCounted(judge, ls, rest);
    ReasonsAddUp(judge, Sentenced(judge, ls, rest));
  }

  /** Which lines are too long, and why others are rejected. */
  lemma VerdictOfLine(judge: Assessor, l: seq<Byte>)
    ensures |l| > 16384 ==> Verdict(judge, l) == Some(Oversized)
    ensures |l| <= 16384 ==> Verdict(judge, l) == if judge(l).Ok? then None else Some(judge(l).error)
  {
  }

  // ----- the high-water mark -----

  /** The longest of some lines, as far as the carry reaches. */
  function Longest(ls: seq<seq<Byte>>): nat {
    if ls == [] then 0 else Max(Longest(ls[..|ls| - 1]), Min(|ls[|ls| - 1]|, 16384))
  }

  lemma HeedKeepsHighWater(k: Knowledge, verdict: Result<GoodEvent, Reason>)
    ensures Heed(k, verdict).counts.At(CarryHighWater) == k.counts.At(CarryHighWater)
  {
    hide Report, Advance;
    if verdict.Ok? {
      var e := verdict.value;
      var begun := k.(counts := k.counts.Add(IgnoredUnknownFields, e.unknownFields).Add(Accepted, 1));
      if IsTransition(e) {
        AdvanceKeepsHighWater(begun, MarkOf(e));
      } else if e.kind != Start {
        ReportKeepsHighWater(begun, e);
      }
    }
  }

  lemma AdvanceKeepsHighWater(k: Knowledge, m: Mark)
    ensures Advance(k, m).counts.At(CarryHighWater) == k.counts.At(CarryHighWater)
  {
    hide Place, Duplicate, SlotConflict, LaterStarted;
  }

  lemma ReportKeepsHighWater(k: Knowledge, e: Event)
    ensures Report(k, e).counts == k.counts
  {
  }

  lemma LineRaisesHighWater(judge: Assessor, k: Knowledge, l: seq<Byte>)
    requires !k.raised
    ensures HearLine(judge, k, l).counts.At(CarryHighWater) == Max(k.counts.At(CarryHighWater), Min(|l|, 16384))
  {
    hide Heed;
    HeedKeepsHighWater(k, judge(l));
    HeedKeepsHighWater(SeeCarry(k, Min(|l|, CARRY)), judge(l));
  }

  lemma {:induction false} LinesRaiseHighWater(judge: Assessor, ls: seq<seq<Byte>>)
    requires Alive(judge, ls)
    ensures HearAll(judge, IGNORANT, ls).counts.At(CarryHighWater) == Longest(ls)
  {
    if ls != [] {
      hide HearLine, Alive;
      AliveFront(judge, ls);
      LinesRaiseHighWater(judge, ls[..|ls| - 1]);
      LineRaisesHighWater(judge, HearAll(judge, IGNORANT, ls[..|ls| - 1]), ls[|ls| - 1]);
    }
  }

  /** The high-water mark of the carry is the length of the longest line heard or begun, or the carry's
      bound if that is less. */
  lemma HighWaterIsLongest(judge: Assessor, ls: seq<seq<Byte>>, rest: seq<Byte>)
    requires AreLines(ls) && IsLine(rest)
    ensures Feeding(judge, INITIAL, Unlines(ls) + rest).knows.counts.At(CarryHighWater)
         == Longest(Heard(judge, ls) + if Stopped(judge, ls) then [] else [rest])
  {
    hide Feeding, Outcome, HearAll, Heard, Stopped;
    FramingRefinesSplitting(judge, ls, rest);
    OutcomeKnows(judge, ls, rest);
    LinesRaiseHighWater(judge, Sentenced(judge, ls, rest));
    var heard := Heard(judge, ls);
    assert (heard + [rest])[..|heard|] == heard && heard + [] == heard;
  }

  // ----- the chronology of a captured stream -----

  predicate HoldsMark(judge: Assessor, l: seq<Byte>) {
    |l| <= CARRY && judge(l).Ok? && IsTransition(judge(l).value)
  }

  /** The phase transitions among the records. */
  function Marks(judge: Assessor, ls: seq<seq<Byte>>): seq<Mark> {
    if ls == [] then []
    else
      var before, l := Marks(judge, ls[..|ls| - 1]), ls[|ls| - 1];
      if HoldsMark(judge, l) then before + [MarkOf(judge(l).value)] else before
  }

  /** The chronology of `after` is that of `k` with at most one more transition. */
  predicate Chronicled(k: Knowledge, after: Knowledge, m: Option<Mark>) {
    var repeat := m.Some? && Duplicate(k.slots, m.value);
    var first := m.Some? && !repeat;
    && after.slots == (if first then Place(k.slots, m.value) else k.slots)
    && after.counts.At(Duplicates) == Bump(k.counts.At(Duplicates), if repeat then 1 else 0)
    && after.counts.At(ChronologyConflicts)
       == Bump(k.counts.At(ChronologyConflicts), if first then Conflicts(k.slots, m.value) else 0)
  }

  lemma ChronicledAdvance(k: Knowledge, m: Mark)
    ensures Chronicled(k, Advance(k, m), Some(m))
  {
  }

  lemma ChronicledAccept(k: Knowledge, e: Event)
    requires WellFormed(e)
    ensures Chronicled(k, Accept(k, e), if IsTransition(e) then Some(MarkOf(e)) else None)
  {
    var begun := k.(counts := k.counts.Add(IgnoredUnknownFields, e.unknownFields).Add(Accepted, 1));
    assert forall c :: c != IgnoredUnknownFields && c != Accepted ==> begun.counts.At(c) == k.counts.At(c);
    if IsTransition(e) {
      ChronicledAdvance(begun, MarkOf(e));
    }
  }

  lemma ChronicledSeeCarry(k: Knowledge, n: nat, after: Knowledge, m: Option<Mark>)
    requires Chronicled(SeeCarry(k, n), after, m)
    ensures Chronicled(k, after, m)
  {
    assert forall c :: c != CarryHighWater ==> SeeCarry(k, n).counts.At(c) == k.counts.At(c);
  }

  lemma ChronicledReject(k: Knowledge, reason: Reason, n: nat)
    ensures Chronicled(k, Reject(k, reason), None)
    ensures Chronicled(k, TooLong(k, n), None)
  {
  }

  function MarkIn(judge: Assessor, l: seq<Byte>): Option<Mark> {
    if HoldsMark(judge, l) then Some(MarkOf(judge(l).value)) else None
  }

  lemma ChronicledHeed(k: Knowledge, verdict: Result<GoodEvent, Reason>)
    ensures Chronicled(k, Heed(k, verdict),
                       if verdict.Ok? && IsTransition(verdict.value) then Some(MarkOf(verdict.value)) else None)
  {
    if verdict.Ok? {
      ChronicledAccept(k, verdict.value);
    } else {
      ChronicledReject(k, verdict.error, 0);
    }
  }

  lemma LineIsChronicled(judge: Assessor, k: Knowledge, l: seq<Byte>)
    requires !k.raised
    ensures Chronicled(k, HearLine(judge, k, l), MarkIn(judge, l))
  {
    var seen := SeeCarry(k, Min(|l|, CARRY));
    if |l| > CARRY {
      ChronicledReject(seen, Oversized, |l|);
      ChronicledSeeCarry(k, CARRY, HearLine(judge, k, l), None);
    } else if l == [] {
      ChronicledHeed(k, judge(l));
    } else {
      ChronicledHeed(seen, judge(l));
      ChronicledSeeCarry(k, |l|, HearLine(judge, k, l), MarkIn(judge, l));
    }
  }

  /** Slots and counters say what the transitions amount to. */
  predicate TellsMarks(k: Knowledge, marks: seq<Mark>) {
    var c := Told(marks);
    && k.slots == c.slots
    && k.counts.At(ChronologyConflicts) == Min(MAX_COUNT, c.conflicts)
    && k.counts.At(Duplicates) == Min(MAX_COUNT, c.duplicates)
  }

  lemma {:induction false} LinesTellMarks(judge: Assessor, ls: seq<seq<Byte>>)
    requires Alive(judge, ls)
    ensures TellsMarks(HearAll(judge, IGNORANT, ls), Marks(judge, ls))
  {
    if ls == [] {
      NothingTells(judge);
    } else {
      hide TellsMarks, HearLine, HearAll, Alive, Chronicled, HoldsMark;
      var before, l := ls[..|ls| - 1], ls[|ls| - 1];
      AliveFront(judge, ls);
      LinesTellMarks(judge, before);
      LineIsChronicled(judge, HearAll(judge, IGNORANT, before), l);
      OneMoreTells(HearAll(judge, IGNORANT, before), HearAll(judge, IGNORANT, ls), Marks(judge, before), MarkIn(judge, l));
    }
  }

  lemma NothingTells(judge: Assessor)
    ensures TellsMarks(HearAll(judge, IGNORANT, []), Marks(judge, []))
  {
  }

  lemma OneMoreTells(k: Knowledge, after: Knowledge, marks: seq<Mark>, m: Option<Mark>)
    requires TellsMarks(k, marks) && Chronicled(k, after, m)
    ensures TellsMarks(after, if m.Some? then marks + [m.value] else marks)
  {
    if m.Some? {
      TellsOneMore(marks, m.value);
    }
    hide Told, Place, Conflicts, Duplicate;
  }

  lemma TellsOneMore(before: seq<Mark>, m: Mark)
    ensures var c := Told(before);
            Told(before + [m]) == if Duplicate(c.slots, m) then c.(duplicates := c.duplicates + 1)
                                  else Chronicle(Place(c.slots, m), c.conflicts + Conflicts(c.slots, m), c.duplicates)
  {
    assert (before + [m])[..|before|] == before;
  }

  lemma SeeingKeepsChronology(k: Knowledge, n: nat)
    ensures var seen := SeeCarry(k, n);
            && seen.slots == k.slots && seen.counts.At(ChronologyConflicts) == k.counts.At(ChronologyConflicts)
            && seen.counts.At(Duplicates) == k.counts.At(Duplicates)
  {
  }

  lemma TooLongMarksNothing(judge: Assessor, ls: seq<seq<Byte>>, rest: seq<Byte>)
    ensures Marks(judge, Sentenced(judge, ls, rest)) == Marks(judge, Heard(judge, ls))
  {
    hide Heard, Stopped;
    var heard := Heard(judge, ls);
    assert (heard + [rest])[..|heard|] == heard && heard + [] == heard;
  }

  /** A captured stream reports no chronology conflict exactly when its phase transitions, repeats
      aside, came in phase order with each completion after its start and no earlier in time; and its
      slots hold the first report of each transition. */
  lemma CapturedChronologyIsExact(judge: Assessor, ls: seq<seq<Byte>>, rest: seq<Byte>)
    requires AreLines(ls) && IsLine(rest)
    ensures var k, marks := Feeding(judge, INITIAL, Unlines(ls) + rest).knows, Marks(judge, Heard(judge, ls));
            && (k.counts.At(ChronologyConflicts) == 0 <==> Orderly(Fresh(marks)))
            && k.counts.At(ChronologyConflicts) == Min(MAX_COUNT, AllFaults(Fresh(marks)))
            && k.counts.At(Duplicates) == Min(MAX_COUNT, |marks| - |Fresh(marks)|)
            && forall p: Phase :: Tells(k.slots[p], p, Fresh(marks))
  {
    hide Feeding, Outcome, Sentenced, Told, Orderly, Fresh, Tells, HearAll, AllFaults;
    var all := Sentenced(judge, ls, rest);
    FramingRefinesSplitting(judge, ls, rest);
    OutcomeKnows(judge, ls, rest);
    SeeingKeepsChronology(HearAll(judge, IGNORANT, all), |rest|);
    TooLongMarksNothing(judge, ls, rest);
    LinesTellMarks(judge, all);
    ChronologyIsExact(Marks(judge, all));
    CountersTell(Marks(judge, all));
    SlotsTell(Marks(judge, all));
  }
}
