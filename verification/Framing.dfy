/** The capture parser: byte-at-a-time framing of progress records with a bounded carry, and what
    each record does to the parser. The partner specification splits the whole stream into lines. */
module Framing {
  import opened Core
  import opened Counters
  import opened Utf8
  import opened Events
  import opened Chronology

  const CARRY := 16384

  datatype Counter =
    | Accepted | Rejected | Duplicates | ChronologyConflicts | IgnoredUnknownFields
    | IncompleteRecords | PartialBytes | UnfinishedRecordBytes | OversizedRecordBytes | CarryHighWater

  const NO_COUNTS: map<Counter, nat> :=
    map[Accepted := 0, Rejected := 0, Duplicates := 0, ChronologyConflicts := 0, IgnoredUnknownFields := 0,
        IncompleteRecords := 0, PartialBytes := 0, UnfinishedRecordBytes := 0, OversizedRecordBytes := 0,
        CarryHighWater := 0]

  const NO_REASONS: map<Reason, nat> :=
    map[Oversized := 0, TooNested := 0, DuplicateKeys := 0, InvalidJson := 0, WrongType := 0, UnknownEvent := 0]

  datatype FieldKey = CurrentTest | Interruption | Detail

  datatype Retention = Retention(original: nat, retained: nat, truncated: bool)

  /** The latest progress report; the optional keys are absent, null or a bounded display. */
  datatype Progress = Progress(
    kind: Kind, elapsed: real, phase: Option<Phase>, last: Option<Phase>, current: Option<Text>,
    interruption: Option<Option<Text>>, detail: Option<Text>)

  /** Everything the parser knows about records, apart from the framing in front of them. */
  datatype Knowledge = Knowledge(
    counts: Tally<Counter>, reasons: Tally<Reason>, slots: Slots, latest: Option<Progress>,
    startObserved: bool, interval: Option<real>, fields: map<FieldKey, Retention>, raised: bool)

  datatype ParserState = ParserState(carry: seq<Byte>, discarding: bool, discarded: nat, knows: Knowledge)

  const IGNORANT := Knowledge(Tally(NO_COUNTS, false), Tally(NO_REASONS, false), EMPTY_SLOTS, None, false, None, map[], false)

  const INITIAL := ParserState([], false, 0, IGNORANT)

  // ----- what one record does -----

  function Reject(k: Knowledge, reason: Reason): Knowledge {
    k.(counts := k.counts.Add(Rejected, 1), reasons := k.reasons.Add(reason, 1))
  }

  function MarkOf(e: Event): Mark
    requires IsTransition(e) && WellFormed(e)
  {
    if e.kind.PhaseStart? then Started(e.phase.value, e.elapsed)
    else Completed(e.phase.value, e.elapsed, e.took.value)
  }

  function AddIf(t: Tally<Counter>, condition: bool, key: Counter): Tally<Counter> {
    if condition then t.Add(key, 1) else t
  }

  function Advance(k: Knowledge, m: Mark): Knowledge {
    if Duplicate(k.slots, m) then k.(counts := k.counts.Add(Duplicates, 1))
    else
      var own := AddIf(k.counts, SlotConflict(k.slots[m.phase], m), ChronologyConflicts);
      k.(slots := Place(k.slots, m), counts := AddIf(own, LaterStarted(k.slots, m.phase), ChronologyConflicts))
  }

  function Retained(value: Text, limit: nat): Retention {
    var kept := Bounded(value, limit);
    Retention(|Encode(value)|, |Encode(kept)|, kept != value)
  }

  function Display(value: Option<Text>, limit: nat): Option<Text> {
    if value.None? then None else Some(Bounded(value.value, limit))
  }

  function Retain(fields: map<FieldKey, Retention>, key: FieldKey, value: Option<Text>, limit: nat): map<FieldKey, Retention> {
    if value.None? then fields else fields[key := Retained(value.value, limit)]
  }

  function Report(k: Knowledge, e: Event): Knowledge {
    var fields := Retain(map[], CurrentTest, e.current, 1024);
    var latest := Progress(e.kind, e.elapsed, e.phase, e.last, Display(e.current, 1024), None, None);
    if Raises(e) then k.(fields := fields, latest := Some(latest), raised := true)
    else
      var note := if e.interruption.Some? && e.interruption.value.JText? then Some(e.interruption.value.text) else None;
      var shown := if e.interruption.None? then None else Some(Display(note, 256));
      k.(fields := Retain(Retain(fields, Interruption, note, 256), Detail, e.detail, 256),
         latest := Some(latest.(interruption := shown, detail := Display(e.detail, 256))))
  }

  function Accept(k: Knowledge, e: Event): Knowledge
    requires WellFormed(e)
  {
    var k := k.(counts := k.counts.Add(IgnoredUnknownFields, e.unknownFields).Add(Accepted, 1));
    if e.kind.Start? then k.(startObserved := true, interval := e.interval)
    else if IsTransition(e) then Advance(k, MarkOf(e))
    else Report(k, e)
  }

  /** What the verdict on a record makes of it. */
  function Heed(k: Knowledge, verdict: Result<GoodEvent, Reason>): Knowledge
  {
    match verdict
    case Err(reason) => Reject(k, reason)
    case Ok(event) => Accept(k, event)
  }

  function Record(judge: Assessor, k: Knowledge, raw: seq<Byte>): Knowledge {
    Heed(k, judge(raw))
  }

  // ----- what one byte does -----

  function TooLong(k: Knowledge, n: nat): Knowledge {
    var k := Reject(k, Oversized);
    k.(counts := k.counts.Add(PartialBytes, n).Add(OversizedRecordBytes, n))
  }

  function SeeCarry(k: Knowledge, n: nat): Knowledge {
    k.(counts := k.counts.Set(CarryHighWater, Max(k.counts.At(CarryHighWater), n)))
  }

  /** One byte of the stream. A parser that has raised hears nothing more. */
  function Step(judge: Assessor, s: ParserState, b: Byte): ParserState {
    if s.knows.raised then s
    else if b == NEWLINE then
      if s.discarding then ParserState([], false, 0, s.knows)
      else
        var k := Record(judge, s.knows, s.carry);
        s.(knows := k, carry := if k.raised then s.carry else [])
    else if s.discarding then
      s.(knows := s.knows.(counts := s.knows.counts.Add(PartialBytes, 1).Add(OversizedRecordBytes, 1)),
         discarded := Min(MAX_COUNT, s.discarded + 1))
    else if |s.carry| == CARRY then
      ParserState([], true, CARRY + 1, TooLong(s.knows, CARRY + 1))
    else
      s.(carry := s.carry + [b], knows := SeeCarry(s.knows, |s.carry| + 1))
  }

  function Feeding(judge: Assessor, s: ParserState, bytes: seq<Byte>): ParserState {
    if bytes == [] then s
    else Step(judge, Feeding(judge, s, bytes[..|bytes| - 1]), bytes[|bytes| - 1])
  }

  function Finish(s: ParserState): ParserState {
    var counts := s.knows.counts;
    var ended := if s.carry != [] || s.discarding then
                   counts.Add(IncompleteRecords, 1).Add(PartialBytes, |s.carry|)
                         .Add(UnfinishedRecordBytes, |s.carry| + s.discarded)
                 else counts;
    s.(carry := [], knows := s.knows.(counts := ended))
  }

  /** The carry is bounded, holds no newline, and is empty while an oversized line is being dropped. */
  predicate Framed(s: ParserState) {
    |s.carry| <= CARRY && NEWLINE !in s.carry && (s.discarding ==> s.carry == []) && (!s.discarding ==> s.discarded == 0)
  }

  lemma StepStaysFramed(judge: Assessor, s: ParserState, b: Byte)
    requires Framed(s)
    ensures Framed(Step(judge, s, b))
  {
  }

  lemma {:induction false} StaysFramed(judge: Assessor, s: ParserState, bytes: seq<Byte>)
    requires Framed(s)
    ensures Framed(Feeding(judge, s, bytes))
  {
    if bytes != [] {
      StaysFramed(judge, s, bytes[..|bytes| - 1]);
    }
  }

  // ----- the parser itself -----

  class Parser {
    const loads: Loader
    var carry: seq<Byte>
    var discarding: bool
    var discardedRecordBytes: nat
    const counts: Counts<Counter>
    const reasons: Counts<Reason>
    var phases: Slots
    var latest: Option<Progress>
    var startObserved: bool
    var heartbeatInterval: Option<real>
    var fields: map<FieldKey, Retention>
    /** An exception has left `record`; the reader thread that feeds the parser ends with it. */
    var raised: bool

    ghost predicate Valid()
      reads this, counts, reasons
    {
      Framed(View())
    }

    function Knows(): Knowledge
      reads this, counts, reasons
    {
      Knowledge(counts.View(), reasons.View(), phases, latest, startObserved, heartbeatInterval, fields, raised)
    }

    function View(): ParserState
      reads this, counts, reasons
    {
      ParserState(carry, discarding, discardedRecordBytes, Knows())
    }

    constructor (loads: Loader)
      ensures Valid() && fresh(counts) && fresh(reasons)
      ensures View() == INITIAL && this.loads == loads
    {
      this.loads := loads;
      carry, discarding, discardedRecordBytes := [], false, 0;
      counts := new Counts(NO_COUNTS);
      reasons := new Counts(NO_REASONS);
      phases, latest, startObserved, heartbeatInterval := EMPTY_SLOTS, None, false, None;
      fields, raised := map[], false;
    }

    method RejectRecord(reason: Reason)
      modifies counts, reasons
      ensures View() == old(View().(knows := Reject(Knows(), reason)))
    {
      counts.Add(Rejected);
      reasons.Add(reason);
    }

    method Field(key: FieldKey, value: Option<Text>, limit: nat) returns (kept: Option<Text>)
      modifies this`fields
      ensures kept == Display(value, limit)
      ensures fields == Retain(old(fields), key, value, limit)
    {
      if value.None? {
        return None;
      }
      var shown := Bounded(value.value, limit);
      fields := fields[key := Retention(|Encode(value.value)|, |Encode(shown)|, shown != value.value)];
      return Some(shown);
    }

    method AcceptTransition(m: Mark)
      modifies this`phases, counts
      ensures View() == old(View().(knows := Advance(Knows(), m)))
    {
      if Duplicate(phases, m) {
        counts.Add(Duplicates);
        return;
      }
      var before := phases;
      phases := Place(phases, m);
      if SlotConflict(before[m.phase], m) {
        counts.Add(ChronologyConflicts);
      }
      var later := false;
      for j := m.phase + 1 to PHASE_COUNT
        invariant later <==> exists k: Phase :: m.phase < k < j && phases[k].start.Some?
      {
        later := later || phases[j].start.Some?;
      }
      assert later <==> LaterStarted(before, m.phase) by {
        assert forall k: Phase :: m.phase < k ==> phases[k] == before[k];
      }
      if later {
        counts.Add(ChronologyConflicts);
      }
    }

    method AcceptReport(e: Event)
      requires !raised
      modifies this`fields, this`latest, this`raised
      ensures View() == old(View().(knows := Report(Knows(), e)))
    {
      fields := map[];
      var current := Field(CurrentTest, e.current, 1024);
      latest := Some(Progress(e.kind, e.elapsed, e.phase, e.last, current, None, None));
      if Raises(e) {
        raised := true;
        return;
      }
      if e.interruption.Some? {
        var note := Field(Interruption, if e.interruption.value.JText? then Some(e.interruption.value.text) else None, 256);
        latest := Some(latest.value.(interruption := Some(note)));
      }
      if e.detail.Some? {
        var detail := Field(Detail, e.detail, 256);
        latest := Some(latest.value.(detail := detail));
      }
    }

    method RecordLine(raw: seq<Byte>)
      requires !raised
      modifies this`phases, this`fields, this`latest, this`raised, this`startObserved, this`heartbeatInterval, counts, reasons
      ensures View() == old(View().(knows := Record(Assess(loads), Knows(), raw)))
    {
      var verdict := Judge(loads, raw);
      if verdict.Err? {
        RejectRecord(verdict.error);
        return;
      }
      var event := verdict.value;
      counts.Add(IgnoredUnknownFields, event.unknownFields);
      counts.Add(Accepted);
      if event.kind.Start? {
        startObserved := true;
        heartbeatInterval := event.interval;
      } else if IsTransition(event) {
        AcceptTransition(MarkOf(event));
      } else {
        AcceptReport(event);
      }
    }

    /** A newline hands the carry over, or ends the line that is being dropped. */
    method EndLine()
      requires Valid() && !raised
      modifies this, counts, reasons
      ensures View() == Step(Assess(loads), old(View()), NEWLINE)
    {
      if discarding {
        discarding := false;
        discardedRecordBytes := 0;
      } else {
        RecordLine(carry);
        if raised {
          return;
        }
      }
      carry := [];
    }

    /** The line has grown too long: it is rejected, and its rest will be dropped. */
    method OverflowLine()
      modifies this, counts, reasons
      ensures View() == ParserState([], true, |old(carry)| + 1, TooLong(old(Knows()), |old(carry)| + 1))
    {
      hide Bounded, Raises;
      RejectRecord(Oversized);
      counts.Add(PartialBytes, |carry| + 1);
      counts.Add(OversizedRecordBytes, |carry| + 1);
      discardedRecordBytes := |carry| + 1;
      carry := [];
      discarding := true;
    }

    /** Any other byte joins the carry, or is dropped with a line that is too long. */
    method ExtendLine(byte: Byte)
      requires Valid() && !raised && byte != NEWLINE
      modifies this, counts, reasons
      ensures View() == Step(Assess(loads), old(View()), byte)
    {
      if discarding {
        counts.Add(PartialBytes);
        counts.Add(OversizedRecordBytes);
        discardedRecordBytes := Min(MAX_COUNT, discardedRecordBytes + 1);
      } else if |carry| == CARRY {
        OverflowLine();
      } else {
        carry := carry + [byte];
        counts.Set(CarryHighWater, Max(counts.View().At(CarryHighWater), |carry|));
      }
    }

    /** The body of the feeding loop. */
    method FeedByte(byte: Byte)
      requires Valid() && !raised
      modifies this, counts, reasons
      ensures Valid()
      ensures View() == Step(Assess(loads), old(View()), byte)
    {
      StepStaysFramed(Assess(loads), View(), byte);
      hide Step, Framed;
      if byte == NEWLINE {
        EndLine();
      } else {
        ExtendLine(byte);
      }
    }

    /** Feeding is the byte-wise specification, so every way of cutting the stream agrees. An
        exception out of a record ends the loop. */
    method Feed(chunk: seq<Byte>)
      requires Valid() && !raised
      modifies this, counts, reasons
      ensures Valid()
      ensures View() == Feeding(Assess(loads), old(View()), chunk)
    {
      hide Step, Framed;
      for i := 0 to |chunk|
        invariant Valid() && !raised
        invariant View() == Feeding(Assess(loads), old(View()), chunk[..i])
      {
        assert chunk[..i + 1][..i] == chunk[..i];
        FeedByte(chunk[i]);
        if raised {
          RaisedHearsNothing(Assess(loads), View(), chunk[i + 1..]);
          ChunkingIsInvisible(Assess(loads), old(View()), chunk[..i + 1], chunk[i + 1..]);
          assert chunk == chunk[..i + 1] + chunk[i + 1..];
          return;
        }
      }
      assert chunk[..|chunk|] == chunk;
    }

    method FinishStream()
      requires Valid()
      modifies this, counts
      ensures View() == Finish(old(View()))
    {
      if carry != [] || discarding {
        counts.Add(IncompleteRecords);
        counts.Add(PartialBytes, |carry|);
        counts.Add(UnfinishedRecordBytes, |carry| + discardedRecordBytes);
      }
      carry := [];
    }
  }

  lemma RaisedHearsNothing(judge: Assessor, s: ParserState, bytes: seq<Byte>)
    requires s.knows.raised
    ensures Feeding(judge, s, bytes) == s
  {
  }

  /** Cutting the stream into chunks makes no difference. */
  lemma {:induction false} ChunkingIsInvisible(judge: Assessor, s: ParserState, a: seq<Byte>, b: seq<Byte>)
    ensures Feeding(judge, s, a + b) == Feeding(judge, Feeding(judge, s, a), b)
  {
    if b == [] {
      assert a + b == a;
    } else {
      assert (a + b)[..|a + b| - 1] == a + b[..|b| - 1];
      ChunkingIsInvisible(judge, s, a, b[..|b| - 1]);
    }
  }
}
