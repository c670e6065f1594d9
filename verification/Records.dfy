/** What one record does to the parser, in terms of the fields of the parsed object: which records are
    accepted, why the others are rejected, and what an accepted one leaves behind. */
module Records {
  import opened Core
  import opened Counters
  import opened Utf8
  import opened Events
  import opened Chronology
  import opened Framing
  import Nesting

  // ----- the vocabulary of records -----

  /** The record is an object with these fields, and not too deeply nested. */
  predicate Holds(loads: Loader, raw: seq<Byte>, fields: map<Text, Json>) {
    Nesting.Shallow(raw) && loads(raw) == Loaded(JObject(fields))
  }

  predicate Is(fields: map<Text, Json>, key: string, value: string) {
    Get(fields, key) == JText(Ascii(value))
  }

  predicate IsNumber(j: Json) {
    j.JNumber? && 0.0 <= j.value <= 1000000000000.0
  }

  /** The phases by name. */
  predicate Names(j: Json, phase: int) {
    || (phase == 0 && j == JText(Ascii("discovery")))
    || (phase == 1 && j == JText(Ascii("syntax")))
    || (phase == 2 && j == JText(Ascii("documentation")))
    || (phase == 3 && j == JText(Ascii("release_hygiene")))
    || (phase == 4 && j == JText(Ascii("test_suite")))
  }

  predicate NamesSome(j: Json) {
    Names(j, 0) || Names(j, 1) || Names(j, 2) || Names(j, 3) || Names(j, 4)
  }

  /** A phase is found exactly by its name. */
  lemma PhaseMeans(j: Json, p: Phase)
    ensures PhaseOf(j) == Some(p) <==> Names(j, p)
    ensures PhaseOf(j).Some? <==> NamesSome(j)
  {
    TextsDiffer("discovery", "syntax");
    TextsDiffer("discovery", "documentation");
    TextsDiffer("discovery", "release_hygiene");
    TextsDiffer("discovery", "test_suite");
    TextsDiffer("syntax", "documentation");
    TextsDiffer("syntax", "release_hygiene");
    TextsDiffer("syntax", "test_suite");
    TextsDiffer("documentation", "release_hygiene");
    TextsDiffer("documentation", "test_suite");
    TextsDiffer("release_hygiene", "test_suite");
    hide Ascii;
    if j.JText? {
      var t := j.text;
      assert FindPhase(t, 5) == None;
      assert FindPhase(t, 4) == if t == Ascii("test_suite") then Some(4) else FindPhase(t, 5);
      assert FindPhase(t, 3) == if t == Ascii("release_hygiene") then Some(3) else FindPhase(t, 4);
      assert FindPhase(t, 2) == if t == Ascii("documentation") then Some(2) else FindPhase(t, 3);
      assert FindPhase(t, 1) == if t == Ascii("syntax") then Some(1) else FindPhase(t, 2);
      assert FindPhase(t, 0) == if t == Ascii("discovery") then Some(0) else FindPhase(t, 1);
    }
  }

  /** The kind an event name stands for. */
  predicate Stands(fields: map<Text, Json>, kind: Kind) {
    match kind
    case Start => Is(fields, "event", "self_test_start")
    case PhaseStart => Is(fields, "event", "self_test_phase_start")
    case PhaseComplete => Is(fields, "event", "self_test_phase_complete")
    case CaseStart => Is(fields, "event", "self_test_case_start")
    case Heartbeat => Is(fields, "event", "self_test_heartbeat")
    case Interrupted => Is(fields, "event", "self_test_interrupted")
  }

  function KindIn(fields: map<Text, Json>): Option<Kind> {
    var name := Get(fields, "event");
    if name.JText? then FindKind(name.text) else None
  }

  lemma KindMeans(fields: map<Text, Json>, kind: Kind)
    ensures KindIn(fields) == Some(kind) <==> Stands(fields, kind)
  {
    TextsDiffer("self_test_start", "self_test_phase_start");
    TextsDiffer("self_test_start", "self_test_phase_complete");
    TextsDiffer("self_test_start", "self_test_case_start");
    TextsDiffer("self_test_start", "self_test_heartbeat");
    TextsDiffer("self_test_start", "self_test_interrupted");
    TextsDiffer("self_test_phase_start", "self_test_phase_complete");
    TextsDiffer("self_test_phase_start", "self_test_case_start");
    TextsDiffer("self_test_phase_start", "self_test_heartbeat");
    StartIsNoInterruption();
    TextsDiffer("self_test_phase_complete", "self_test_case_start");
    TextsDiffer("self_test_phase_complete", "self_test_heartbeat");
    TextsDiffer("self_test_phase_complete", "self_test_interrupted");
    TextsDiffer("self_test_case_start", "self_test_heartbeat");
    TextsDiffer("self_test_case_start", "self_test_interrupted");
    TextsDiffer("self_test_heartbeat", "self_test_interrupted");
    hide Ascii;
    var name := Get(fields, "event");
    if name.JText? {
      var t := name.text;
      assert FindKind(t, 6) == None;
      assert FindKind(t, 5) == if t == Ascii("self_test_interrupted") then Some(Interrupted) else FindKind(t, 6);
      assert FindKind(t, 4) == if t == Ascii("self_test_heartbeat") then Some(Heartbeat) else FindKind(t, 5);
      assert FindKind(t, 3) == if t == Ascii("self_test_case_start") then Some(CaseStart) else FindKind(t, 4);
      assert FindKind(t, 2) == if t == Ascii("self_test_phase_complete") then Some(PhaseComplete) else FindKind(t, 3);
      assert FindKind(t, 1) == if t == Ascii("self_test_phase_start") then Some(PhaseStart) else FindKind(t, 2);
      assert FindKind(t, 0) == if t == Ascii("self_test_start") then Some(Start) else FindKind(t, 1);
    }
  }

  /** These two names have one length. */
  lemma StartIsNoInterruption()
    ensures Ascii("self_test_phase_start") != Ascii("self_test_interrupted")
  {
    assert Ascii("self_test_phase_start")[10] == "self_test_phase_start"[10] as int;
    assert Ascii("self_test_interrupted")[10] == "self_test_interrupted"[10] as int;
  }

  // ----- which records are accepted -----

  predicate Encodes(j: Json) {
    j.JText? ==> forall c :: c in j.text ==> !(0xD800 <= c < 0xE000)
  }

  /** A record of this kind has what it needs and nothing of the wrong type. */
  predicate Admitted(fields: map<Text, Json>, kind: Kind) {
    var phase, last, current := Get(fields, "phase"), Get(fields, "last_completed_phase"), Get(fields, "current_test");
    var interruption, detail := Get(fields, "interruption"), Get(fields, "detail");
    && Stands(fields, kind)
    && IsNumber(Get(fields, "elapsed_seconds"))
    && (if kind in {PhaseStart, PhaseComplete, CaseStart} then NamesSome(phase) else phase == JNull || NamesSome(phase))
    && (last == JNull || NamesSome(last))
    && (current.JText? || (current == JNull && kind != CaseStart))
    && (kind == PhaseComplete ==> IsNumber(Get(fields, "phase_elapsed_seconds")))
    && (kind == Start ==> IsNumber(Get(fields, "heartbeat_interval_seconds")))
    && (kind == Interrupted ==> interruption.JText?)
    && (Ascii("detail") in fields ==> detail.JText?)
    && Encodes(current) && Encodes(interruption) && Encodes(detail)
  }

  lemma AdmittedIsWellTyped(fields: map<Text, Json>, kind: Kind)
    requires Stands(fields, kind)
    ensures Admitted(fields, kind) <==> WellTyped(fields, kind)
  {
    PhaseMeans(Get(fields, "phase"), 0);
    PhaseMeans(Get(fields, "last_completed_phase"), 0);
    hide Ascii, PhaseOf, Names, NamesSome, Is;
  }

  /** Why a record that is an object is accepted or rejected. */
  lemma VerdictMeans(loads: Loader, raw: seq<Byte>, fields: map<Text, Json>)
    requires Holds(loads, raw, fields)
    ensures Judge(loads, raw) == Err(UnknownEvent) <==> forall kind :: !Stands(fields, kind)
    ensures Judge(loads, raw).Ok? <==> exists kind :: Admitted(fields, kind)
    ensures Judge(loads, raw).Err? && (exists kind :: Stands(fields, kind)) ==> Judge(loads, raw) == Err(WrongType)
  {
    VerdictIs(loads, raw, fields);
  }

  lemma VerdictIs(loads: Loader, raw: seq<Byte>, fields: map<Text, Json>)
    requires Holds(loads, raw, fields)
    ensures Judge(loads, raw) == Err(UnknownEvent) <==> forall kind :: !Stands(fields, kind)
    ensures Judge(loads, raw).Ok? <==> exists kind :: Admitted(fields, kind)
    ensures Judge(loads, raw).Err? && (exists kind :: Stands(fields, kind)) ==> Judge(loads, raw) == Err(WrongType)
    ensures forall kind :: Admitted(fields, kind) ==>
                             WellTyped(fields, kind) && Judge(loads, raw) == Ok(ToEvent(fields, kind))
  {
    hide Ascii, WellTyped, Admitted, Stands, FindKind;
    forall kind
      ensures KindIn(fields) == Some(kind) <==> Stands(fields, kind)
      ensures Stands(fields, kind) ==> (Admitted(fields, kind) <==> WellTyped(fields, kind))
      ensures Admitted(fields, kind) ==> Stands(fields, kind)
    {
      KindMeans(fields, kind);
      if Stands(fields, kind) {
        AdmittedIsWellTyped(fields, kind);
      }
      AdmittedStands(fields, kind);
    }
  }

  lemma AdmittedStands(fields: map<Text, Json>, kind: Kind)
    ensures Admitted(fields, kind) ==> Stands(fields, kind)
  {
  }

  /** The other records are rejected, each for the first thing that is wrong with it. */
  lemma OtherVerdicts(loads: Loader, raw: seq<Byte>)
    ensures !Nesting.Shallow(raw) ==> Judge(loads, raw) == Err(TooNested)
    ensures Nesting.Shallow(raw) && loads(raw).RepeatedKeys? ==> Judge(loads, raw) == Err(DuplicateKeys)
    ensures Nesting.Shallow(raw) && loads(raw).Malformed? ==> Judge(loads, raw) == Err(InvalidJson)
    ensures Nesting.Shallow(raw) && loads(raw).Loaded? && !loads(raw).value.JObject? ==> Judge(loads, raw) == Err(WrongType)
  {
  }

  // ----- what an accepted record leaves behind -----

  /** The keys a record may have. */
  predicate Known(key: Text) {
    || key == Ascii("event") || key == Ascii("elapsed_seconds") || key == Ascii("phase")
    || key == Ascii("last_completed_phase") || key == Ascii("current_test") || key == Ascii("phase_elapsed_seconds")
    || key == Ascii("heartbeat_interval_seconds") || key == Ascii("phases") || key == Ascii("interruption")
    || key == Ascii("detail")
  }

  lemma UnknownAreCounted(fields: map<Text, Json>)
    ensures UnknownFields(fields) == |set key | key in fields && !Known(key)|
  {
    assert ALLOWED == ["event", "elapsed_seconds", "phase", "last_completed_phase", "current_test",
                       "phase_elapsed_seconds", "heartbeat_interval_seconds", "phases", "interruption", "detail"];
    var allowed := set i | 0 <= i < |ALLOWED| :: Ascii(ALLOWED[i]);
    hide Ascii;
    forall key
      ensures key in allowed <==> Known(key)
    {
      if Known(key) {
        assert key == Ascii(ALLOWED[0]) || key == Ascii(ALLOWED[1]) || key == Ascii(ALLOWED[2]) || key == Ascii(ALLOWED[3])
            || key == Ascii(ALLOWED[4]) || key == Ascii(ALLOWED[5]) || key == Ascii(ALLOWED[6]) || key == Ascii(ALLOWED[7])
            || key == Ascii(ALLOWED[8]) || key == Ascii(ALLOWED[9]);
      }
    }
    assert fields.Keys - allowed == set key | key in fields && !Known(key);
  }

  /** The knowledge after a record. */
  function After(loads: Loader, k: Knowledge, raw: seq<Byte>): Knowledge {
    Record(Assess(loads), k, raw)
  }

  predicate Raised(counts: Tally<Counter>, before: Tally<Counter>, c: Counter, n: nat) {
    counts.At(c) == if n == 0 then before.At(c) else Min(MAX_COUNT, before.At(c) + n)
  }

  /** The phase a field names, if any. */
  predicate PhaseIs(phase: Option<Phase>, j: Json) {
    match phase case None => j == JNull case Some(p) => Names(j, p)
  }

  /** An accepted record is the event that its fields describe. */
  lemma AcceptedEvent(loads: Loader, k: Knowledge, raw: seq<Byte>, fields: map<Text, Json>, kind: Kind) returns (e: GoodEvent)
    requires Holds(loads, raw, fields) && Admitted(fields, kind)
    ensures After(loads, k, raw) == Accept(k, e) && e.kind == kind
    ensures e.elapsed == Get(fields, "elapsed_seconds").value
    ensures e.phase == PhaseOf(Get(fields, "phase")) && e.last == PhaseOf(Get(fields, "last_completed_phase"))
    ensures kind == PhaseComplete ==> e.took == Some(Get(fields, "phase_elapsed_seconds").value)
    ensures kind == Start ==> e.interval == Some(Get(fields, "heartbeat_interval_seconds").value)
    ensures e.unknownFields == UnknownFields(fields)
    ensures Carries(e.current, Get(fields, "current_test")) && Carries(e.detail, Get(fields, "detail"))
    ensures e.interruption == if Ascii("interruption") in fields then Some(Get(fields, "interruption")) else None
  {
    VerdictIs(loads, raw, fields);
    hide Ascii, Judge, UnknownFields, Stands, PhaseOf, FindPhase, NamesSome;
    e := ToEvent(fields, kind);
  }

  predicate Carries(text: Option<Text>, j: Json) {
    if j.JText? then text == Some(j.text) else text == None
  }

  /** The start record: it opens the run and touches nothing else. */
  lemma StartMeans(loads: Loader, k: Knowledge, raw: seq<Byte>, fields: map<Text, Json>)
    requires Holds(loads, raw, fields) && Admitted(fields, Start)
    ensures var after := After(loads, k, raw);
            && after.startObserved && after.interval == Some(Get(fields, "heartbeat_interval_seconds").value)
            && after.slots == k.slots && after.latest == k.latest && after.fields == k.fields && after.raised == k.raised
            && after.reasons == k.reasons
  {
    var e := AcceptedEvent(loads, k, raw, fields, Start);
    hide After, Ascii, Admitted;
  }

  /** The slot that a transition is about, and nothing else, takes its time, unless it has it already. */
  lemma PhaseStartMeans(loads: Loader, k: Knowledge, raw: seq<Byte>, fields: map<Text, Json>, i: Phase)
    requires Holds(loads, raw, fields) && Admitted(fields, PhaseStart) && Names(Get(fields, "phase"), i)
    ensures var after, elapsed := After(loads, k, raw), Get(fields, "elapsed_seconds").value;
            && (forall j: Phase :: j != i ==> after.slots[j] == k.slots[j])
            && after.slots[i].completion == k.slots[i].completion && after.slots[i].took == k.slots[i].took
            && after.slots[i].start == (if k.slots[i].start.None? then Some(elapsed) else k.slots[i].start)
            && after.latest == k.latest && after.startObserved == k.startObserved && after.raised == k.raised
            && Raised(after.counts, k.counts, Duplicates, if k.slots[i].start.Some? then 1 else 0)
  {
    var e := AcceptedEvent(loads, k, raw, fields, PhaseStart);
    PhaseMeans(Get(fields, "phase"), i);
    hide After, Ascii, Admitted, Names, PhaseOf, Holds, Get, Advance;
    AcceptAdvances(k, e);
  }

  /** A transition takes one slot a time further, and nothing else but counters. */
  lemma AcceptAdvances(k: Knowledge, e: Event)
    requires WellFormed(e) && IsTransition(e)
    ensures var after, i := Accept(k, e), e.phase.value;
            var first := !Duplicate(k.slots, MarkOf(e));
            && after == k.(slots := after.slots, counts := after.counts)
            && (forall j: Phase :: j != i ==> after.slots[j] == k.slots[j])
            && after.slots[i].start == (if first && e.kind == PhaseStart then Some(e.elapsed) else k.slots[i].start)
            && after.slots[i].completion == (if first && e.kind == PhaseComplete then Some(e.elapsed) else k.slots[i].completion)
            && after.slots[i].took == (if first && e.kind == PhaseComplete then e.took else k.slots[i].took)
            && Raised(after.counts, k.counts, Duplicates, if first then 0 else 1)
            && (first <==> if e.kind == PhaseStart then k.slots[i].start.None? else k.slots[i].completion.None?)
  {
    var begun := k.(counts := k.counts.Add(IgnoredUnknownFields, e.unknownFields).Add(Accepted, 1));
    AdvanceRepeats(begun, MarkOf(e));
    hide AddIf, SlotConflict, LaterStarted;
  }

  lemma AdvanceRepeats(k: Knowledge, m: Mark)
    ensures Raised(Advance(k, m).counts, k.counts, Duplicates, if Duplicate(k.slots, m) then 1 else 0)
  {
    hide Place, Duplicate, SlotConflict, LaterStarted;
  }

  lemma PhaseCompleteMeans(loads: Loader, k: Knowledge, raw: seq<Byte>, fields: map<Text, Json>, i: Phase)
    requires Holds(loads, raw, fields) && Admitted(fields, PhaseComplete) && Names(Get(fields, "phase"), i)
    ensures var after, elapsed := After(loads, k, raw), Get(fields, "elapsed_seconds").value;
            var took := Get(fields, "phase_elapsed_seconds").value;
            && (forall j: Phase :: j != i ==> after.slots[j] == k.slots[j])
            && after.slots[i].start == k.slots[i].start
            && after.slots[i].completion == (if k.slots[i].completion.None? then Some(elapsed) else k.slots[i].completion)
            && after.slots[i].took == (if k.slots[i].completion.None? then Some(took) else k.slots[i].took)
            && after.latest == k.latest && after.startObserved == k.startObserved && after.raised == k.raised
            && Raised(after.counts, k.counts, Duplicates, if k.slots[i].completion.Some? then 1 else 0)
  {
    var e := AcceptedEvent(loads, k, raw, fields, PhaseComplete);
    PhaseMeans(Get(fields, "phase"), i);
    hide After, Ascii, Admitted, Names, PhaseOf, Holds, Get, Advance;
    AcceptAdvances(k, e);
  }

  /** The other accepted records become the latest progress; the display of their current test, interruption
      and detail is shortened to 1024, 256 and 256 bytes. The parser raises exactly at an interruption
      that is neither text nor null. */
  lemma ReportMeans(loads: Loader, k: Knowledge, raw: seq<Byte>, fields: map<Text, Json>, kind: Kind)
    requires Holds(loads, raw, fields) && Admitted(fields, kind) && kind in {CaseStart, Heartbeat, Interrupted}
    ensures var after, note := After(loads, k, raw), Get(fields, "interruption");
            && after.latest.Some? && var l := after.latest.value;
            && l.kind == kind && l.elapsed == Get(fields, "elapsed_seconds").value
            && PhaseIs(l.phase, Get(fields, "phase")) && PhaseIs(l.last, Get(fields, "last_completed_phase"))
            && Shows(l.current, Get(fields, "current_test"), 1024)
            && (after.raised <==> k.raised || !(note.JText? || note.JNull?))
            && (note.JText? || note.JNull? ==>
                  && (l.interruption.Some? <==> Ascii("interruption") in fields)
                  && (l.interruption.Some? ==> Shows(l.interruption.value, note, 256))
                  && Shows(l.detail, Get(fields, "detail"), 256))
            && after.slots == k.slots && after.startObserved == k.startObserved && after.interval == k.interval
  {
    var e := AcceptedEvent(loads, k, raw, fields, kind);
    PhasesAreNamed(fields, kind);
    PhasesAreFound(Get(fields, "phase"));
    PhasesAreFound(Get(fields, "last_completed_phase"));
    AcceptReports(k, e);
    NoteMeans(fields, kind, e);
    NothingElse(fields, kind);
    ShowsCarried(e.current, Get(fields, "current_test"), 1024);
    ShowsCarried(e.detail, Get(fields, "detail"), 256);
    hide After, Ascii, Get, PhaseOf, PhaseIs, Bounded, Admitted, Holds, Accept, Retain, Raises, Carries, Shows, Noted;
  }

  function Noted(e: Event): Option<Text> {
    if e.interruption.Some? && e.interruption.value.JText? then Some(e.interruption.value.text) else None
  }

  /** A report in terms of its event. */
  lemma AcceptReports(k: Knowledge, e: Event)
    requires WellFormed(e) && e.kind in {CaseStart, Heartbeat, Interrupted}
    ensures var after := Accept(k, e);
            && after.latest.Some? && after.latest.value.kind == e.kind && after.latest.value.elapsed == e.elapsed
            && after.latest.value.phase == e.phase && after.latest.value.last == e.last
            && after.latest.value.current == Display(e.current, 1024)
            && after.raised == (k.raised || Raises(e))
            && (!Raises(e) ==>
                  && after.latest.value.interruption == (if e.interruption.None? then None else Some(Display(Noted(e), 256)))
                  && after.latest.value.detail == Display(e.detail, 256)
                  && after.fields == Retain(Retain(Retain(map[], CurrentTest, e.current, 1024), Interruption, Noted(e), 256),
                                            Detail, e.detail, 256))
            && after.slots == k.slots && after.startObserved == k.startObserved && after.interval == k.interval
  {
    hide Bounded, Encode, Retain, Display;
  }

  /** The interruption of an accepted report. */
  lemma NoteMeans(fields: map<Text, Json>, kind: Kind, e: Event)
    requires Admitted(fields, kind) && kind in {CaseStart, Heartbeat, Interrupted} && e.kind == kind
    requires e.interruption == if Ascii("interruption") in fields then Some(Get(fields, "interruption")) else None
    ensures var note := Get(fields, "interruption");
            && (Raises(e) <==> !(note.JText? || note.JNull?))
            && Carries(Noted(e), note)
            && (note.JText? || note.JNull? ==> Shows(Display(Noted(e), 256), note, 256))
  {
    AbsentIsNull(fields, "interruption");
    hide Ascii, Get, Bounded, Stands, NamesSome, Encodes;
  }

  lemma ShowsCarried(text: Option<Text>, j: Json, limit: nat)
    requires Carries(text, j) && (j.JText? || j.JNull?)
    ensures Shows(Display(text, limit), j, limit)
  {
    hide Bounded;
  }

  /** The current test and the detail of an accepted report are text or nothing. */
  lemma NothingElse(fields: map<Text, Json>, kind: Kind)
    requires Admitted(fields, kind)
    ensures Get(fields, "current_test").JText? || Get(fields, "current_test").JNull?
    ensures Get(fields, "detail").JText? || Get(fields, "detail").JNull?
  {
    AbsentIsNull(fields, "detail");
    hide Ascii, Get, Stands, NamesSome, Encodes;
  }

  lemma AbsentIsNull(fields: map<Text, Json>, key: string)
    ensures Ascii(key) !in fields ==> Get(fields, key) == JNull
  {
  }

  /** A displayed value: nothing for null, and text shortened to a limit. */
  predicate Shows(shown: Option<Text>, j: Json, limit: nat) {
    if j.JText? then shown == Some(Bounded(j.text, limit)) else shown == None && j == JNull
  }

  lemma PhasesAreNamed(fields: map<Text, Json>, kind: Kind)
    requires Admitted(fields, kind)
    ensures Get(fields, "phase") == JNull || NamesSome(Get(fields, "phase"))
    ensures Get(fields, "last_completed_phase") == JNull || NamesSome(Get(fields, "last_completed_phase"))
  {
    hide Ascii, Get, Stands, NamesSome, Encodes;
  }

  lemma PhasesAreFound(j: Json)
    requires j == JNull || NamesSome(j)
    ensures PhaseIs(PhaseOf(j), j)
  {
    PhaseMeans(j, 0);
    if PhaseOf(j).Some? {
      PhaseMeans(j, PhaseOf(j).value);
    }
  }

  /** What a shortened value records of itself. */
  predicate Measured(fields: map<FieldKey, Retention>, key: FieldKey, j: Json, limit: nat) {
    if j.JText? then
      key in fields && fields[key].original == |Encode(j.text)|
      && fields[key].retained == |Encode(Bounded(j.text, limit))|
      && (fields[key].truncated <==> Bounded(j.text, limit) != j.text)
    else key !in fields
  }

  /** The sizes of the latest report's texts, and of no older one's. */
  lemma ReportIsMeasured(loads: Loader, k: Knowledge, raw: seq<Byte>, fields: map<Text, Json>, kind: Kind)
    requires Holds(loads, raw, fields) && Admitted(fields, kind) && kind in {CaseStart, Heartbeat, Interrupted}
    requires Get(fields, "interruption").JText? || Get(fields, "interruption").JNull?
    ensures var after := After(loads, k, raw);
            && Measured(after.fields, CurrentTest, Get(fields, "current_test"), 1024)
            && Measured(after.fields, Interruption, Get(fields, "interruption"), 256)
            && Measured(after.fields, Detail, Get(fields, "detail"), 256)
  {
    var e := AcceptedEvent(loads, k, raw, fields, kind);
    AcceptReports(k, e);
    NoteMeans(fields, kind, e);
    RetainedAll(e.current, Noted(e), e.detail);
    hide After, Ascii, Get, Names, PhaseOf, Bounded, Encode, Admitted, Holds, Accept, Retain, Raises, Noted, Shows;
  }

  /** What one value retains of itself. */
  predicate Kept(fields: map<FieldKey, Retention>, key: FieldKey, value: Option<Text>, limit: nat) {
    if value.None? then key !in fields
    else
      && key in fields && fields[key].original == |Encode(value.value)|
      && fields[key].retained == |Encode(Bounded(value.value, limit))|
      && (fields[key].truncated <==> Bounded(value.value, limit) != value.value)
  }

  lemma RetainedAll(current: Option<Text>, note: Option<Text>, detail: Option<Text>)
    ensures var fields := Retain(Retain(Retain(map[], CurrentTest, current, 1024), Interruption, note, 256), Detail, detail, 256);
            Kept(fields, CurrentTest, current, 1024) && Kept(fields, Interruption, note, 256) && Kept(fields, Detail, detail, 256)
  {
    hide Bounded, Encode;
  }

  /** Every accepted record is counted, with the fields nobody knows. */
  lemma AcceptedIsCounted(loads: Loader, k: Knowledge, raw: seq<Byte>, fields: map<Text, Json>, kind: Kind)
    requires Holds(loads, raw, fields) && Admitted(fields, kind)
    ensures var after := After(loads, k, raw);
            && Raised(after.counts, k.counts, Accepted, 1) && Raised(after.counts, k.counts, Rejected, 0)
            && after.counts.At(IgnoredUnknownFields)
               == Min(MAX_COUNT, k.counts.At(IgnoredUnknownFields) + |set key | key in fields && !Known(key)|)
  {
    var e := AcceptedEvent(loads, k, raw, fields, kind);
    UnknownAreCounted(fields);
    hide After, Ascii, Admitted, Known, UnknownFields, Holds;
    AcceptCounts(k, e);
  }

  lemma AcceptCounts(k: Knowledge, e: Event)
    requires WellFormed(e)
    ensures var after := Accept(k, e);
            && Raised(after.counts, k.counts, Accepted, 1) && Raised(after.counts, k.counts, Rejected, 0)
            && after.counts.At(IgnoredUnknownFields) == Min(MAX_COUNT, k.counts.At(IgnoredUnknownFields) + e.unknownFields)
  {
    hide Report, Advance;
    var begun := k.(counts := k.counts.Add(IgnoredUnknownFields, e.unknownFields).Add(Accepted, 1));
    if IsTransition(e) {
      AdvanceCounts(begun, MarkOf(e));
    } else if e.kind != Start {
      ReportCounts(begun, e);
    }
  }

  lemma AdvanceCounts(k: Knowledge, m: Mark)
    ensures forall c :: c != Duplicates && c != ChronologyConflicts ==> Advance(k, m).counts.At(c) == k.counts.At(c)
  {
    hide Place, Duplicate, SlotConflict, LaterStarted;
  }

  lemma ReportCounts(k: Knowledge, e: Event)
    ensures Report(k, e).counts == k.counts
  {
  }
}
