/** Which parsed records the capture parser accepts as progress events, and as what. */
module Events {
  import opened Core
  import opened Utf8
  import Chronology
  import Nesting

  /** A parsed JSON value. Text may hold surrogates, which JSON escapes can spell. */
  datatype Json =
    | JNull
    | JBool(b: bool)
    | JNumber(value: real)
    | JNonFinite
    | JText(text: Text)
    | JArray(items: seq<Json>)
    | JObject(fields: map<Text, Json>)

  /** What the JSON library makes of the bytes of a record. */
  datatype Loaded = Loaded(value: Json) | RepeatedKeys | Malformed

  type Loader = seq<Byte> -> Loaded

  datatype Reason = Oversized | TooNested | DuplicateKeys | InvalidJson | WrongType | UnknownEvent

  datatype Kind = Start | PhaseStart | PhaseComplete | CaseStart | Heartbeat | Interrupted

  datatype Event = Event(
    kind: Kind,
    elapsed: real,
    phase: Option<Chronology.Phase>,
    last: Option<Chronology.Phase>,
    current: Option<Text>,
    took: Option<real>,
    interval: Option<real>,
    interruption: Option<Json>,
    detail: Option<Text>,
    unknownFields: nat)

  const MAX_SECONDS: real := 1000000000000.0

  const PHASES: seq<string> := ["discovery", "syntax", "documentation", "release_hygiene", "test_suite"]

  const KINDS: seq<(string, Kind)> :=
    [("self_test_start", Start), ("self_test_phase_start", PhaseStart), ("self_test_phase_complete", PhaseComplete),
     ("self_test_case_start", CaseStart), ("self_test_heartbeat", Heartbeat), ("self_test_interrupted", Interrupted)]

  const ALLOWED: seq<string> :=
    ["event", "elapsed_seconds", "phase", "last_completed_phase", "current_test", "phase_elapsed_seconds",
     "heartbeat_interval_seconds", "phases", "interruption", "detail"]

  function FindPhase(t: Text, from: nat := 0): Option<Chronology.Phase>
    requires from <= |PHASES|
    decreases |PHASES| - from
  {
    if from == |PHASES| then None
    else if t == Ascii(PHASES[from]) then Some(from)
    else FindPhase(t, from + 1)
  }

  function FindKind(t: Text, from: nat := 0): Option<Kind>
    requires from <= |KINDS|
    decreases |KINDS| - from
  {
    if from == |KINDS| then None
    else if t == Ascii(KINDS[from].0) then Some(KINDS[from].1)
    else FindKind(t, from + 1)
  }

  /** A field's value; absent and null read alike. */
  function Get(fields: map<Text, Json>, key: string): Json {
    if Ascii(key) in fields then fields[Ascii(key)] else JNull
  }

  predicate Seconds(j: Json) {
    j.JNumber? && 0.0 <= j.value <= MAX_SECONDS
  }

  function PhaseOf(j: Json): Option<Chronology.Phase> {
    if j.JText? then FindPhase(j.text) else None
  }

  predicate Encodable(j: Json) {
    j.JText? ==> forall c :: c in j.text ==> !Surrogate(c)
  }

  predicate NeedsPhase(kind: Kind) {
    kind.PhaseStart? || kind.PhaseComplete? || kind.CaseStart?
  }

  function UnknownFields(fields: map<Text, Json>): nat {
    |fields.Keys - set i | 0 <= i < |ALLOWED| :: Ascii(ALLOWED[i])|
  }

  /** The checks on a parsed object of a known kind, in the order they are made. */
  predicate WellTyped(fields: map<Text, Json>, kind: Kind) {
    var phase, last, current := Get(fields, "phase"), Get(fields, "last_completed_phase"), Get(fields, "current_test");
    && Seconds(Get(fields, "elapsed_seconds"))
    && (NeedsPhase(kind) || !phase.JNull? ==> PhaseOf(phase).Some?)
    && (last.JNull? || PhaseOf(last).Some?)
    && (current.JNull? || current.JText?)
    && (kind.CaseStart? ==> current.JText?)
    && (kind.PhaseComplete? ==> Seconds(Get(fields, "phase_elapsed_seconds")))
    && (kind.Start? ==> Seconds(Get(fields, "heartbeat_interval_seconds")))
    && (kind.Interrupted? ==> Get(fields, "interruption").JText?)
    && (Ascii("detail") in fields ==> Get(fields, "detail").JText?)
    && Encodable(current) && Encodable(Get(fields, "interruption")) && Encodable(Get(fields, "detail"))
  }

  /** An event carries the fields its kind requires. */
  predicate WellFormed(e: Event) {
    && (NeedsPhase(e.kind) ==> e.phase.Some?)
    && (e.kind.PhaseComplete? ==> e.took.Some?)
    && (e.kind.Start? ==> e.interval.Some?)
  }

  type GoodEvent = e: Event | WellFormed(e)
    witness Event(Heartbeat, 0.0, None, None, None, None, None, None, None, 0)

  predicate IsTransition(e: Event) {
    e.kind.PhaseStart? || e.kind.PhaseComplete?
  }

  function ToEvent(fields: map<Text, Json>, kind: Kind): (e: Event)
    requires WellTyped(fields, kind)
    ensures e.kind == kind && WellFormed(e)
  {
    var current, took, interval := Get(fields, "current_test"), Get(fields, "phase_elapsed_seconds"),
                                   Get(fields, "heartbeat_interval_seconds");
    Event(
      kind, Get(fields, "elapsed_seconds").value, PhaseOf(Get(fields, "phase")),
      PhaseOf(Get(fields, "last_completed_phase")),
      if current.JText? then Some(current.text) else None,
      if took.JNumber? then Some(took.value) else None,
      if interval.JNumber? then Some(interval.value) else None,
      if Ascii("interruption") in fields then Some(fields[Ascii("interruption")]) else None,
      if Ascii("detail") in fields then Some(Get(fields, "detail").text) else None,
      UnknownFields(fields))
  }

  /** The verdict on the bytes of one record. */
  function Judge(loads: Loader, raw: seq<Byte>): Result<GoodEvent, Reason>
  {
    if !Nesting.Shallow(raw) then Err(TooNested)
    else
      match loads(raw)
      case RepeatedKeys => Err(DuplicateKeys)
      case Malformed => Err(InvalidJson)
      case Loaded(value) =>
        if !value.JObject? then Err(WrongType)
        else
          var name := Get(value.fields, "event");
          var kind := if name.JText? then FindKind(name.text) else None;
          if kind.None? then Err(UnknownEvent)
          else if !WellTyped(value.fields, kind.value) then Err(WrongType)
          else Ok(ToEvent(value.fields, kind.value))
  }

  /** Verdicts on records; the parser is studied for every possible assessor. */
  type Assessor = seq<Byte> -> Result<GoodEvent, Reason>

  function Assess(loads: Loader): Assessor {
    raw => Judge(loads, raw)
  }

  /** An accepted case or heartbeat record whose optional `interruption` is neither text nor null
      makes the parser raise: the display helper is handed a value that has no characters. */
  predicate Raises(e: Event) {
    (e.kind.CaseStart? || e.kind.Heartbeat?) && e.interruption.Some? &&
    !e.interruption.value.JText? && !e.interruption.value.JNull?
  }

  /** A heartbeat with a number for its interruption. */
  function NumberedHeartbeat(): map<Text, Json> {
    map[Ascii("event") := JText(Ascii("self_test_heartbeat")), Ascii("elapsed_seconds") := JNumber(0.0),
        Ascii("interruption") := JNumber(0.0)]
  }

  lemma TextsDiffer(a: string, b: string)
    requires |a| != |b| || (|a| > 0 && a[0] != b[0])
    ensures Ascii(a) != Ascii(b)
  {
    if |a| == |b| {
      assert Ascii(a)[0] == a[0] as int && Ascii(b)[0] == b[0] as int;
    }
  }

  lemma HeartbeatFields()
    ensures var fields := NumberedHeartbeat();
            && Get(fields, "event") == JText(Ascii("self_test_heartbeat"))
            && Get(fields, "elapsed_seconds") == JNumber(0.0) && Get(fields, "interruption") == JNumber(0.0)
            && Get(fields, "phase") == JNull && Get(fields, "last_completed_phase") == JNull
            && Get(fields, "current_test") == JNull && Ascii("detail") !in fields && Ascii("interruption") in fields
  {
    TextsDiffer("event", "elapsed_seconds");
    TextsDiffer("event", "interruption");
    TextsDiffer("elapsed_seconds", "interruption");
    TextsDiffer("phase", "event");
    TextsDiffer("phase", "elapsed_seconds");
    TextsDiffer("phase", "interruption");
    TextsDiffer("last_completed_phase", "event");
    TextsDiffer("last_completed_phase", "elapsed_seconds");
    TextsDiffer("last_completed_phase", "interruption");
    TextsDiffer("current_test", "event");
    TextsDiffer("current_test", "elapsed_seconds");
    TextsDiffer("current_test", "interruption");
    TextsDiffer("detail", "event");
    TextsDiffer("detail", "elapsed_seconds");
    TextsDiffer("detail", "interruption");
    hide Ascii;
  }

  lemma HeartbeatIsFound()
    ensures FindKind(Ascii("self_test_heartbeat")) == Some(Heartbeat)
  {
    TextsDiffer("self_test_heartbeat", "self_test_start");
    TextsDiffer("self_test_heartbeat", "self_test_phase_start");
    TextsDiffer("self_test_heartbeat", "self_test_phase_complete");
    TextsDiffer("self_test_heartbeat", "self_test_case_start");
    var t := Ascii("self_test_heartbeat");
    hide Ascii;
    assert FindKind(t, 4) == Some(Heartbeat);
    assert FindKind(t, 3) == FindKind(t, 4) && FindKind(t, 2) == FindKind(t, 3) && FindKind(t, 1) == FindKind(t, 2);
  }

  /** Such a record is accepted and makes the parser raise. */
  lemma AcceptedRecordCanRaise(loads: Loader, raw: seq<Byte>)
    requires Nesting.Shallow(raw) && loads(raw) == Loaded(JObject(NumberedHeartbeat()))
    ensures Judge(loads, raw).Ok? && Raises(Judge(loads, raw).value)
  {
    HeartbeatFields();
    HeartbeatIsFound();
    hide Ascii, FindKind, FindPhase, NumberedHeartbeat;
    assert WellTyped(NumberedHeartbeat(), Heartbeat);
  }
}
