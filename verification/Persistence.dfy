/** Saving the evidence: a worker process owns the files and acknowledges each one over a pipe, a
    supervisor sends the payload, reads acknowledgements in chunks of any size and may kill the worker
    at any moment. Every interleaving of their steps is a run of the machine below. */
module Persistence {
  import opened Core

  const CHUNK := 4096
  const BUFFER_LIMIT := 16384

  datatype Name = Capture | Excerpt

  /** The order in which the worker saves the files. */
  const ORDER: seq<Name> := [Capture, Excerpt]

  datatype Ack = Allocated | Saved(name: Name) | Failed

  /** The payload's two texts. */
  datatype Data = Data(capture: seq<Byte>, excerpt: seq<Byte>) {
    function Of(name: Name): seq<Byte> {
      if name.Capture? then capture else excerpt
    }
  }

  /** What both processes agree on before the run: how acknowledgements look on the wire, what the
      payload is, and what the worker's JSON library makes of the part of it that has arrived. */
  datatype Setup = Setup(
    wire: Ack -> seq<Byte>,
    parse: seq<Byte> -> Option<Ack>,
    contents: Data,
    payload: seq<Byte>,
    loads: seq<Byte> -> Option<Data>)

  /** An acknowledgement is one line and reads back; a truncated payload is malformed or, at worst,
      complete but for its final newline. */
  ghost predicate Agreed(u: Setup) {
    && (forall a :: 10 !in u.wire(a) && u.parse(u.wire(a)) == Some(a))
    && u.loads(u.payload) == Some(u.contents)
    && (forall n: nat :: n <= |u.payload| ==> u.loads(u.payload[..n]).None? || u.loads(u.payload[..n]) == Some(u.contents))
  }

  // ----- the supervisor's side of the pipe -----

  datatype Supervisor = Supervisor(
    buffer: seq<Byte>, started: bool, saved: seq<Name>, failed: bool, raised: bool, acknowledged: bool,
    heard: nat)  // how many lines have been taken out of the buffer

  const LISTENING := Supervisor([], false, [], false, false, false, 0)

  function Line(buffer: seq<Byte>): (r: seq<Byte>)
    requires NEWLINE in buffer
    ensures |r| < |buffer| && NEWLINE !in r && r + [NEWLINE] <= buffer
  {
    if buffer[0] == NEWLINE then [] else [buffer[0]] + Line(buffer[1..])
  }

  function Hear(s: Supervisor, a: Ack): Supervisor {
    match a
    case Allocated => s.(started := true)
    case Saved(name) => s.(saved := s.saved + [name])
    case Failed => s.(failed := true)
  }

  /** The first line taken out of the buffer. */
  function Taken(s: Supervisor): (t: Supervisor)
    requires NEWLINE in s.buffer
    ensures t == s.(buffer := t.buffer, heard := s.heard + 1) && |t.buffer| < |s.buffer|
  {
    s.(buffer := s.buffer[|Line(s.buffer)| + 1..], heard := s.heard + 1)
  }

  /** Take whole lines out of the buffer; a failure report ends the turn with the rest unread. */
  function Digest(u: Setup, s: Supervisor): Supervisor
    decreases |s.buffer|
  {
    if NEWLINE !in s.buffer then s
    else
      match u.parse(Line(s.buffer))
      case None => Taken(s).(raised := true)
      case Some(a) => if a.Failed? then Hear(Taken(s), a) else Digest(u, Hear(Taken(s), a))
  }

  function Receive(u: Setup, s: Supervisor, chunk: seq<Byte>): Supervisor {
    var s := s.(buffer := s.buffer + chunk);
    if |s.buffer| > BUFFER_LIMIT then s.(raised := true) else Digest(u, s)
  }

  /** Once both files are reported the evidence counts as acknowledged, for good. */
  function Concluded(s: Supervisor): Supervisor {
    if |s.saved| == 2 then s.(acknowledged := true) else s
  }

  /** The supervisor object. */
  class Receiver {
    const setup: Setup
    var buffer: seq<Byte>
    var started: bool
    var saved: seq<Name>
    var failed: bool
    var raised: bool
    var acknowledged: bool
    ghost var heard: nat

    ghost function View(): Supervisor
      reads this
    {
      Supervisor(buffer, started, saved, failed, raised, acknowledged, heard)
    }

    constructor (setup: Setup)
      ensures View() == LISTENING && this.setup == setup
    {
      this.setup := setup;
      buffer, started, saved, failed, raised, acknowledged, heard := [], false, [], false, false, false, 0;
    }

    method ReceiveChunk(chunk: seq<Byte>)
      requires !raised
      modifies this
      ensures View() == Receive(setup, old(View()), chunk)
    {
      buffer := buffer + chunk;
      if |buffer| > BUFFER_LIMIT {
        raised := true;
        return;
      }
      DigestBuffer();
    }

    method DigestBuffer()
      requires !raised
      modifies this
      ensures View() == Digest(setup, old(View()))
    {
      hide Line, Digest;
      ghost var whole := View();
      while NEWLINE in buffer
        invariant !raised
        invariant Digest(setup, View()) == Digest(setup, whole)
        decreases |buffer|
      {
        ghost var before := View();
        ghost var taken, a := DigestLine(setup, before);
        var line := Line(buffer);
        buffer, heard := buffer[|line| + 1..], heard + 1;
        assert View() == taken;
        var ack := setup.parse(line);
        if ack.None? {
          raised := true;
          return;
        }
        match ack.value {
          case Allocated => started := true;
          case Saved(name) => saved := saved + [name];
          case Failed =>
            failed := true;
            return;
        }
        assert View() == Hear(taken, ack.value);
      }
      DigestNothing(setup, View());
    }

    method Conclude()
      modifies this`acknowledged
      ensures View() == Concluded(old(View()))
    {
      if |saved| == 2 {
        acknowledged := true;
      }
    }
  }

  // ----- the machine -----

  datatype Pc = Allocating | Loading | Opening(i: nat) | Writing(i: nat) | Replaced(i: nat) | Done | Dead

  datatype Files = Files(final: map<Name, seq<Byte>>, partial: map<Name, seq<Byte>>)

  datatype System = System(
    pc: Pc,
    data: Option<Data>,
    pending: seq<Byte>,        // printed but not yet in the pipe
    pipe: seq<Byte>,
    log: seq<Ack>,             // everything the worker has set out to print
    files: Files,
    sent: nat,
    closed: bool,
    supervisor: Supervisor)

  const INITIAL := System(Allocating, None, [], [], [], Files(map[], map[]), 0, false, LISTENING)

  datatype Action =
    | Allocate | Load | Open | Write(n: nat) | Replace | Acknowledge | Fail | Emit | Kill
    | Send(n: nat) | Close | Get(n: nat) | Conclude

  function Print(u: Setup, s: System, a: Ack): System {
    s.(pending := u.wire(a) + [NEWLINE], log := s.log + [a])
  }

  /** The next file, or the end. */
  function Next(i: nat): Pc {
    if i + 1 < |ORDER| then Opening(i + 1) else Done
  }

  predicate Busy(s: System) {
    s.pending != [] || s.pc.Dead? || s.pc.Done?
  }

  function WorkerStep(u: Setup, s: System, a: Action): System {
    if s.pc.Dead? then s
    else if a.Kill? then s.(pc := Dead)
    else if a.Emit? && s.pending != [] then s.(pipe := s.pipe + s.pending[..1], pending := s.pending[1..])
    else if Busy(s) then s
    else if a.Fail? then Print(u, s, Failed).(pc := Done)
    else if a.Allocate? && s.pc.Allocating? then Print(u, s, Allocated).(pc := Loading)
    else if a.Load? && s.pc.Loading? && s.closed && s.sent <= |u.payload| then
      var data := u.loads(u.payload[..s.sent]);
      if data.None? then Print(u, s, Failed).(pc := Done) else s.(data := data, pc := Opening(0))
    else if a.Open? && s.pc.Opening? && s.pc.i < |ORDER| then
      s.(files := s.files.(partial := s.files.partial[ORDER[s.pc.i] := []]), pc := Writing(s.pc.i))
    else if a.Write? && s.pc.Writing? && s.pc.i < |ORDER| && s.data.Some? && ORDER[s.pc.i] in s.files.partial then
      var whole, done := s.data.value.Of(ORDER[s.pc.i]), s.files.partial[ORDER[s.pc.i]];
      s.(files := s.files.(partial := s.files.partial[ORDER[s.pc.i] := whole[..Min(|whole|, |done| + a.n)]]))
    else if a.Replace? && s.pc.Writing? && s.pc.i < |ORDER| && s.data.Some? && ORDER[s.pc.i] in s.files.partial
            && s.files.partial[ORDER[s.pc.i]] == s.data.value.Of(ORDER[s.pc.i]) then
      var name := ORDER[s.pc.i];
      s.(files := Files(s.files.final[name := s.files.partial[name]], s.files.partial - {name}), pc := Replaced(s.pc.i))
    else if a.Acknowledge? && s.pc.Replaced? && s.pc.i < |ORDER| then
      Print(u, s, Saved(ORDER[s.pc.i])).(pc := Next(s.pc.i))
    else s
  }

  function SupervisorStep(u: Setup, s: System, a: Action): System {
    if a.Send? && s.supervisor.started && !s.closed && s.sent + a.n <= |u.payload| then s.(sent := s.sent + a.n)
    else if a.Close? then s.(closed := true)
    else if a.Get? && !s.supervisor.raised && 0 < a.n <= Min(CHUNK, |s.pipe|) then
      s.(supervisor := Receive(u, s.supervisor, s.pipe[..a.n]), pipe := s.pipe[a.n..])
    else if a.Conclude? then s.(supervisor := Concluded(s.supervisor))
    else s
  }

  /** One step of the system; an action that is not possible changes nothing. */
  function Step(u: Setup, s: System, a: Action): System {
    if a.Send? || a.Close? || a.Get? || a.Conclude? then SupervisorStep(u, s, a) else WorkerStep(u, s, a)
  }

  function Run(u: Setup, actions: seq<Action>): System {
    if actions == [] then INITIAL else Step(u, Run(u, actions[..|actions| - 1]), actions[|actions| - 1])
  }

  // ----- what every step keeps -----

  function Wire(u: Setup, log: seq<Ack>): seq<Byte> {
    if log == [] then [] else u.wire(log[0]) + [10] + Wire(u, log[1..])
  }

  function SavedIn(log: seq<Ack>): seq<Name> {
    if log == [] then []
    else SavedIn(log[..|log| - 1]) + (if log[|log| - 1].Saved? then [log[|log| - 1].name] else [])
  }

  /** How many files are behind the worker, acknowledged or at least in place. */
  predicate Behind(s: System) {
    var k := |SavedIn(s.log)|;
    && k <= |ORDER| && SavedIn(s.log) == ORDER[..k]
    && (match s.pc
        case Allocating => k == 0
        case Loading => k == 0
        case Opening(i) => k == i < |ORDER| && s.data.Some?
        case Writing(i) => k == i < |ORDER| && s.data.Some?
        case Replaced(i) => k == i < |ORDER| && ORDER[i] in s.files.final && s.data.Some?
        case Done => true
        case Dead => true)
  }

  /** A final name only ever stands for the whole content, and every file the worker has reported
      is there. */
  predicate FilesSafe(u: Setup, s: System) {
    && (forall name :: name in s.files.final ==> s.files.final[name] == u.contents.Of(name))
    && (forall name :: name in SavedIn(s.log) ==> name in s.files.final)
    && (s.data.Some? ==> s.data.value == u.contents)
    && s.sent <= |u.payload|
  }

  /** What the worker printed is what the supervisor has heard followed by what is still under way,
      wherever the bytes are; and the supervisor has drawn the right conclusions so far. */
  predicate WireSafe(u: Setup, s: System) {
    && s.supervisor.heard <= |s.log|
    && Wire(u, s.log[s.supervisor.heard..]) == s.supervisor.buffer + s.pipe + s.pending
    && s.supervisor.saved == SavedIn(s.log[..s.supervisor.heard])
    && (s.supervisor.acknowledged ==> |s.supervisor.saved| >= 2)
  }

  predicate Inv(u: Setup, s: System) {
    Behind(s) && FilesSafe(u, s) && WireSafe(u, s)
  }

  lemma WireCons(u: Setup, log: seq<Ack>)
    requires log != []
    ensures Wire(u, log) == (u.wire(log[0]) + [NEWLINE]) + Wire(u, log[1..])
  {
  }

  lemma {:induction false} WireConcat(u: Setup, a: seq<Ack>, b: seq<Ack>)
    ensures Wire(u, a + b) == Wire(u, a) + Wire(u, b)
  {
    hide Wire;
    if a == [] {
      WireNothing(u);
      assert a + b == b;
    } else {
      WireConcat(u, a[1..], b);
      ConcatTail(a, b);
      WireCons(u, a);
      WireCons(u, a + b);
      ConcatAssociates(u.wire(a[0]) + [NEWLINE], Wire(u, a[1..]), Wire(u, b));
    }
  }

  lemma WireNothing(u: Setup)
    ensures Wire(u, []) == []
  {
  }

  lemma SavedInAppends(log: seq<Ack>, a: Ack)
    ensures SavedIn(log + [a]) == SavedIn(log) + if a.Saved? then [a.name] else []
  {
    assert (log + [a])[..|log|] == log;
  }

  lemma {:induction false} SavedInPrefix(log: seq<Ack>, n: nat)
    requires n <= |log|
    ensures SavedIn(log[..n]) <= SavedIn(log)
  {
    if n == |log| {
      assert log[..n] == log;
    } else {
      SavedInPrefix(log[..|log| - 1], n);
      assert log[..|log| - 1][..n] == log[..n];
    }
  }

  lemma PrintKeeps(u: Setup, s: System, a: Ack, pc: Pc)
    requires WireSafe(u, s) && s.pending == []
    ensures WireSafe(u, Print(u, s, a).(pc := pc))
  {
    var h := s.supervisor.heard;
    WireConcat(u, s.log[h..], [a]);
    assert (s.log + [a])[h..] == s.log[h..] + [a] && (s.log + [a])[..h] == s.log[..h];
    assert [a][1..] == [] && Wire(u, [a]) == u.wire(a) + [NEWLINE];
  }

  /** A step of the worker prints one acknowledgement, or moves one byte on, or leaves the wire alone. */
  lemma WorkerOnTheWire(u: Setup, s: System, a: Action) returns (printed: Option<Ack>)
    ensures var t := WorkerStep(u, s, a);
            && t.supervisor == s.supervisor
            && (printed.Some? ==> s.pending == [] && t.pipe == s.pipe && t.log == s.log + [printed.value]
                                  && t.pending == u.wire(printed.value) + [NEWLINE])
            && (printed.None? ==> t.log == s.log && t.pipe + t.pending == s.pipe + s.pending)
  {
    var t := WorkerStep(u, s, a);
    if t.log != s.log {
      printed := Some(t.log[|s.log|]);
    } else {
      printed := None;
      if t.pending != s.pending {
        assert s.pending[..1] + s.pending[1..] == s.pending;
        ConcatAssociates(s.pipe, s.pending[..1], s.pending[1..]);
      }
    }
  }

  lemma WorkerKeepsWire(u: Setup, s: System, a: Action)
    requires WireSafe(u, s)
    ensures WireSafe(u, WorkerStep(u, s, a))
  {
    hide Wire, SavedIn;
    var t := WorkerStep(u, s, a);
    var printed := WorkerOnTheWire(u, s, a);
    hide WorkerStep;
    if printed.Some? {
      PrintKeeps(u, s, printed.value, t.pc);
      SameWire(u, Print(u, s, printed.value).(pc := t.pc), t);
    } else {
      ConcatAssociates(s.supervisor.buffer, s.pipe, s.pending);
      ConcatAssociates(t.supervisor.buffer, t.pipe, t.pending);
    }
  }

  lemma SameWire(u: Setup, s: System, t: System)
    requires WireSafe(u, s) && t.supervisor == s.supervisor && t.log == s.log && t.pipe == s.pipe && t.pending == s.pending
    ensures WireSafe(u, t)
  {
    hide Wire, SavedIn;
  }

  lemma WorkerKeepsFiles(u: Setup, s: System, a: Action)
    requires Agreed(u) && Behind(s) && FilesSafe(u, s)
    ensures Behind(WorkerStep(u, s, a)) && FilesSafe(u, WorkerStep(u, s, a))
  {
    WorkerKeepsBehind(u, s, a);
    WorkerKeepsFilesSafe(u, s, a);
  }

  predicate Reports(s: System, t: System)
    requires Behind(s)
  {
    s.pc.Replaced? && t.log == s.log + [Saved(ORDER[s.pc.i])]
  }

  /** The log grows by one acknowledgement at most, and by a saved name only after that file's
      replacement. */
  lemma WorkerLogs(u: Setup, s: System, a: Action)
    requires Behind(s)
    ensures var t := WorkerStep(u, s, a);
            if Reports(s, t) then
              t.pc == Next(s.pc.i) && t.files == s.files && t.data == s.data && SavedIn(t.log) == SavedIn(s.log) + [ORDER[s.pc.i]]
            else SavedIn(t.log) == SavedIn(s.log) && (t.log == s.log || t.log == s.log + [Allocated] || t.log == s.log + [Failed])
  {
    hide SavedIn;
    SavedInAppends(s.log, Allocated);
    SavedInAppends(s.log, Failed);
    if s.pc.Replaced? {
      SavedInAppends(s.log, Saved(ORDER[s.pc.i]));
    }
    assert SavedIn(s.log) + [] == SavedIn(s.log);
  }

  lemma WorkerKeepsBehind(u: Setup, s: System, a: Action)
    requires Behind(s)
    ensures Behind(WorkerStep(u, s, a))
  {
    hide SavedIn;
    WorkerLogs(u, s, a);
    assert s.pc.Replaced? ==> ORDER[..s.pc.i] + [ORDER[s.pc.i]] == ORDER[..s.pc.i + 1];
  }

  lemma WorkerKeepsFilesSafe(u: Setup, s: System, a: Action)
    requires Agreed(u) && Behind(s) && FilesSafe(u, s)
    ensures FilesSafe(u, WorkerStep(u, s, a))
  {
    hide SavedIn;
    WorkerLogs(u, s, a);
    assert WorkerStep(u, s, a).files.final.Keys >= s.files.final.Keys;
  }

  lemma WorkerKeeps(u: Setup, s: System, a: Action)
    requires Agreed(u) && Inv(u, s)
    ensures Inv(u, WorkerStep(u, s, a))
  {
    hide Behind, FilesSafe, WireSafe, WorkerStep;
    WorkerKeepsWire(u, s, a);
    WorkerKeepsFiles(u, s, a);
  }

  // ----- reading in chunks of any size -----

  lemma {:induction false} LineOf(a: seq<Byte>, rest: seq<Byte>, buffer: seq<Byte>)
    requires NEWLINE !in a && NEWLINE in buffer
    requires buffer <= a + [NEWLINE] + rest
    ensures Line(buffer) == a
  {
    if a == [] {
      assert buffer[0] == NEWLINE;
    } else {
      assert buffer[0] == a[0] && a[0] in a;
      assert buffer[1..] <= a[1..] + [NEWLINE] + rest;
      LineOf(a[1..], rest, buffer[1..]);
    }
  }

  /** The first whole line in the buffer is the next acknowledgement on the wire. */
  lemma TakeLine(u: Setup, log: seq<Ack>, s: Supervisor, rest: seq<Byte>)
    requires Agreed(u) && s.heard <= |log|
    requires Wire(u, log[s.heard..]) == s.buffer + rest
    requires NEWLINE in s.buffer
    ensures s.heard < |log| && Line(s.buffer) == u.wire(log[s.heard])
    ensures Wire(u, log[s.heard + 1..]) == s.buffer[|Line(s.buffer)| + 1..] + rest
  {
    hide Line;
    assert NEWLINE in s.buffer + rest;
    WireHasNewline(u, log[s.heard..]);
    var line := u.wire(log[s.heard]);
    var later := Wire(u, log[s.heard + 1..]);
    assert log[s.heard..][1..] == log[s.heard + 1..];
    assert s.buffer + rest == line + [NEWLINE] + later;
    assert s.buffer <= line + [NEWLINE] + later;
    LineOf(line, later, s.buffer);
    assert (s.buffer + rest)[|line| + 1..] == s.buffer[|line| + 1..] + rest;
    assert (line + [NEWLINE] + later)[|line| + 1..] == later;
  }

  /** Digesting keeps the account of the wire, and never meets a line it cannot read. */
  lemma {:induction false} DigestKeeps(u: Setup, log: seq<Ack>, s: Supervisor, rest: seq<Byte>)
    requires Agreed(u) && s.heard <= |log|
    requires Wire(u, log[s.heard..]) == s.buffer + rest
    requires s.saved == SavedIn(log[..s.heard])
    ensures var t := Digest(u, s);
            && t.heard <= |log| && Wire(u, log[t.heard..]) == t.buffer + rest
            && t.saved == SavedIn(log[..t.heard])
            && t.acknowledged == s.acknowledged && t.raised == s.raised
            && |t.saved| >= |s.saved|
    decreases |s.buffer|
  {
    hide Wire, Line, SavedIn;
    if NEWLINE in s.buffer {
      TakeLine(u, log, s, rest);
      var ack := log[s.heard];
      SavedInAppends(log[..s.heard], ack);
      assert log[..s.heard] + [ack] == log[..s.heard + 1];
      if !ack.Failed? {
        DigestKeeps(u, log, Hear(s.(buffer := s.buffer[|Line(s.buffer)| + 1..], heard := s.heard + 1), ack), rest);
      }
    }
  }

  lemma GetKeepsWire(u: Setup, s: System, n: nat)
    requires Agreed(u) && WireSafe(u, s)
    requires n <= |s.pipe|
    ensures WireSafe(u, s.(supervisor := Receive(u, s.supervisor, s.pipe[..n]), pipe := s.pipe[n..]))
  {
    hide Wire, SavedIn, Digest;
    var fed := s.supervisor.(buffer := s.supervisor.buffer + s.pipe[..n]);
    var rest := s.pipe[n..] + s.pending;
    assert s.pipe[..n] + s.pipe[n..] == s.pipe;
    assert fed.buffer + rest == s.supervisor.buffer + s.pipe + s.pending;
    DigestKeeps(u, s.log, fed, rest);
    var t := Receive(u, s.supervisor, s.pipe[..n]);
    assert t.buffer + rest == t.buffer + s.pipe[n..] + s.pending;
  }

  lemma SupervisorKeeps(u: Setup, s: System, a: Action)
    requires Agreed(u) && Inv(u, s)
    ensures Inv(u, SupervisorStep(u, s, a))
  {
    hide Wire, SavedIn, Receive, Digest;
    if a.Get? && !s.supervisor.raised && 0 < a.n <= Min(CHUNK, |s.pipe|) {
      GetKeepsWire(u, s, a.n);
    }
  }

  lemma {:induction false} RunKeeps(u: Setup, actions: seq<Action>)
    requires Agreed(u)
    ensures Inv(u, Run(u, actions))
  {
    if actions != [] {
      var before, a := actions[..|actions| - 1], actions[|actions| - 1];
      RunKeeps(u, before);
      WorkerKeeps(u, Run(u, before), a);
      SupervisorKeeps(u, Run(u, before), a);
    }
  }

  // ----- the promises -----

  /** After any run whatsoever: a final name holds its whole content, and `acknowledged` means that
      both files are in place and complete. */
  lemma AcknowledgedMeansSaved(u: Setup, actions: seq<Action>)
    requires Agreed(u)
    ensures var s := Run(u, actions);
            && (forall name :: name in s.files.final ==> s.files.final[name] == u.contents.Of(name))
            && (s.supervisor.acknowledged ==> s.files.final == map[Capture := u.contents.capture, Excerpt := u.contents.excerpt])
            && s.supervisor.saved <= [Capture, Excerpt]
  {
    hide Wire, SavedIn, Run;
    RunKeeps(u, actions);
    var s := Run(u, actions);
    SavedInPrefix(s.log, s.supervisor.heard);
    assert ORDER[..|ORDER|] == ORDER;
    if s.supervisor.acknowledged {
      SavedInPrefix(s.log, s.supervisor.heard);
      var saved := SavedIn(s.log);
      assert |saved| == 2 && saved[0] == Capture && saved[1] == Excerpt;
      assert Capture in saved && Excerpt in saved;
      assert s.files.final.Keys == {Capture, Excerpt};
    }
  }

  lemma StepKeepsFinals(u: Setup, s: System, a: Action)
    ensures s.files.final.Keys <= Step(u, s, a).files.final.Keys
  {
  }

  /** A saved file stays saved and unchanged whatever happens afterwards, a kill included. */
  lemma {:induction false} SavedFilesStay(u: Setup, actions: seq<Action>, more: seq<Action>)
    requires Agreed(u)
    ensures var early, late := Run(u, actions).files.final, Run(u, actions + more).files.final;
            forall name :: name in early ==> name in late && late[name] == early[name]
  {
    hide Step;
    if more == [] {
      assert actions + more == actions;
    } else {
      var before := more[..|more| - 1];
      assert (actions + more)[..|actions + more| - 1] == actions + before;
      SavedFilesStay(u, actions, before);
      StepKeepsFinals(u, Run(u, actions + before), more[|more| - 1]);
      RunKeeps(u, actions);
      RunKeeps(u, actions + more);
    }
  }

  lemma DigestNothing(u: Setup, s: Supervisor)
    requires NEWLINE !in s.buffer
    ensures Digest(u, s) == s
  {
  }

  /** One line is taken out of the buffer; a line that does not read raises, and the report of a failure
      ends the turn. */
  lemma DigestLine(u: Setup, s: Supervisor) returns (taken: Supervisor, a: Option<Ack>)
    requires NEWLINE in s.buffer
    ensures taken == Taken(s) && a == u.parse(Line(s.buffer))
    ensures Digest(u, s) == if a.None? then taken.(raised := true)
                            else if a.value.Failed? then Hear(taken, a.value) else Digest(u, Hear(taken, a.value))
  {
    hide Line, Taken, Hear;
    taken, a := Taken(s), u.parse(Line(s.buffer));
  }

  /** A turn of digesting leaves no whole line behind, unless it raises or hears of a failure. */
  lemma {:induction false} DigestLeavesNoLine(u: Setup, s: Supervisor)
    requires !s.raised && !s.failed
    ensures var t := Digest(u, s); t.raised || t.failed || NEWLINE !in t.buffer
    decreases |s.buffer|
  {
    hide Line, Digest;
    if NEWLINE in s.buffer {
      var taken, a := DigestLine(u, s);
      if a.Some? && !a.value.Failed? {
        DigestLeavesNoLine(u, Hear(taken, a.value));
      }
    } else {
      DigestNothing(u, s);
    }
  }

  /** Receiving a chunk: more than 16384 waiting bytes are an error; otherwise every whole line is heard. */
  lemma ReceiveLeavesNoLine(u: Setup, s: Supervisor, chunk: seq<Byte>)
    requires !s.raised && !s.failed
    ensures var t := Receive(u, s, chunk);
            && (|s.buffer + chunk| > 16384 ==> t.raised)
            && (t.raised || t.failed || NEWLINE !in t.buffer)
  {
    hide Digest;
    DigestLeavesNoLine(u, s.(buffer := s.buffer + chunk));
  }

  lemma {:induction false} SavedInCons(a: Ack, log: seq<Ack>)
    ensures SavedIn([a] + log) == (if a.Saved? then [a.name] else []) + SavedIn(log)
  {
    if log == [] {
      assert [a] + log == [a] && [a][..0] == [];
    } else {
      assert ([a] + log)[..|log|] == [a] + log[..|log| - 1];
      SavedInCons(a, log[..|log| - 1]);
    }
  }

  /** The supervisor after some acknowledgements, one after the other. */
  function HearEach(s: Supervisor, acks: seq<Ack>): Supervisor
    decreases |acks|
  {
    if acks == [] then s else HearEach(Hear(s.(heard := s.heard + 1), acks[0]), acks[1..])
  }

  lemma {:induction false} HearEachMeans(s: Supervisor, acks: seq<Ack>)
    requires Failed !in acks
    ensures HearEach(s, acks) == s.(heard := s.heard + |acks|, saved := s.saved + SavedIn(acks),
                                    started := s.started || Allocated in acks)
    decreases |acks|
  {
    hide SavedIn;
    NothingSaved();
    if acks == [] {
      assert s.saved + [] == s.saved;
    } else {
      var a, more := acks[0], acks[1..];
      assert acks == [a] + more;
      HearEachMeans(Hear(s.(heard := s.heard + 1), a), more);
      SavedInCons(a, more);
      hide HearEach;
      ConcatAssociates(s.saved, if a.Saved? then [a.name] else [], SavedIn(more));
      assert s.saved + [] == s.saved;
    }
  }

  lemma NothingSaved()
    ensures SavedIn([]) == []
  {
  }

  /** A buffer of several whole lines, none of them a failure, is heard entirely in one turn, in order; an
      unfinished line waits. */
  lemma {:induction false} DigestHearsEach(u: Setup, s: Supervisor, acks: seq<Ack>, rest: seq<Byte>)
    requires Agreed(u) && NEWLINE !in rest && Failed !in acks
    requires s.buffer == Wire(u, acks) + rest
    ensures Digest(u, s) == HearEach(s.(buffer := rest), acks)
    decreases |acks|
  {
    hide Wire, Line, Digest;
    if acks == [] {
      NothingOnTheWire(u);
      assert s.buffer == rest;
      DigestNothing(u, s);
    } else {
      var taken := DigestOne(u, s, acks, rest);
      DigestHearsEach(u, taken, acks[1..], rest);
    }
  }

  lemma DigestHearsAll(u: Setup, s: Supervisor, acks: seq<Ack>, rest: seq<Byte>)
    requires Agreed(u) && NEWLINE !in rest && Failed !in acks
    requires s.buffer == Wire(u, acks) + rest
    ensures Digest(u, s) == s.(buffer := rest, heard := s.heard + |acks|, saved := s.saved + SavedIn(acks),
                               started := s.started || Allocated in acks)
  {
    hide Wire, SavedIn, Digest, HearEach;
    DigestHearsEach(u, s, acks, rest);
    HearEachMeans(s.(buffer := rest), acks);
  }

  lemma NothingOnTheWire(u: Setup)
    ensures Wire(u, []) == []
  {
  }

  /** The first line of the buffer is heard, and digesting goes on with the others. */
  lemma DigestOne(u: Setup, s: Supervisor, acks: seq<Ack>, rest: seq<Byte>) returns (taken: Supervisor)
    requires Agreed(u) && acks != [] && s.buffer == Wire(u, acks) + rest
    ensures taken == Hear(s.(buffer := Wire(u, acks[1..]) + rest, heard := s.heard + 1), acks[0])
    ensures Digest(u, s) == if acks[0].Failed? then taken else Digest(u, taken)
  {
    hide Line;
    var line, later := u.wire(acks[0]), Wire(u, acks[1..]) + rest;
    assert s.buffer == line + [NEWLINE] + later;
    assert s.buffer[|line|] == NEWLINE;
    LineOf(line, later, s.buffer);
    assert s.buffer[|line| + 1..] == later;
    taken := Hear(s.(buffer := later, heard := s.heard + 1), acks[0]);
  }

  lemma {:induction false} DigestUpToFailure(u: Setup, s: Supervisor, acks: seq<Ack>, all: seq<Ack>, more: seq<Ack>, rest: seq<Byte>)
    requires Agreed(u) && Failed !in acks
    requires all == acks + [Failed] + more && s.buffer == Wire(u, all) + rest
    ensures var heard := HearEach(s.(buffer := Wire(u, more) + rest), acks);
            Digest(u, s) == heard.(heard := heard.heard + 1, failed := true)
    decreases |acks|
  {
    hide Wire, Line, Digest;
    var taken := DigestOne(u, s, all, rest);
    if acks == [] {
      assert all[1..] == more;
    } else {
      assert all[0] == acks[0] && all[1..] == acks[1..] + [Failed] + more;
      DigestUpToFailure(u, taken, acks[1..], all[1..], more, rest);
    }
  }

  /** A chunk after which whole lines wait: all are heard, unless that is more than 16384 bytes. */
  lemma ReceiveHearsAll(u: Setup, s: Supervisor, chunk: seq<Byte>, acks: seq<Ack>, rest: seq<Byte>)
    requires Agreed(u) && NEWLINE !in rest && Failed !in acks
    requires s.buffer + chunk == Wire(u, acks) + rest
    ensures Receive(u, s, chunk) ==
            if |s.buffer + chunk| > 16384 then s.(buffer := s.buffer + chunk, raised := true)
            else s.(buffer := rest, heard := s.heard + |acks|, saved := s.saved + SavedIn(acks),
                    started := s.started || Allocated in acks)
  {
    hide Wire, SavedIn, Digest;
    DigestHearsAll(u, s.(buffer := s.buffer + chunk), acks, rest);
  }

  /** The report of a failure ends the turn: the lines before it are heard, those after it wait. */
  lemma DigestStopsAtFailure(u: Setup, s: Supervisor, acks: seq<Ack>, more: seq<Ack>, rest: seq<Byte>)
    requires Agreed(u) && Failed !in acks
    requires s.buffer == Wire(u, acks + [Failed] + more) + rest
    ensures Digest(u, s) == s.(buffer := Wire(u, more) + rest, heard := s.heard + |acks| + 1, saved := s.saved + SavedIn(acks),
                               started := s.started || Allocated in acks, failed := true)
  {
    hide Wire, SavedIn, Digest, HearEach;
    DigestUpToFailure(u, s, acks, acks + [Failed] + more, more, rest);
    HearEachMeans(s.(buffer := Wire(u, more) + rest), acks);
  }

  /** In every state that has neither raised nor heard of a failure, the supervisor has digested what it
      has read. */
  lemma {:induction false} RunDigests(u: Setup, actions: seq<Action>)
    ensures var v := Run(u, actions).supervisor; v.raised || v.failed || NEWLINE !in v.buffer
  {
    if actions != [] {
      hide Receive, WorkerStep;
      var before, a := actions[..|actions| - 1], actions[|actions| - 1];
      RunDigests(u, before);
      var s := Run(u, before);
      WorkerLeavesSupervisor(u, s, a);
      if a.Get? && !s.supervisor.raised && a.n <= |s.pipe| {
        FailureStays(u, s.supervisor, s.pipe[..a.n]);
        if !s.supervisor.failed {
          ReceiveLeavesNoLine(u, s.supervisor, s.pipe[..a.n]);
        }
      }
    }
  }

  lemma WorkerLeavesSupervisor(u: Setup, s: System, a: Action)
    ensures WorkerStep(u, s, a).supervisor == s.supervisor
  {
  }

  lemma FailureStays(u: Setup, s: Supervisor, chunk: seq<Byte>)
    ensures s.failed ==> Receive(u, s, chunk).failed
  {
    DigestKeepsFailure(u, s.(buffer := s.buffer + chunk));
  }

  lemma {:induction false} DigestKeepsFailure(u: Setup, s: Supervisor)
    ensures s.failed ==> Digest(u, s).failed
    decreases |s.buffer|
  {
    hide Line, Digest;
    if NEWLINE in s.buffer {
      var taken, a := DigestLine(u, s);
      if a.Some? && !a.value.Failed? {
        DigestKeepsFailure(u, Hear(taken, a.value));
      }
    } else {
      DigestNothing(u, s);
    }
  }

  /** No acknowledgement is lost: when everything the worker printed has been read, and the supervisor has
      neither raised nor heard of a failure, it has heard of every file the worker reported, in order. */
  lemma NoAcknowledgementIsLost(u: Setup, actions: seq<Action>)
    requires Agreed(u)
    requires Run(u, actions).pipe == [] && Run(u, actions).pending == []
    requires !Run(u, actions).supervisor.raised && !Run(u, actions).supervisor.failed
    ensures var s := Run(u, actions); s.supervisor.heard == |s.log| && s.supervisor.saved == SavedIn(s.log)
  {
    RunKeeps(u, actions);
    RunDigests(u, actions);
    var s := Run(u, actions);
    WireHasNewline(u, s.log[s.supervisor.heard..]);
    assert s.log[..|s.log|] == s.log;
  }

  lemma WireHasNewline(u: Setup, log: seq<Ack>)
    ensures NEWLINE in Wire(u, log) <==> log != []
  {
    if log != [] {
      assert (u.wire(log[0]) + [NEWLINE])[|u.wire(log[0])|] == NEWLINE;
      assert Wire(u, log)[|u.wire(log[0])|] == NEWLINE;
    }
  }

  // ----- the protocol can succeed -----

  predicate Peaceful(actions: seq<Action>) {
    forall i :: 0 <= i < |actions| ==> !actions[i].Kill? && !actions[i].Fail?
  }

  lemma RunMore(u: Setup, actions: seq<Action>, a: Action)
    ensures Run(u, actions + [a]) == Step(u, Run(u, actions), a)
    ensures Peaceful(actions) && !a.Kill? && !a.Fail? ==> Peaceful(actions + [a])
  {
    assert (actions + [a])[..|actions|] == actions;
  }

  /** A failure has been reported only of a payload that ended too early. */
  predicate Excused(u: Setup, s: System) {
    s.sent <= |u.payload| && (Failed in s.log ==> s.closed && s.sent < |u.payload|)
  }

  lemma WorkerExcused(u: Setup, s: System, a: Action)
    requires Agreed(u) && Excused(u, s) && !a.Fail?
    ensures Excused(u, WorkerStep(u, s, a))
  {
    assert u.payload[..|u.payload|] == u.payload;
  }

  /** A worker that nothing goes wrong with reports a failure only if its input was closed before all of it
      was sent. */
  lemma {:induction false} FailureHasACause(u: Setup, actions: seq<Action>)
    requires Agreed(u) && Peaceful(actions)
    ensures Excused(u, Run(u, actions))
  {
    if actions != [] {
      hide WorkerStep, Receive;
      var before, a := actions[..|actions| - 1], actions[|actions| - 1];
      FailureHasACause(u, before);
      WorkerExcused(u, Run(u, before), a);
    }
  }

  /** The worker waits with nothing under way, and the supervisor has digested everything. */
  predicate Quiet(s: System) {
    && s.pending == [] && s.pipe == [] && s.supervisor.buffer == [] && !s.supervisor.raised
  }

  /** A line of which `sent` bytes are in the supervisor's buffer, and the rest still with the worker. */
  predicate Underway(s: System, line: seq<Byte>, sent: nat) {
    && sent <= |line| && s.pipe == [] && !s.supervisor.raised
    && s.supervisor.buffer == line[..sent] && s.pending == line[sent..] + [NEWLINE]
  }

  /** What hearing one whole line makes of the system. */
  function AfterLine(s: System, a: Ack): System {
    s.(pending := [], supervisor := Hear(s.supervisor.(buffer := [], heard := s.supervisor.heard + 1), a))
  }

  lemma LineIsWhole(line: seq<Byte>)
    requires NEWLINE !in line
    ensures Line(line + [NEWLINE]) == line
  {
    LineOf(line, [], line + [NEWLINE]);
  }

  lemma DigestsLine(u: Setup, s: Supervisor, line: seq<Byte>, a: Ack)
    requires NEWLINE !in line && u.parse(line) == Some(a) && s.buffer == line + [NEWLINE]
    ensures Digest(u, s) == Hear(s.(buffer := [], heard := s.heard + 1), a)
  {
    hide Line;
    LineIsWhole(line);
    assert s.buffer[|line| + 1..] == [];
  }

  /** One byte crosses the pipe. */
  lemma OneByte(u: Setup, actions: seq<Action>, line: seq<Byte>, sent: nat) returns (more: seq<Action>)
    requires Underway(Run(u, actions), line, sent) && sent < |line|
    requires NEWLINE !in line && |line| < BUFFER_LIMIT && !Run(u, actions).pc.Dead? && Peaceful(actions)
    ensures Peaceful(more) && Underway(Run(u, more), line, sent + 1)
    ensures var s := Run(u, actions);
            Run(u, more) == s.(pending := Run(u, more).pending, supervisor := s.supervisor.(buffer := line[..sent + 1]))
  {
    hide Run;
    var s := Run(u, actions);
    RunMore(u, actions, Emit);
    RunMore(u, actions + [Emit], Get(1));
    more := actions + [Emit] + [Get(1)];
    var t := Run(u, actions + [Emit]);
    assert s.pending[..1] == [line[sent]] && s.pending[1..] == line[sent + 1..] + [NEWLINE];
    assert t.pipe == [line[sent]] && t.pipe[..1] == [line[sent]] && t.pipe[1..] == [];
    assert line[..sent] + [line[sent]] == line[..sent + 1];
    assert NEWLINE !in line[..sent + 1];
  }

  /** A whole acknowledgement crosses the pipe byte by byte and is heard. */
  lemma {:induction false} Deliver(u: Setup, actions: seq<Action>, a: Ack, sent: nat) returns (more: seq<Action>)
    requires Agreed(u) && |u.wire(a)| < BUFFER_LIMIT && Peaceful(actions) && !Run(u, actions).pc.Dead?
    requires Underway(Run(u, actions), u.wire(a), sent)
    ensures Peaceful(more) && Run(u, more) == AfterLine(Run(u, actions), a)
    decreases |u.wire(a)| - sent
  {
    hide Run;
    var line := u.wire(a);
    if sent < |line| {
      var next := OneByte(u, actions, line, sent);
      more := Deliver(u, next, a, sent + 1);
    } else {
      LastByte(u, actions, a);
      more := actions + [Emit] + [Get(1)];
    }
  }

  lemma LastByte(u: Setup, actions: seq<Action>, a: Ack)
    requires Agreed(u) && |u.wire(a)| < BUFFER_LIMIT && Peaceful(actions) && !Run(u, actions).pc.Dead?
    requires Underway(Run(u, actions), u.wire(a), |u.wire(a)|)
    ensures Peaceful(actions + [Emit] + [Get(1)])
    ensures Run(u, actions + [Emit] + [Get(1)]) == AfterLine(Run(u, actions), a)
  {
    hide Run, Digest;
    var s, line := Run(u, actions), u.wire(a);
    RunMore(u, actions, Emit);
    RunMore(u, actions + [Emit], Get(1));
    assert line[|line|..] == [] && line[..|line|] == line && s.pending == [NEWLINE];
    var t := Run(u, actions + [Emit]);
    assert t.pipe == [NEWLINE] && t.pipe[..1] == [NEWLINE] && t.pipe[1..] == [] && t.pending == [];
    DigestsLine(u, s.supervisor.(buffer := line + [NEWLINE]), line, a);
  }

  /** The worker prints and the supervisor hears. */
  lemma PrintAndDeliver(u: Setup, actions: seq<Action>, action: Action, a: Ack, pc: Pc) returns (more: seq<Action>)
    requires Agreed(u) && |u.wire(a)| < BUFFER_LIMIT && Peaceful(actions) && !action.Kill? && !action.Fail? && !pc.Dead?
    requires Quiet(Run(u, actions)) && Step(u, Run(u, actions), action) == Print(u, Run(u, actions), a).(pc := pc)
    ensures var s := Run(u, actions);
            Peaceful(more) && Quiet(Run(u, more)) && Run(u, more) == AfterLine(s.(pc := pc, log := s.log + [a]), a)
  {
    hide Run, Step;
    var s := Run(u, actions);
    RunMore(u, actions, action);
    var t := Run(u, actions + [action]);
    assert u.wire(a)[..0] == [] && u.wire(a)[0..] == u.wire(a);
    assert Underway(t, u.wire(a), 0);
    more := Deliver(u, actions + [action], a, 0);
    assert AfterLine(t, a) == AfterLine(s.(pc := pc, log := s.log + [a]), a);
  }

  /** One file is written whole and put in place. */
  lemma ReplaceFile(u: Setup, actions: seq<Action>, i: nat) returns (more: seq<Action>)
    requires i < |ORDER| && Peaceful(actions)
    requires var s := Run(u, actions); Quiet(s) && s.pc == Opening(i) && s.data == Some(u.contents)
    ensures var s, t := Run(u, actions), Run(u, more);
            Peaceful(more) && Quiet(t) && t.pc == Replaced(i) && t.data == s.data && t.supervisor == s.supervisor
  {
    hide Run;
    var whole := u.contents.Of(ORDER[i]);
    var begun := actions + [Open];
    RunMore(u, actions, Open);
    var written := begun + [Write(|whole|)];
    RunMore(u, begun, Write(|whole|));
    assert whole[..|whole|] == whole;
    more := written + [Replace];
    RunMore(u, written, Replace);
  }

  /** One file is saved and its acknowledgement heard. */
  lemma SaveFile(u: Setup, actions: seq<Action>, i: nat) returns (more: seq<Action>)
    requires Agreed(u) && i < |ORDER| && |u.wire(Saved(ORDER[i]))| < BUFFER_LIMIT && Peaceful(actions)
    requires var s := Run(u, actions); Quiet(s) && s.pc == Opening(i) && s.data == Some(u.contents)
    ensures var s, t := Run(u, actions), Run(u, more);
            && Peaceful(more) && Quiet(t) && t.pc == Next(i) && t.data == s.data
            && t.supervisor.saved == s.supervisor.saved + [ORDER[i]]
  {
    hide Run;
    var replaced := ReplaceFile(u, actions, i);
    more := PrintAndDeliver(u, replaced, Acknowledge, Saved(ORDER[i]), Next(i));
  }

  /** The whole payload arrives and the worker loads it. */
  lemma SendPayload(u: Setup, actions: seq<Action>) returns (more: seq<Action>)
    requires Agreed(u) && Peaceful(actions)
    requires var s := Run(u, actions); Quiet(s) && s.pc == Loading && s.supervisor.started && !s.closed && s.sent == 0
    ensures var s, t := Run(u, actions), Run(u, more);
            && Peaceful(more) && Quiet(t) && t.pc == Opening(0) && t.data == Some(u.contents)
            && t.supervisor.saved == s.supervisor.saved
  {
    hide Run;
    var sent := actions + [Send(|u.payload|)];
    RunMore(u, actions, Send(|u.payload|));
    var closed := sent + [Close];
    RunMore(u, sent, Close);
    more := closed + [Load];
    RunMore(u, closed, Load);
    assert u.payload[..|u.payload|] == u.payload;
  }

  /** The safety theorem is about something: if every acknowledgement line fits the buffer, some run
      without a failure or a kill ends acknowledged. */
  lemma CanBeAcknowledged(u: Setup) returns (actions: seq<Action>)
    requires Agreed(u) && forall a :: |u.wire(a)| < BUFFER_LIMIT
    ensures Peaceful(actions) && Run(u, actions).supervisor.acknowledged
  {
    hide Run, Step, Peaceful;
    var loaded := Start(u);
    var first := SaveFile(u, loaded, 0);
    var second := SaveFile(u, first, 1);
    Acknowledges(u, second);
    actions := second + [Conclude];
  }

  /** The worker allocates and loads the payload. */
  lemma Start(u: Setup) returns (actions: seq<Action>)
    requires Agreed(u) && forall a :: |u.wire(a)| < BUFFER_LIMIT
    ensures var s := Run(u, actions);
            Peaceful(actions) && Quiet(s) && s.pc == Opening(0) && s.data == Some(u.contents) && s.supervisor.saved == []
  {
    assert Run(u, []) == INITIAL;
    hide Run;
    var begun := PrintAndDeliver(u, [], Allocate, Allocated, Loading);
    actions := SendPayload(u, begun);
  }

  lemma Acknowledges(u: Setup, actions: seq<Action>)
    requires Peaceful(actions) && |Run(u, actions).supervisor.saved| == 2
    ensures Peaceful(actions + [Conclude]) && Run(u, actions + [Conclude]).supervisor.acknowledged
  {
    hide Run;
    RunMore(u, actions, Conclude);
  }
}
