/** The five-phase progress slots of the capture parser and the evidence that their transitions
    arrived in order. */
module Chronology {
  import opened Core

  const PHASE_COUNT := 5

  datatype Status = Unobserved | Incomplete | Complete

  datatype Slot = Slot(status: Status, start: Option<real>, completion: Option<real>, took: Option<real>)

  const EMPTY_SLOT := Slot(Unobserved, None, None, None)

  type Phase = p: nat | p < PHASE_COUNT

  datatype Mark =
    | Started(phase: Phase, at: real)
    | Completed(phase: Phase, at: real, took: real)

  type Slots = s: seq<Slot> | |s| == PHASE_COUNT witness [EMPTY_SLOT, EMPTY_SLOT, EMPTY_SLOT, EMPTY_SLOT, EMPTY_SLOT]

  const EMPTY_SLOTS: Slots := [EMPTY_SLOT, EMPTY_SLOT, EMPTY_SLOT, EMPTY_SLOT, EMPTY_SLOT]

  // ----- one transition -----

  predicate Duplicate(slots: Slots, m: Mark) {
    if m.Started? then slots[m.phase].start.Some? else slots[m.phase].completion.Some?
  }

  function Fill(slot: Slot, m: Mark): Slot {
    match m
    case Started(_, at) =>
      slot.(start := Some(at), status := if slot.status == Complete then Complete else Incomplete)
    case Completed(_, at, took) =>
      slot.(completion := Some(at), status := Complete, took := Some(took))
  }

  predicate LaterStarted(slots: Slots, phase: Phase) {
    exists j: Phase :: phase < j && slots[j].start.Some?
  }

  /** The transition disagrees with its own slot. */
  predicate SlotConflict(slot: Slot, m: Mark) {
    match m
    case Started(_, _) => slot.status == Complete
    case Completed(_, at, _) => slot.start.None? || at < slot.start.value
  }

  function Conflicts(slots: Slots, m: Mark): nat {
    (if SlotConflict(slots[m.phase], m) then 1 else 0) + (if LaterStarted(slots, m.phase) then 1 else 0)
  }

  function Place(slots: Slots, m: Mark): Slots {
    slots[m.phase := Fill(slots[m.phase], m)]
  }

  // ----- whole histories -----

  datatype Chronicle = Chronicle(slots: Slots, conflicts: nat, duplicates: nat)

  /** What the parser holds after a history of accepted transitions. */
  function Told(marks: seq<Mark>): Chronicle {
    if marks == [] then Chronicle(EMPTY_SLOTS, 0, 0)
    else
      var c, m := Told(marks[..|marks| - 1]), marks[|marks| - 1];
      if Duplicate(c.slots, m) then c.(duplicates := c.duplicates + 1)
      else c.(slots := Place(c.slots, m), conflicts := c.conflicts + Conflicts(c.slots, m))
  }

  predicate SameEvent(a: Mark, b: Mark) {
    a.phase == b.phase && a.Started? == b.Started?
  }

  predicate Reported(marks: seq<Mark>, m: Mark) {
    exists i :: 0 <= i < |marks| && SameEvent(marks[i], m)
  }

  /** The history without repeats: of each event only its first report. */
  function Fresh(marks: seq<Mark>): seq<Mark> {
    if marks == [] then []
    else
      var before, m := Fresh(marks[..|marks| - 1]), marks[|marks| - 1];
      if Reported(before, m) then before else before + [m]
  }

  predicate Earns(firsts: seq<Mark>, i: int, m: Mark)
    requires 0 <= i < |firsts|
  {
    firsts[i].Started? && firsts[i].phase == m.phase && firsts[i].at <= m.at
  }

  /** Phases in order, and each completion after its own start with elapsed time no smaller. */
  predicate Orderly(firsts: seq<Mark>) {
    && (forall i, j :: 0 <= i < j < |firsts| ==> firsts[i].phase <= firsts[j].phase)
    && (forall j :: 0 <= j < |firsts| && firsts[j].Completed? ==> exists i :: 0 <= i < j && Earns(firsts, i, firsts[j]))
  }

  function StatusOf(slot: Slot): Status {
    if slot.completion.Some? then Complete else if slot.start.Some? then Incomplete else Unobserved
  }

  /** What a slot holds in terms of the history: its two times are those of its first start and
      first completion, and its status follows from which of them are set. */
  predicate Tells(slot: Slot, phase: Phase, firsts: seq<Mark>) {
    && slot.status == StatusOf(slot)
    && (slot.start.Some? <==> exists i :: 0 <= i < |firsts| && firsts[i].phase == phase && firsts[i].Started?)
    && (slot.completion.Some? <==> exists i :: 0 <= i < |firsts| && firsts[i].phase == phase && firsts[i].Completed?)
    && (slot.took.Some? <==> slot.completion.Some?)
    && (forall i :: 0 <= i < |firsts| && firsts[i].phase == phase ==>
          if firsts[i].Started? then slot.start == Some(firsts[i].at)
          else slot.completion == Some(firsts[i].at) && slot.took == Some(firsts[i].took))
  }

  lemma {:induction false} SlotsTell(marks: seq<Mark>)
    ensures forall p: Phase :: Tells(Told(marks).slots[p], p, Fresh(marks))
  {
    if marks != [] {
      var c, m := Told(marks[..|marks| - 1]), marks[|marks| - 1];
      var before := Fresh(marks[..|marks| - 1]);
      SlotsTell(marks[..|marks| - 1]);
      DuplicateMeans(c.slots, before, m);
      if !Duplicate(c.slots, m) {
        forall p: Phase
          ensures Tells(Place(c.slots, m)[p], p, before + [m])
        {
          TellsExtends(c.slots[p], p, before, m);
        }
      }
    }
  }

  lemma DuplicateMeans(slots: Slots, before: seq<Mark>, m: Mark)
    requires Tells(slots[m.phase], m.phase, before)
    ensures Duplicate(slots, m) <==> Reported(before, m)
  {
  }

  lemma TellsExtends(slot: Slot, p: Phase, before: seq<Mark>, m: Mark)
    requires Tells(slot, p, before)
    requires p == m.phase ==> if m.Started? then slot.start.None? else slot.completion.None?
    ensures Tells(if p == m.phase then Fill(slot, m) else slot, p, before + [m])
  {
    var after := before + [m];
    assert forall i :: 0 <= i < |before| ==> after[i] == before[i];
    assert after[|before|] == m;
  }

  /** Extending an orderly history keeps it orderly exactly when the slots see no conflict. */
  lemma OrderlyExtends(slots: Slots, before: seq<Mark>, m: Mark)
    requires forall p: Phase :: Tells(slots[p], p, before)
    requires !Duplicate(slots, m)
    requires Orderly(before)
    ensures Orderly(before + [m]) <==> Conflicts(slots, m) == 0
  {
    var after := before + [m];
    assert forall i :: 0 <= i < |before| ==> after[i] == before[i] && (Earns(after, i, m) <==> Earns(before, i, m));
    assert Tells(slots[m.phase], m.phase, before);
    LaterMeans(slots, before, m.phase);
    CompletedStarted(slots[m.phase], m.phase, before);
    if Conflicts(slots, m) == 0 {
      if m.Completed? {
        var i :| 0 <= i < |before| && before[i].phase == m.phase && before[i].Started?;
        assert Earns(after, i, m);
      }
      forall j | 0 <= j < |after| && after[j].Completed?
        ensures exists i :: 0 <= i < j && Earns(after, i, after[j])
      {
        if j < |before| {
          var i :| 0 <= i < j && Earns(before, i, before[j]);
          assert Earns(after, i, after[j]);
        }
      }
    } else if LaterStarted(slots, m.phase) {
      var i :| 0 <= i < |before| && before[i].phase > m.phase;
      assert after[i].phase > after[|before|].phase;
    } else {
      assert m.Completed?;
      assert forall i :: 0 <= i < |before| && before[i].Started? && before[i].phase == m.phase ==>
                           slots[m.phase].start == Some(before[i].at);
      assert forall i :: 0 <= i < |before| ==> !Earns(after, i, after[|before|]);
      assert after[|before|].Completed?;
    }
  }

  /** In an orderly history a phase that has completed has started. */
  lemma CompletedStarted(slot: Slot, phase: Phase, before: seq<Mark>)
    requires Tells(slot, phase, before)
    requires Orderly(before)
    ensures slot.completion.Some? ==> slot.start.Some?
  {
    if slot.completion.Some? {
      var j :| 0 <= j < |before| && before[j].phase == phase && before[j].Completed?;
      var i :| 0 <= i < j && Earns(before, i, before[j]);
    }
  }

  /** In an orderly history a later phase has been heard of exactly when it has started. */
  lemma LaterMeans(slots: Slots, before: seq<Mark>, phase: Phase)
    requires forall p: Phase :: Tells(slots[p], p, before)
    requires Orderly(before)
    ensures LaterStarted(slots, phase) <==> exists i :: 0 <= i < |before| && before[i].phase > phase
  {
    if LaterStarted(slots, phase) {
      var p: Phase :| phase < p && slots[p].start.Some?;
      assert Tells(slots[p], p, before);
    }
    if i :| 0 <= i < |before| && before[i].phase > phase {
      var p := before[i].phase;
      assert Tells(slots[p], p, before);
      if before[i].Completed? {
        var k :| 0 <= k < i && Earns(before, k, before[i]);
      }
    }
  }

  lemma {:induction false} OrderlyPrefix(firsts: seq<Mark>, m: Mark)
    requires Orderly(firsts + [m])
    ensures Orderly(firsts)
  {
    var after := firsts + [m];
    assert forall i :: 0 <= i < |firsts| ==> after[i] == firsts[i];
    forall j | 0 <= j < |firsts| && firsts[j].Completed?
      ensures exists i :: 0 <= i < j && Earns(firsts, i, firsts[j])
    {
      assert after[j].Completed?;
      var i :| 0 <= i < j && Earns(after, i, after[j]);
      assert Earns(firsts, i, firsts[j]);
    }
  }

  /** The conflict counter is a faithful witness: it stays zero exactly for orderly histories. */
  lemma {:induction false} ChronologyIsExact(marks: seq<Mark>)
    ensures Told(marks).conflicts == 0 <==> Orderly(Fresh(marks))
  {
    if marks != [] {
      var c, m := Told(marks[..|marks| - 1]), marks[|marks| - 1];
      var before := Fresh(marks[..|marks| - 1]);
      ChronologyIsExact(marks[..|marks| - 1]);
      SlotsTell(marks[..|marks| - 1]);
      assert Tells(c.slots[m.phase], m.phase, before);
      DuplicateMeans(c.slots, before, m);
      if !Duplicate(c.slots, m) {
        if Orderly(before) {
          OrderlyExtends(c.slots, before, m);
        } else if Orderly(before + [m]) {
          OrderlyPrefix(before, m);
        }
      }
    }
  }

  /** What is out of order about the newest of some first reports: it starts a phase that has completed,
      or completes one that has not started or only later; and some later phase has started already. */
  function Faults(before: seq<Mark>, m: Mark): nat {
    (if m.Started? then if exists i :: 0 <= i < |before| && before[i].Completed? && before[i].phase == m.phase then 1 else 0
     else if exists i :: 0 <= i < |before| && Earns(before, i, m) then 0 else 1)
    + if exists i :: 0 <= i < |before| && before[i].Started? && before[i].phase > m.phase then 1 else 0
  }

  function AllFaults(firsts: seq<Mark>): nat {
    if firsts == [] then 0 else AllFaults(firsts[..|firsts| - 1]) + Faults(firsts[..|firsts| - 1], firsts[|firsts| - 1])
  }

  lemma ConflictsAreFaults(slots: Slots, before: seq<Mark>, m: Mark)
    requires forall p: Phase :: Tells(slots[p], p, before)
    requires !Duplicate(slots, m)
    ensures Conflicts(slots, m) == Faults(before, m)
  {
    assert Tells(slots[m.phase], m.phase, before);
    LaterStartedMeans(slots, before, m.phase);
    OwnConflictMeans(slots[m.phase], before, m);
  }

  lemma LaterStartedMeans(slots: Slots, before: seq<Mark>, phase: Phase)
    requires forall p: Phase :: Tells(slots[p], p, before)
    ensures LaterStarted(slots, phase) <==> exists i :: 0 <= i < |before| && before[i].Started? && before[i].phase > phase
  {
    if LaterStarted(slots, phase) {
      var p: Phase :| phase < p && slots[p].start.Some?;
      assert Tells(slots[p], p, before);
    }
    if i :| 0 <= i < |before| && before[i].Started? && before[i].phase > phase {
      assert Tells(slots[before[i].phase], before[i].phase, before);
    }
  }

  lemma OwnConflictMeans(slot: Slot, before: seq<Mark>, m: Mark)
    requires Tells(slot, m.phase, before)
    ensures m.Started? ==>
              (SlotConflict(slot, m) <==> exists i :: 0 <= i < |before| && before[i].Completed? && before[i].phase == m.phase)
    ensures m.Completed? ==> (SlotConflict(slot, m) <==> !exists i :: 0 <= i < |before| && Earns(before, i, m))
  {
    if m.Completed? && slot.start.Some? {
      var i :| 0 <= i < |before| && before[i].phase == m.phase && before[i].Started?;
      assert Earns(before, i, m) <==> slot.start.value <= m.at;
    }
  }

  /** Both counters say exactly what happened: how many reports repeat an earlier one, and how much is out
      of order among the others. */
  lemma {:induction false} CountersTell(marks: seq<Mark>)
    ensures Told(marks).conflicts == AllFaults(Fresh(marks))
    ensures Told(marks).duplicates == |marks| - |Fresh(marks)|
  {
    if marks != [] {
      hide Tells, Conflicts, Faults, Place, Duplicate, Reported;
      var c, m := Told(marks[..|marks| - 1]), marks[|marks| - 1];
      var before := Fresh(marks[..|marks| - 1]);
      CountersTell(marks[..|marks| - 1]);
      SlotsTell(marks[..|marks| - 1]);
      DuplicateIsReported(c.slots, before, m);
      if !Duplicate(c.slots, m) {
        ConflictsAreFaults(c.slots, before, m);
        assert (before + [m])[..|before|] == before;
      }
    }
  }

  lemma DuplicateIsReported(slots: Slots, before: seq<Mark>, m: Mark)
    requires forall p: Phase :: Tells(slots[p], p, before)
    ensures Duplicate(slots, m) <==> Reported(before, m)
  {
    assert Tells(slots[m.phase], m.phase, before);
    DuplicateMeans(slots, before, m);
  }

  /** Once recorded, a time is never replaced, and a status never moves back. */
  lemma {:induction false} SlotsNeverMoveBack(marks: seq<Mark>, more: seq<Mark>, p: Phase)
    ensures var early, late := Told(marks).slots[p], Told(marks + more).slots[p];
            && (early.start.Some? ==> late.start == early.start)
            && (early.completion.Some? ==> late.completion == early.completion && late.took == early.took)
            && (early.status.Incomplete? ==> !late.status.Unobserved?)
            && (early.status.Complete? ==> late.status.Complete?)
  {
    if more == [] {
      assert marks + more == marks;
    } else {
      assert (marks + more)[..|marks + more| - 1] == marks + more[..|more| - 1];
      SlotsNeverMoveBack(marks, more[..|more| - 1], p);
      SlotsTell(marks);
      SlotsTell(marks + more[..|more| - 1]);
      assert Tells(Told(marks).slots[p], p, Fresh(marks));
      assert Tells(Told(marks + more[..|more| - 1]).slots[p], p, Fresh(marks + more[..|more| - 1]));
    }
  }
}
