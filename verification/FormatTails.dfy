/** Rendering the two captured tails into one display of bounded size. Space is split evenly, what
    one stream leaves over goes to the other, and a tail that still does not fit is cut by a binary
    search over a predicate that is not monotone. */
module FormatTails {
  import opened Core
  import opened Utf8

  const STDOUT: Text := Ascii("stdout:\n")
  const STDERR: Text := Ascii("stderr:\n")
  const LF: Text := Ascii("\n")

  /** The bytes of a header and the closing newline. */
  const FRAME := 9

  const LEAST_BUDGET := 40

  datatype Account = Account(display: nat, represented: nat, omitted: nat, truncated: bool)

  datatype Overrun = Overrun

  function Header(i: nat): Text {
    if i == 0 then STDOUT else STDERR
  }

  function Size(t: Text): nat {
    |Encode(t)|
  }

  function Suffix(raw: seq<Byte>, n: nat): seq<Byte>
    requires n <= |raw|
  {
    raw[|raw| - n..]
  }

  // ----- sharing the budget -----

  function Share(budget: int, i: nat): int {
    if i == 0 then budget / 2 else budget - budget / 2
  }

  /** One turn of the transfer: stream `i` hands what it does not need to the other. */
  function Transfer(sizes: seq<nat>, allocations: seq<int>, i: nat): (r: seq<int>)
    requires |sizes| == |allocations| == 2 && i < 2
    ensures |r| == 2
  {
    if sizes[i] < allocations[i]
    then allocations[1 - i := allocations[1 - i] + allocations[i] - sizes[i]][i := sizes[i]]
    else allocations
  }

  function Allocate(sizes: seq<nat>, budget: int): (r: seq<int>)
    requires |sizes| == 2
    ensures |r| == 2
  {
    Transfer(sizes, Transfer(sizes, [Share(budget, 0), Share(budget, 1)], 0), 1)
  }

  /** The whole budget is handed out; each stream gets at least the smaller of its size and its half;
      both get all they need if that is possible. */
  lemma SharesAreFair(sizes: seq<nat>, budget: int)
    requires |sizes| == 2
    ensures var a := Allocate(sizes, budget);
            && a[0] + a[1] == budget
            && (forall i :: 0 <= i < 2 ==> a[i] >= Min(sizes[i], budget / 2))
            && (sizes[0] + sizes[1] <= budget <==> a[0] >= sizes[0] && a[1] >= sizes[1])
            && (sizes[0] >= budget / 2 && sizes[1] >= budget - budget / 2 ==> a == [budget / 2, budget - budget / 2])
            && (sizes[0] + sizes[1] > budget && sizes[0] <= budget / 2 ==> a[0] == sizes[0])
            && (sizes[0] + sizes[1] > budget && sizes[1] <= budget - budget / 2 ==> a[1] == sizes[1])
  {
  }

  // ----- cutting one tail -----

  function Cut(raw: seq<Byte>, n: nat): Text
    requires n <= |raw|
  {
    if n == 0 then MARK else MARK + DecodeReplace(Suffix(raw, n))
  }

  /** Whether a given number of raw bytes, marked as cut, fits a room. */
  function Fits(raw: seq<Byte>, room: nat): nat -> bool {
    (n: nat) => n <= |raw| && Size(Cut(raw, n)) <= room
  }

  function Middle(low: nat, high: nat): (middle: nat)
    requires low < high
    ensures low < middle <= high
  {
    (low + high + 1) / 2
  }

  /** The binary search, over any predicate at all. */
  function Narrow(fits: nat -> bool, low: nat, high: nat): (n: nat)
    requires low <= high
    ensures low <= n <= high
    decreases high - low
  {
    if low == high then low
    else
      var middle := Middle(low, high);
      if fits(middle) then Narrow(fits, middle, high) else Narrow(fits, low, middle - 1)
  }

  /** Without monotonicity the search still ends on a length that fits (or on nothing) and that
      cannot be lengthened by one byte. */
  lemma {:induction false} NarrowIsLocallyBest(fits: nat -> bool, low: nat, high: nat, top: nat)
    requires low <= high <= top
    requires low == 0 || fits(low)
    requires high == top || !fits(high + 1)
    ensures var n := Narrow(fits, low, high);
            (n == 0 || fits(n)) && (n == top || !fits(n + 1))
    decreases high - low
  {
    if low < high {
      var middle := Middle(low, high);
      hide Middle;
      if fits(middle) {
        NarrowIsLocallyBest(fits, middle, high, top);
      } else {
        NarrowIsLocallyBest(fits, low, middle - 1, top);
      }
    }
  }

  /** The search's predicate is not monotone: half a code point can cost more than all of it. */
  lemma FittingIsNotMonotone()
    ensures var fits := Fits([0xE2, 0x82, 0xAC], 14);
            fits(1) && !fits(2) && fits(3)
  {
    var euro: seq<Byte> := [0xE2, 0x82, 0xAC];
    MarkSize(0);
    assert Suffix(euro, 1) == [0xAC] && Suffix(euro, 2) == [0x82, 0xAC] && Suffix(euro, 3) == euro;
    assert [0x82 as Byte, 0xAC][1..] == [0xAC] && [0xAC as Byte][1..] == [] && euro[3..] == [];
    assert DecodeReplace([0xAC]) == [REPLACEMENT];
    assert DecodeReplace([0x82, 0xAC]) == [REPLACEMENT, REPLACEMENT];
    assert DecodeReplace(euro) == [0x20AC];
    EncodeConcat(MARK, [REPLACEMENT]);
    EncodeConcat(MARK, [REPLACEMENT, REPLACEMENT]);
    EncodeConcat(MARK, [0x20AC]);
    assert [REPLACEMENT, REPLACEMENT][1..] == [REPLACEMENT];
  }

  lemma FrameSizes(i: nat)
    ensures Size(Header(i)) == FRAME - 1 && Size(LF) == 1
  {
    PlainSize(Header(i));
    PlainSize(LF);
  }

  /** What is shown of a tail in a given room, and how many of its bytes that represents. */
  function Show(raw: seq<Byte>, room: nat): (r: (Text, nat))
    ensures r.1 <= |raw|
  {
    if Size(DecodeReplace(raw)) <= room then (DecodeReplace(raw), |raw|)
    else var n := Narrow(Fits(raw, room), 0, |raw|); (Cut(raw, n), n)
  }

  lemma CutSize(raw: seq<Byte>, n: nat)
    requires n <= |raw|
    ensures |MARK| <= Size(Cut(raw, n)) <= |MARK| + 3 * n
    ensures n == |raw| > 0 ==> Size(Cut(raw, n)) == |MARK| + Size(DecodeReplace(raw))
  {
    MarkSize(0);
    EncodeConcat(MARK, DecodeReplace(Suffix(raw, n)));
    ReplaceExpansion(Suffix(raw, n));
    assert n == |raw| ==> Suffix(raw, n) == raw;
  }

  /** The shown text fits whenever the bare mark does; a cut tail is shorter than the whole, cannot
      be lengthened by a byte, and never throws away more than two thirds of the room. */
  lemma ShownFits(raw: seq<Byte>, room: nat)
    ensures var (tail, n) := Show(raw, room);
            && (room >= |MARK| ==> Size(tail) <= room)
            && (Size(DecodeReplace(raw)) > room ==>
                  && n < |raw| && tail == Cut(raw, n) && Size(tail) >= |MARK|
                  && Size(Cut(raw, n + 1)) > room
                  && 3 * (n + 1) + |MARK| > room)
  {
    if Size(DecodeReplace(raw)) > room {
      var n := Narrow(Fits(raw, room), 0, |raw|);
      NarrowIsLocallyBest(Fits(raw, room), 0, |raw|, |raw|);
      CutFits(raw, room, n);
    }
  }

  lemma CutFits(raw: seq<Byte>, room: nat, n: nat)
    requires Size(DecodeReplace(raw)) > room && n <= |raw|
    requires (n == 0 || Fits(raw, room)(n)) && (n == |raw| || !Fits(raw, room)(n + 1))
    ensures n < |raw| && |MARK| <= Size(Cut(raw, n)) && (room >= |MARK| ==> Size(Cut(raw, n)) <= room)
    ensures Size(Cut(raw, n + 1)) > room && 3 * (n + 1) + |MARK| > room
  {
    hide Cut, DecodeReplace, Size;
    SizeOfNothing(raw);
    CutSize(raw, |raw|);
    CutSize(raw, n);
    if n < |raw| {
      CutSize(raw, n + 1);
    }
  }

  lemma SizeOfNothing(raw: seq<Byte>)
    ensures raw == [] ==> Size(DecodeReplace(raw)) == 0
  {
  }

  // ----- the whole display -----

  /** What a reader finds for a stream, given its accounting: the whole tail decoded, or the mark and the
      last bytes that are represented, decoded. */
  function Found(raw: seq<Byte>, account: Account): Text {
    if !account.truncated then DecodeReplace(raw)
    else
      Ascii("[truncated]") + DecodeReplace(raw[|raw| - Min(account.represented, |raw|)..])
  }

  /** What a reader finds altogether. */
  predicate Reads(text: Text, raws: seq<seq<Byte>>, accounting: seq<Account>)
    requires |raws| == |accounting| == 2
  {
    && text == Ascii("stdout:\n") + Found(raws[0], accounting[0]) + Ascii("\n")
               + (Ascii("stderr:\n") + Found(raws[1], accounting[1]) + Ascii("\n"))
    && forall i :: 0 <= i < 2 ==>
         && accounting[i].display == |Encode(Found(raws[i], accounting[i]))|
         && accounting[i].represented + accounting[i].omitted == |raws[i]|
         && (accounting[i].truncated <==> accounting[i].omitted > 0)
  }

  lemma ShowIsFound(raw: seq<Byte>, allocation: int)
    ensures Show(raw, Room(allocation)).0 == Found(raw, Accounting(raw, allocation))
  {
    ShownFits(raw, Room(allocation));
    EmptyDecodes();
    hide DecodeReplace, Narrow;
    var (tail, n) := Show(raw, Room(allocation));
    if n == 0 && n != |raw| {
      assert raw[|raw|..] == [];
      assert MARK + [] == MARK;
    }
  }

  lemma EmptyDecodes()
    ensures DecodeReplace([]) == []
  {
  }

  lemma PartsRead(raws: seq<seq<Byte>>, a: seq<int>)
    requires |raws| == |a| == 2
    ensures Reads(Part(raws[0], a[0], 0) + Part(raws[1], a[1], 1), raws, [Accounting(raws[0], a[0]), Accounting(raws[1], a[1])])
  {
    ShowIsFound(raws[0], a[0]);
    ShowIsFound(raws[1], a[1]);
    hide Found, Ascii, Encode, Show;
  }

  function Room(allocation: int): nat {
    Max(0, allocation - FRAME)
  }

  function Part(raw: seq<Byte>, allocation: int, i: nat): Text {
    Header(i) + Show(raw, Room(allocation)).0 + LF
  }

  function Accounting(raw: seq<Byte>, allocation: int): Account {
    var (tail, n) := Show(raw, Room(allocation));
    Account(Size(tail), n, |raw| - n, n != |raw|)
  }

  /** The sizes by which the budget is shared: those of the tails supplied, framed. */
  function TailSizes(tails: seq<Text>): (r: seq<nat>)
    requires |tails| == 2
    ensures |r| == 2
  {
    [FRAME + Size(tails[0]), FRAME + Size(tails[1])]
  }

  /** The sizes when the tails supplied are the decoded raw tails, as a snapshot makes them. */
  function Sizes(raws: seq<seq<Byte>>): (r: seq<nat>)
    requires |raws| == 2
    ensures |r| == 2
  {
    TailSizes([DecodeReplace(raws[0]), DecodeReplace(raws[1])])
  }

  /** The display of two raw tails when the budget is shared by these sizes. */
  function Shared(sizes: seq<nat>, raws: seq<seq<Byte>>, budget: int): Text
    requires |sizes| == |raws| == 2
  {
    var a := Allocate(sizes, budget);
    Part(raws[0], a[0], 0) + Part(raws[1], a[1], 1)
  }

  /** The display of raw tails with their own decoded text, as a snapshot supplies them. */
  function Display(raws: seq<seq<Byte>>, budget: int): Text
    requires |raws| == 2
  {
    Shared(Sizes(raws), raws, budget)
  }

  lemma FramedSize(tail: Text, i: nat)
    ensures Size(Header(i) + tail + LF) == FRAME + Size(tail)
  {
    FrameSizes(i);
    EncodeConcat(Header(i) + tail, LF);
    EncodeConcat(Header(i), tail);
  }

  /** One tail. The loop that follows the search in the source, shortening while something is retained
      and too big, never turns: its guard is refuted by the last assertion. */
  method CutTail(raw: seq<Byte>, room: nat) returns (tail: Text, retained: nat)
    ensures (tail, retained) == Show(raw, room)
  {
    hide Size, Cut, DecodeReplace;
    ghost var fits := Fits(raw, room);
    retained := |raw|;
    tail := DecodeReplace(raw);
    if Size(tail) <= room {
      return;
    }
    var low: nat, high: nat := 0, |raw|;
    while low < high
      invariant low <= high <= |raw|
      invariant low == 0 || fits(low)
      invariant Narrow(fits, low, high) == Narrow(fits, 0, |raw|)
    {
      var middle := Middle(low, high);
      if Size(Cut(raw, middle)) <= room {
        low := middle;
      } else {
        high := middle - 1;
      }
    }
    retained := low;
    tail := Cut(raw, retained);
    assert retained == 0 || Size(tail) <= room;
  }

  method AllocateBoth(sizes: seq<nat>, budget: int) returns (allocations: seq<int>)
    requires |sizes| == 2
    ensures allocations == Allocate(sizes, budget)
  {
    allocations := [Share(budget, 0), Share(budget, 1)];
    for i := 0 to 2
      invariant |allocations| == 2
      invariant i == 1 ==> allocations == Transfer(sizes, [Share(budget, 0), Share(budget, 1)], 0)
      invariant i == 0 ==> allocations == [Share(budget, 0), Share(budget, 1)]
      invariant i == 2 ==> allocations == Allocate(sizes, budget)
    {
      if sizes[i] < allocations[i] {
        allocations := allocations[1 - i := allocations[1 - i] + allocations[i] - sizes[i]];
        allocations := allocations[i := sizes[i]];
      }
    }
  }

  method ShowBoth(raws: seq<seq<Byte>>, allocations: seq<int>) returns (text: Text, accounting: seq<Account>)
    requires |raws| == |allocations| == 2
    ensures text == Part(raws[0], allocations[0], 0) + Part(raws[1], allocations[1], 1)
    ensures accounting == [Accounting(raws[0], allocations[0]), Accounting(raws[1], allocations[1])]
  {
    hide Encode, DecodeReplace, Narrow, Show;
    text, accounting := [], [];
    for i := 0 to 2
      invariant i == 0 ==> text == [] && accounting == []
      invariant i == 1 ==> text == Part(raws[0], allocations[0], 0) && accounting == [Accounting(raws[0], allocations[0])]
      invariant i == 2 ==> text == Part(raws[0], allocations[0], 0) + Part(raws[1], allocations[1], 1)
      invariant i == 2 ==> accounting == [Accounting(raws[0], allocations[0]), Accounting(raws[1], allocations[1])]
    {
      var tail, retained := CutTail(raws[i], Room(allocations[i]));
      text := text + (Header(i) + tail + LF);
      accounting := accounting + [Account(Size(tail), retained, |raws[i]| - retained, retained != |raws[i]|)];
    }
  }

  /** The tails supplied only share out the budget; what is shown comes from the raw tails. */
  method Format(tails: seq<Text>, raws: seq<seq<Byte>>, budget: int) returns (r: Result<(Text, seq<Account>), Overrun>)
    requires |tails| == |raws| == 2
    ensures r.Ok? <==> Size(Shared(TailSizes(tails), raws, budget)) <= budget
    ensures r.Ok? ==> r.value.0 == Shared(TailSizes(tails), raws, budget)
    ensures r.Ok? ==> var a := Allocate(TailSizes(tails), budget);
                      r.value.1 == [Accounting(raws[0], a[0]), Accounting(raws[1], a[1])]
    ensures r.Ok? ==> |r.value.1| == 2 && Reads(r.value.0, raws, r.value.1)
  {
    hide Size, DecodeReplace, Part, Allocate, Accounting, Reads;
    PartsRead(raws, Allocate(TailSizes(tails), budget));
    FramedSize(tails[0], 0);
    FramedSize(tails[1], 1);
    var sizes: seq<nat> := [Size(STDOUT + tails[0] + LF), Size(STDERR + tails[1] + LF)];
    var allocations := AllocateBoth(sizes, budget);
    var text, accounting := ShowBoth(raws, allocations);
    if Size(text) > budget {
      return Err(Overrun);
    }
    return Ok((text, accounting));
  }

  lemma DisplaySize(raws: seq<seq<Byte>>, budget: int)
    requires |raws| == 2
    ensures var a := Allocate(Sizes(raws), budget);
            Size(Display(raws, budget))
            == 2 * FRAME + Size(Show(raws[0], Room(a[0])).0) + Size(Show(raws[1], Room(a[1])).0)
  {
    var a := Allocate(Sizes(raws), budget);
    FramedSize(Show(raws[0], Room(a[0])).0, 0);
    FramedSize(Show(raws[1], Room(a[1])).0, 1);
    EncodeConcat(Part(raws[0], a[0], 0), Part(raws[1], a[1], 1));
  }

  /** From the least budget on, the display always fits. Each stream shows everything or fills its
      share: at least half the budget, up to a mark and one replaced byte; bytes shown and omitted
      make up the raw tail; and nothing is cut when both tails fit together. */
  lemma DisplayStaysInBudget(raws: seq<seq<Byte>>, budget: int)
    requires |raws| == 2
    requires budget >= LEAST_BUDGET
    ensures Size(Display(raws, budget)) <= budget
    ensures var a := Allocate(Sizes(raws), budget);
            Reads(Display(raws, budget), raws, [Accounting(raws[0], a[0]), Accounting(raws[1], a[1])])
    ensures var sizes, a := Sizes(raws), Allocate(Sizes(raws), budget);
            forall i :: 0 <= i < 2 ==>
              var account := Accounting(raws[i], a[i]);
              && account.represented + account.omitted == |raws[i]|
              && account.truncated == (account.omitted > 0)
              && FRAME + account.display <= a[i]
              && (account.truncated ==>
                    sizes[0] + sizes[1] > budget && 3 * (account.represented + 1) + |MARK| + FRAME > budget / 2)
  {
    var sizes, a := Sizes(raws), Allocate(Sizes(raws), budget);
    SharesAreFair(sizes, budget);
    TailStaysInShare(raws, budget, 0);
    TailStaysInShare(raws, budget, 1);
    DisplaySize(raws, budget);
    DisplayReads(raws, budget);
    hide Allocate, Size, Show, Reads, Sizes, Accounting, Display;
  }

  lemma DisplayReads(raws: seq<seq<Byte>>, budget: int)
    requires |raws| == 2
    ensures var a := Allocate(Sizes(raws), budget);
            Reads(Display(raws, budget), raws, [Accounting(raws[0], a[0]), Accounting(raws[1], a[1])])
  {
    hide Allocate, Reads, Part, Accounting, Sizes;
    PartsRead(raws, Allocate(Sizes(raws), budget));
  }

  lemma TailStaysInShare(raws: seq<seq<Byte>>, budget: int, i: nat)
    requires |raws| == 2 && i < 2 && budget >= LEAST_BUDGET
    ensures var sizes, a := Sizes(raws), Allocate(Sizes(raws), budget)[i];
            var account := Accounting(raws[i], a);
            && account.represented + account.omitted == |raws[i]|
            && account.truncated == (account.omitted > 0)
            && FRAME + account.display <= a
            && (account.truncated ==>
                  sizes[0] + sizes[1] > budget && 3 * (account.represented + 1) + |MARK| + FRAME > budget / 2)
  {
    ShareIsEnough(Sizes(raws), budget, i);
    hide Allocate;
    var a := Allocate(Sizes(raws), budget)[i];
    MarkSize(0);
    ShownFits(raws[i], Room(a));
  }

  lemma ShareIsEnough(sizes: seq<nat>, budget: int, i: nat)
    requires |sizes| == 2 && i < 2 && sizes[i] >= FRAME
    requires budget >= LEAST_BUDGET
    ensures var a := Allocate(sizes, budget)[i];
            && a >= FRAME
            && (a < sizes[i] ==> a >= budget / 2 && a - FRAME >= |MARK| && sizes[0] + sizes[1] > budget)
  {
    SharesAreFair(sizes, budget);
  }

  /** Two big tails take a mark each, so they overrun every smaller budget. */
  lemma BigTailsOverrun(raws: seq<seq<Byte>>, budget: int)
    requires |raws| == 2
    requires forall i :: 0 <= i < 2 ==> Size(DecodeReplace(raws[i])) >= LEAST_BUDGET
    requires budget < LEAST_BUDGET
    ensures Size(Display(raws, budget)) > budget
  {
    var a := Allocate(Sizes(raws), budget);
    SharesAreFair(Sizes(raws), budget);
    ShownFits(raws[0], Room(a[0]));
    ShownFits(raws[1], Room(a[1]));
    DisplaySize(raws, budget);
  }

  lemma {:induction false} PlainDecodes(raw: seq<Byte>)
    requires forall i :: 0 <= i < |raw| ==> raw[i] < 0x80
    ensures Size(DecodeReplace(raw)) == |raw|
  {
    if raw != [] {
      assert Take(raw, false) == (Point(raw[0]), 1);
      PlainDecodes(raw[1..]);
      assert ([raw[0] as CodePoint] + DecodeReplace(raw[1..]))[1..] == DecodeReplace(raw[1..]);
    }
  }

  /** The least budget is exact: it is the smallest that holds the display of every pair of tails. */
  lemma LeastBudgetIsExact(budget: int)
    ensures (forall raws: seq<seq<Byte>> :: |raws| == 2 ==> Size(Display(raws, budget)) <= budget) <==> budget >= LEAST_BUDGET
  {
    if budget >= LEAST_BUDGET {
      forall raws: seq<seq<Byte>> | |raws| == 2
        ensures Size(Display(raws, budget)) <= budget
      {
        DisplayStaysInBudget(raws, budget);
      }
    } else {
      var raw: seq<Byte> := seq(LEAST_BUDGET, _ => 120);
      PlainDecodes(raw);
      BigTailsOverrun([raw, raw], budget);
    }
  }
}
