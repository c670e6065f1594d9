/** Saturating event counters. */
module Counters {
  import opened Core

  const MAX_COUNT: nat := 0xFFFF_FFFF_FFFF_FFFF

  /** The value of a set of counters: what each holds and whether any has ever overflowed. */
  datatype Tally<K> = Tally(values: map<K, nat>, saturated: bool) {

    function At(key: K): nat {
      if key in values then values[key] else 0
    }

    function Add(key: K, amount: nat): Tally<K> {
      var value := At(key) + amount;
      Tally(values[key := Min(MAX_COUNT, value)], saturated || value > MAX_COUNT)
    }

    function Set(key: K, value: nat): Tally<K> {
      this.(values := values[key := value])
    }
  }

  /** The mutable counters. */
  class Counts<K(==)> {
    var values: map<K, nat>
    var saturated: bool

    function View(): Tally<K>
      reads this
    {
      Tally(values, saturated)
    }

    constructor (initial: map<K, nat>)
      ensures View() == Tally(initial, false)
    {
      values := initial;
      saturated := false;
    }

    method Add(key: K, amount: nat := 1)
      modifies this
      ensures View() == old(View()).Add(key, amount)
    {
      var value := (if key in values then values[key] else 0) + amount;
      if value > MAX_COUNT {
        saturated := true;
      }
      values := values[key := Min(MAX_COUNT, value)];
    }

    method Set(key: K, value: nat)
      modifies this
      ensures View() == old(View()).Set(key, value)
    {
      values := values[key := value];
    }
  }

  // ----- laws -----

  lemma AddMerges<K>(t: Tally<K>, key: K, a: nat, b: nat)
    ensures t.Add(key, a).Add(key, b) == t.Add(key, a + b)
  {
    assert t.values[key := Min(MAX_COUNT, t.At(key) + a)][key := Min(MAX_COUNT, t.At(key) + a + b)]
           == t.values[key := Min(MAX_COUNT, t.At(key) + a + b)];
  }

  lemma AddCommutes<K>(t: Tally<K>, key: K, a: nat, other: K, b: nat)
    requires key != other
    ensures t.Add(key, a).Add(other, b) == t.Add(other, b).Add(key, a)
  {
    var x, y := Min(MAX_COUNT, t.At(key) + a), Min(MAX_COUNT, t.At(other) + b);
    assert t.values[key := x][other := y] == t.values[other := y][key := x];
  }

  /** Everything ever added to one counter. */
  function Total<K(==)>(adds: seq<(K, nat)>, key: K): nat {
    if adds == [] then 0
    else Total(adds[..|adds| - 1], key) + (if adds[|adds| - 1].0 == key then adds[|adds| - 1].1 else 0)
  }

  function Replay<K>(adds: seq<(K, nat)>): Tally<K> {
    if adds == [] then Tally(map[], false)
    else Replay(adds[..|adds| - 1]).Add(adds[|adds| - 1].0, adds[|adds| - 1].1)
  }

  /** No claim of exactness after saturation, and none missing before it: whatever is added and in
      whatever order, a counter holds its total capped at the maximum, and the flag is up exactly
      when some total went past the maximum. */
  lemma {:induction false} SaturationIsHonest<K(!new)>(adds: seq<(K, nat)>)
    ensures forall key :: Replay(adds).At(key) == Min(0xFFFF_FFFF_FFFF_FFFF, Total(adds, key))
    ensures Replay(adds).saturated <==> exists key :: Total(adds, key) > 0xFFFF_FFFF_FFFF_FFFF
  {
    if adds != [] {
      var before, last := adds[..|adds| - 1], adds[|adds| - 1];
      SaturationIsHonest(before);
      forall key
        ensures Replay(adds).At(key) == Min(MAX_COUNT, Total(adds, key))
      {
        AddOne(before, last, key);
        assert before + [last] == adds;
      }
      SaturatesAtLast(before, last);
      assert before + [last] == adds;
    }
  }

  lemma AddOne<K>(before: seq<(K, nat)>, last: (K, nat), key: K)
    requires Replay(before).At(key) == Min(MAX_COUNT, Total(before, key))
    ensures Total(before + [last], key) == Total(before, key) + if last.0 == key then last.1 else 0
    ensures Replay(before + [last]).At(key) == Min(MAX_COUNT, Total(before + [last], key))
  {
    assert (before + [last])[..|before|] == before;
  }

  lemma SaturatesAtLast<K(!new)>(before: seq<(K, nat)>, last: (K, nat))
    requires forall key :: Replay(before).At(key) == Min(MAX_COUNT, Total(before, key))
    requires Replay(before).saturated <==> exists key :: Total(before, key) > MAX_COUNT
    ensures Replay(before + [last]).saturated <==> exists key :: Total(before + [last], key) > MAX_COUNT
  {
    var adds := before + [last];
    assert adds[..|before|] == before;
    var value := Replay(before).At(last.0) + last.1;
    assert Replay(adds).saturated == (Replay(before).saturated || value > MAX_COUNT);
    AddOne(before, last, last.0);
    hide Replay, Total;
    if Replay(adds).saturated {
      var key := if Replay(before).saturated then SomeOverflow(before) else last.0;
      AddOne(before, last, key);
      assert Total(adds, key) > MAX_COUNT;
    }
    if key :| Total(adds, key) > MAX_COUNT {
      AddOne(before, last, key);
      assert key == last.0 || Total(before, key) > MAX_COUNT;
    }
  }

  ghost function SomeOverflow<K(!new)>(adds: seq<(K, nat)>): (key: K)
    requires exists key :: Total(adds, key) > MAX_COUNT
    ensures Total(adds, key) > MAX_COUNT
  {
    var key :| Total(adds, key) > MAX_COUNT;
    key
  }
}
