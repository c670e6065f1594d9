/** The lexicographic order, strings in the order of their code points, and sorting by it. */
module Ordering {

  /** How tuples of numbers compare. */
  predicate Precedes(a: seq<int>, b: seq<int>) {
    a == [] || (b != [] && (a[0] < b[0] || (a[0] == b[0] && Precedes(a[1..], b[1..]))))
  }

  lemma {:induction false} PrecedesIsTotal(a: seq<int>, b: seq<int>)
    ensures Precedes(a, b) || Precedes(b, a)
    ensures Precedes(a, b) && Precedes(b, a) ==> a == b
    ensures Precedes(a, a)
  {
    if a != [] {
      PrecedesIsTotal(a[1..], if b != [] then b[1..] else b);
      assert a == [a[0]] + a[1..];
      assert b != [] ==> b == [b[0]] + b[1..];
    }
  }

  lemma {:induction false} PrecedesIsTransitive(a: seq<int>, b: seq<int>, c: seq<int>)
    requires Precedes(a, b) && Precedes(b, c)
    ensures Precedes(a, c)
  {
    if a != [] && a[0] == b[0] == c[0] {
      PrecedesIsTransitive(a[1..], b[1..], c[1..]);
    }
  }

  /** One sequence precedes another if it is a prefix, or smaller where they first differ. */
  lemma {:induction false} PrecedesMeans(a: seq<int>, b: seq<int>)
    ensures Precedes(a, b) <==> a <= b || exists k :: 0 <= k < |a| && SmallerAt(a, b, k)
  {
    if a != [] && b != [] {
      PrecedesMeans(a[1..], b[1..]);
      assert a == [a[0]] + a[1..] && b == [b[0]] + b[1..];
      if a[0] == b[0] {
        forall k | 0 < k < |a|
          ensures SmallerAt(a, b, k) <==> SmallerAt(a[1..], b[1..], k - 1)
        {
          SmallerAfter(a, b, k);
        }
        if k :| 0 <= k < |a[1..]| && SmallerAt(a[1..], b[1..], k) {
          assert SmallerAt(a, b, k + 1);
        }
      } else if a[0] < b[0] {
        assert SmallerAt(a, b, 0);
      }
    }
  }

  predicate SmallerAt(a: seq<int>, b: seq<int>, k: nat)
    requires k < |a|
  {
    k < |b| && a[..k] == b[..k] && a[k] < b[k]
  }

  lemma SmallerAfter(a: seq<int>, b: seq<int>, k: nat)
    requires b != [] && 0 < k < |a| && a[0] == b[0]
    ensures SmallerAt(a, b, k) <==> SmallerAt(a[1..], b[1..], k - 1)
  {
    if k < |b| {
      assert a[..k] == [a[0]] + a[1..][..k - 1] && b[..k] == [b[0]] + b[1..][..k - 1];
      assert a[..k][1..] == a[1..][..k - 1] && b[..k][1..] == b[1..][..k - 1];
    }
  }

  function CodePoints(s: string): (r: seq<int>)
    ensures |r| == |s|
  {
    seq(|s|, i requires 0 <= i < |s| => s[i] as int)
  }

  predicate AtMost(a: string, b: string) {
    Precedes(CodePoints(a), CodePoints(b))
  }

  lemma CodePointsDiffer(a: string, b: string)
    requires CodePoints(a) == CodePoints(b)
    ensures a == b
  {
    assert |a| == |b|;
    forall i | 0 <= i < |a|
      ensures a[i] == b[i]
    {
      assert CodePoints(a)[i] == a[i] as int && CodePoints(b)[i] == b[i] as int;
    }
  }

  lemma AtMostIsTotal(a: string, b: string)
    ensures AtMost(a, b) || AtMost(b, a)
    ensures AtMost(a, b) && AtMost(b, a) ==> a == b
  {
    PrecedesIsTotal(CodePoints(a), CodePoints(b));
    if CodePoints(a) == CodePoints(b) {
      CodePointsDiffer(a, b);
    }
  }

  lemma AtMostIsTransitive(a: string, b: string, c: string)
    requires AtMost(a, b) && AtMost(b, c)
    ensures AtMost(a, c)
  {
    PrecedesIsTransitive(CodePoints(a), CodePoints(b), CodePoints(c));
  }

  predicate Ascending(s: seq<string>) {
    forall i, j :: 0 <= i < j < |s| ==> AtMost(s[i], s[j])
  }

  predicate NoDuplicates<T(==)>(s: seq<T>) {
    forall i, j :: 0 <= i < j < |s| ==> s[i] != s[j]
  }

  /** Put an element in front of the first with a key no smaller. */
  function InsertBy<T>(key: T -> string, x: T, s: seq<T>): (r: seq<T>)
    ensures multiset(r) == multiset(s) + multiset{x}
  {
    if s == [] then [x]
    else
      assert s == [s[0]] + s[1..];
      if AtMost(key(x), key(s[0])) then [x] + s else [s[0]] + InsertBy(key, x, s[1..])
  }

  /** Sorting by a key; elements with equal keys keep their order. */
  function SortedBy<T>(key: T -> string, s: seq<T>): (r: seq<T>)
    ensures multiset(r) == multiset(s)
    ensures |r| == |s|
  {
    if s == [] then []
    else
      assert s == [s[0]] + s[1..];
      var r := InsertBy(key, s[0], SortedBy(key, s[1..]));
      assert |multiset(r)| == |r| && |multiset(s)| == |s|;
      r
  }

  const ITSELF: string -> string := (x: string) => x

  function Sorted(s: seq<string>): (r: seq<string>)
    ensures multiset(r) == multiset(s)
    ensures |r| == |s|
  {
    SortedBy(ITSELF, s)
  }

  lemma InsertUnfolds<T>(key: T -> string, x: T, s: seq<T>)
    ensures InsertBy(key, x, s) == if s == [] || AtMost(key(x), key(s[0])) then [x] + s else [s[0]] + InsertBy(key, x, s[1..])
    ensures s != [] ==> s == [s[0]] + s[1..]
  {
    assert [x] + [] == [x];
  }

  /** The keys are in order. */
  ghost predicate AscendingBy<T>(key: T -> string, s: seq<T>) {
    forall i, j :: 0 <= i < j < |s| ==> AtMost(key(s[i]), key(s[j]))
  }

  lemma AscendsCons<T>(key: T -> string, x: T, s: seq<T>)
    requires AscendingBy(key, s) && forall y :: y in s ==> AtMost(key(x), key(y))
    ensures AscendingBy(key, [x] + s)
  {
    hide AtMost;
  }

  lemma AscendsTail<T>(key: T -> string, s: seq<T>)
    requires AscendingBy(key, s) && s != []
    ensures AscendingBy(key, s[1..]) && forall y :: y in s[1..] ==> AtMost(key(s[0]), key(y))
  {
    hide AtMost;
  }

  lemma {:induction false} InsertAscends<T>(key: T -> string, x: T, s: seq<T>)
    requires AscendingBy(key, s)
    ensures AscendingBy(key, InsertBy(key, x, s))
  {
    InsertUnfolds(key, x, s);
    hide InsertBy, AtMost;
    if s != [] {
      hide AscendingBy;
      AscendsTail(key, s);
      AtMostIsTotal(key(x), key(s[0]));
      if AtMost(key(x), key(s[0])) {
        forall y | y in s ensures AtMost(key(x), key(y)) {
          if y in s[1..] {
            AtMostIsTransitive(key(x), key(s[0]), key(y));
          } else {
            assert s == [s[0]] + s[1..] && y == s[0];
          }
        }
        AscendsCons(key, x, s);
      } else {
        InsertAscends(key, x, s[1..]);
        var rest := InsertBy(key, x, s[1..]);
        forall y | y in rest
          ensures AtMost(key(s[0]), key(y))
        {
          InsertMember(key, x, s[1..], y);
        }
        AscendsCons(key, s[0], rest);
      }
    }
  }

  lemma InsertMember<T>(key: T -> string, x: T, s: seq<T>, y: T)
    ensures y in InsertBy(key, x, s) <==> y == x || y in s
  {
    assert y in InsertBy(key, x, s) <==> y in multiset(InsertBy(key, x, s));
  }

  /** Sorting by a key puts the keys in order. */
  lemma {:induction false} SortedByAscends<T>(key: T -> string, s: seq<T>)
    ensures AscendingBy(key, SortedBy(key, s))
  {
    hide AtMost;
    if s != [] {
      SortedByAscends(key, s[1..]);
      InsertAscends(key, s[0], SortedBy(key, s[1..]));
    }
  }

  function WithKey<T>(key: T -> string, k: string, s: seq<T>): seq<T> {
    if s == [] then [] else (if key(s[0]) == k then [s[0]] else []) + WithKey(key, k, s[1..])
  }

  lemma AtMostIsReflexive(a: string)
    ensures AtMost(a, a)
  {
    PrecedesIsTotal(CodePoints(a), CodePoints(a));
  }

  lemma WithKeyCons<T>(key: T -> string, k: string, x: T, s: seq<T>)
    ensures WithKey(key, k, [x] + s) == (if key(x) == k then [x] else []) + WithKey(key, k, s)
  {
    assert ([x] + s)[1..] == s;
  }

  lemma SwapEmpty<T>(a: seq<T>, b: seq<T>, w: seq<T>)
    requires a == [] || b == []
    ensures a + (b + w) == b + (a + w)
  {
    if a == [] {
      assert a + (b + w) == b + w && a + w == w;
    } else {
      assert b + w == w && b + (a + w) == a + w;
    }
  }

  lemma {:induction false} InsertIsStable<T>(key: T -> string, k: string, x: T, s: seq<T>)
    ensures WithKey(key, k, InsertBy(key, x, s)) == (if key(x) == k then [x] else []) + WithKey(key, k, s)
  {
    InsertUnfolds(key, x, s);
    hide WithKey, AtMost, InsertBy;
    if s == [] || AtMost(key(x), key(s[0])) {
      WithKeyCons(key, k, x, s);
    } else {
      var rest := s[1..];
      InsertIsStable(key, k, x, rest);
      WithKeyCons(key, k, s[0], InsertBy(key, x, rest));
      WithKeyCons(key, k, s[0], rest);
      AtMostIsReflexive(k);
      SwapEmpty(if key(s[0]) == k then [s[0]] else [], if key(x) == k then [x] else [], WithKey(key, k, rest));
    }
  }

  /** Sorting by a key keeps elements with equal keys in their order. */
  lemma {:induction false} SortedByIsStable<T>(key: T -> string, k: string, s: seq<T>)
    ensures WithKey(key, k, SortedBy(key, s)) == WithKey(key, k, s)
  {
    if s != [] {
      SortedByIsStable(key, k, s[1..]);
      InsertIsStable(key, k, s[0], SortedBy(key, s[1..]));
    }
  }

  lemma SortedAscends(s: seq<string>)
    ensures Ascending(Sorted(s))
  {
    SortedByAscends(ITSELF, s);
    assert forall i, j :: 0 <= i < j < |s| ==> AtMost(ITSELF(Sorted(s)[i]), ITSELF(Sorted(s)[j]));
  }

  lemma BagOfTail<T>(s: seq<T>)
    requires s != []
    ensures s == [s[0]] + s[1..] && multiset(s[1..]) == multiset(s) - multiset{s[0]}
  {
    assert s == [s[0]] + s[1..];
  }

  /** There is one ascending arrangement of a bag of strings. */
  lemma {:induction false} AscendingIsUnique(s: seq<string>, t: seq<string>)
    requires Ascending(s) && Ascending(t) && multiset(s) == multiset(t)
    ensures s == t
  {
    hide AtMost;
    assert |s| == |multiset(s)| == |multiset(t)| == |t|;
    if s != [] {
      assert s[0] in multiset(t) && t[0] in multiset(s);
      AtMostIsTotal(s[0], t[0]);
      AtMostIsTotal(s[0], s[0]);
      BagOfTail(s);
      BagOfTail(t);
      AscendingIsUnique(s[1..], t[1..]);
    }
  }

  lemma SortedIsUnique(s: seq<string>, t: seq<string>)
    requires multiset(s) == multiset(t)
    ensures Sorted(s) == Sorted(t)
  {
    SortedAscends(s);
    SortedAscends(t);
    AscendingIsUnique(Sorted(s), Sorted(t));
  }

  lemma {:induction false} OnceEach<T>(s: seq<T>)
    ensures NoDuplicates(s) <==> forall x :: x in s ==> multiset(s)[x] == 1
  {
    if s != [] {
      OnceEach(s[1..]);
      var x0 := s[0];
      assert s == [x0] + s[1..];
      assert multiset(s) == multiset{x0} + multiset(s[1..]);
      assert forall x :: x in s[1..] <==> x in multiset(s[1..]);
      if NoDuplicates(s) {
        assert x0 !in s[1..] && NoDuplicates(s[1..]);
      }
      if forall x :: x in s ==> multiset(s)[x] == 1 {
        assert x0 !in s[1..] by { assert multiset(s)[x0] == 1; }
        forall x | x in s[1..] ensures multiset(s[1..])[x] == 1 { assert x in s; }
        assert NoDuplicates(s[1..]);
        assert forall j :: 0 < j < |s| ==> s[j] == s[1..][j - 1];
      }
    }
  }

  /** Lists of the same strings without duplicates are the same bag. */
  lemma SameElementsSameBag<T>(s: seq<T>, t: seq<T>)
    requires NoDuplicates(s) && NoDuplicates(t) && forall x :: x in s <==> x in t
    ensures multiset(s) == multiset(t)
  {
    OnceEach(s);
    OnceEach(t);
    forall x
      ensures multiset(s)[x] == multiset(t)[x]
    {
      assert x in multiset(s) <==> x in s;
      assert x in multiset(t) <==> x in t;
    }
  }
}
