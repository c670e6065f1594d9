/** Types shared by every component of the model. */
module Core {

  type Byte = b: int | 0 <= b < 256

  const NEWLINE: Byte := 10

  datatype Option<+T> = None | Some(value: T)

  /** A source routine that raises returns `Err` here. */
  datatype Result<+T, +E> = Ok(value: T) | Err(error: E)

  function Min(a: int, b: int): int {
    if a <= b then a else b
  }

  lemma ConcatAssociates<T>(a: seq<T>, b: seq<T>, c: seq<T>)
    ensures a + (b + c) == (a + b) + c
  {
  }

  /** The first element of a concatenation, and what follows it. */
  lemma ConcatTail<T>(a: seq<T>, b: seq<T>)
    requires a != []
    ensures (a + b)[0] == a[0] && (a + b)[1..] == a[1..] + b
  {
  }

  function Max(a: int, b: int): int {
    if a <= b then b else a
  }

  /** The ASCII decimal digits of a number. */
  function Decimal(n: nat): (r: seq<Byte>)
    ensures |r| >= 1
    ensures forall b :: b in r ==> 48 <= b < 58
  {
    if n < 10 then [48 + n] else Decimal(n / 10) + [48 + n % 10]
  }

  /** The number that decimal digits spell. */
  function Value(digits: seq<Byte>): int {
    if digits == [] then 0 else 10 * Value(digits[..|digits| - 1]) + (digits[|digits| - 1] as int - 48)
  }

  lemma {:induction false} DecimalReadsBack(n: nat)
    ensures Value(Decimal(n)) == n && (n > 0 ==> Decimal(n)[0] != 48)
  {
    if n < 10 {
      assert Decimal(n)[..0] == [];
    } else {
      DecimalReadsBack(n / 10);
      assert Decimal(n)[..|Decimal(n)| - 1] == Decimal(n / 10);
    }
  }
}
