/**
 * The few pieces of Java's standard behaviour that the three services rely on:
 * nullable references (Option), exceptions (Result), the range and the
 * wrap-around of `long`, the bit pattern of a `double`, and the decimal text
 * that string concatenation produces for a `Long`.
 */
module JavaBase {

  /** A nullable reference: None stands for Java's null. */
  datatype Option<+T> = None | Some(value: T)

  /** The outcome of a call that either returns a value or throws an exception. */
  datatype Result<+T, +E> = Ok(value: T) | Thrown(error: E)

  const LongMin: int := -0x8000_0000_0000_0000
  const LongMax: int :=  0x7FFF_FFFF_FFFF_FFFF

  /** A value of Java's 64-bit signed `long` (and of a non-null `Long`). */
  type Long = x: int | LongMin <= x <= LongMax

  /** A Java `double`, kept as its IEEE-754 bit pattern: the services only copy it. */
  type Double = bv64

  /** `x++` on a `long`: two's-complement wrap-around at Long.MAX_VALUE. */
  function Increment(x: Long): (r: Long)
    ensures x < LongMax ==> r == x + 1 && r > x
    ensures x == LongMax ==> r == LongMin
  {
    if x == LongMax then LongMin else x + 1
  }

  predicate IsDigit(c: char) {
    '0' <= c <= '9'
  }

  predicate AllDigits(s: string) {
    forall i :: 0 <= i < |s| ==> IsDigit(s[i])
  }

  function DigitChar(d: nat): (c: char)
    requires d < 10
    ensures IsDigit(c) && c as int - '0' as int == d
  {
    ('0' as int + d) as char
  }

  /** The decimal digits of n, most significant first, without leading zeros. */
  function Digits(n: nat): (s: string)
    ensures |s| >= 1 && AllDigits(s)
    ensures s[0] == '0' ==> n == 0
  {
    if n < 10 then [DigitChar(n)] else Digits(n / 10) + [DigitChar(n % 10)]
  }

  /** The number a run of decimal digits denotes (0 for none). */
  function DigitsValue(s: string): nat
    requires AllDigits(s)
  {
    if s == [] then 0
    else DigitsValue(s[..|s| - 1]) * 10 + (s[|s| - 1] as int - '0' as int)
  }

  /** `Long.toString(n)`, which is what `"..." + id` appends for a Long id. */
  function LongToString(n: Long): (s: string)
    ensures |s| >= 1
    ensures n < 0 <==> s[0] == '-'
    ensures n >= 0 ==> (s[0] == '0' ==> n == 0)
  {
    if n < 0 then "-" + Digits(-(n as int)) else Digits(n)
  }

  /** Reads back a decimal integer as LongToString writes it; None for any other text. */
  function ParseLong(s: string): Option<int> {
    if |s| >= 2 && s[0] == '-' && AllDigits(s[1..]) then Some(-(DigitsValue(s[1..]) as int))
    else if |s| >= 1 && AllDigits(s) then Some(DigitsValue(s))
    else None
  }

  lemma {:induction false} DigitsRoundTrip(n: nat)
    ensures DigitsValue(Digits(n)) == n
  {
    if n >= 10 {
      var s := Digits(n);
      assert s[..|s| - 1] == Digits(n / 10);
      DigitsRoundTrip(n / 10);
    }
  }

  /** The decimal text of a long determines the long: ParseLong undoes LongToString. */
  lemma LongToStringRoundTrip(n: Long)
    ensures ParseLong(LongToString(n)) == Some(n)
  {
    var s := LongToString(n);
    if n < 0 {
      var d := Digits(-(n as int));
      assert s == "-" + d;
      assert s[1..] == d;
      DigitsRoundTrip(-(n as int));
    } else {
      assert s == Digits(n);
      assert IsDigit(s[0]);
      DigitsRoundTrip(n);
    }
  }

  /** The id a message of the form prefix + Long.toString(id) carries, if it has that form. */
  function IdInMessage(prefix: string, message: string): Option<int> {
    if |prefix| <= |message| && message[..|prefix|] == prefix
    then ParseLong(message[|prefix|..])
    else None
  }

  /** A not-found message built as prefix + id names that id, and only that id. */
  lemma MessageNamesId(prefix: string, id: Long)
    ensures IdInMessage(prefix, prefix + LongToString(id)) == Some(id)
  {
    var m := prefix + LongToString(id);
    assert m[..|prefix|] == prefix;
    assert m[|prefix|..] == LongToString(id);
    LongToStringRoundTrip(id);
  }

  lemma MessageDistinguishesIds(prefix: string, a: Long, b: Long)
    requires prefix + LongToString(a) == prefix + LongToString(b)
    ensures a == b
  {
    MessageNamesId(prefix, a);
    MessageNamesId(prefix, b);
  }
}
