/** Bytes on the wire: decimal numbers, spaces, and the outcome of reading a value. */
module Wire {
  import opened Collections

  type Byte = b: int | 0 <= b < 256

  type Bytes = seq<Byte>

  datatype ParseError = NotParseable

  type Parsed<T> = Result<(T, Bytes), ParseError>

  const SPACE: Byte := 0x20

  predicate IsDigit(b: Byte) {
    0x30 <= b <= 0x39
  }

  function Decimal(n: nat): Bytes {
    if n < 10 then [0x30 + n] else Decimal(n / 10) + [0x30 + n % 10]
  }

  function DecimalValue(digits: Bytes): nat
    requires forall i :: 0 <= i < |digits| ==> IsDigit(digits[i])
  {
    if digits == [] then 0
    else
      assert IsDigit(digits[|digits| - 1]);
      10 * DecimalValue(digits[..|digits| - 1]) + (digits[|digits| - 1] as int - 0x30)
  }

  /** How many digits the buffer begins with. */
  function DigitRun(buf: Bytes): (n: nat)
    ensures n <= |buf|
    ensures forall i :: 0 <= i < n ==> IsDigit(buf[i])
    ensures n < |buf| ==> !IsDigit(buf[n])
  {
    if buf == [] || !IsDigit(buf[0]) then 0 else 1 + DigitRun(buf[1..])
  }

  function SkipSpaces(buf: Bytes): Bytes {
    if buf != [] && buf[0] == SPACE then SkipSpaces(buf[1..]) else buf
  }

  predicate AllDigits(s: Bytes) {
    forall i :: 0 <= i < |s| ==> IsDigit(s[i])
  }

  lemma {:induction false} DecimalDigits(n: nat)
    ensures AllDigits(Decimal(n)) && Decimal(n) != []
    ensures n > 0 ==> 0x31 <= Decimal(n)[0]
    ensures DecimalValue(Decimal(n)) == n
  {
    if n < 10 {
      assert Decimal(n)[..0] == [];
    } else {
      DecimalDigits(n / 10);
      assert Decimal(n)[..|Decimal(n)| - 1] == Decimal(n / 10);
    }
  }

  lemma {:induction false} DigitRunOf(digits: Bytes, rest: Bytes)
    requires AllDigits(digits)
    ensures DigitRun(digits + rest) == |digits| + DigitRun(rest)
  {
    if digits == [] {
      assert digits + rest == rest;
    } else {
      assert (digits + rest)[1..] == digits[1..] + rest;
      DigitRunOf(digits[1..], rest);
    }
  }

  /** Digits without a leading zero are the decimal number that they stand for. */
  lemma {:induction false} DecimalOf(digits: Bytes)
    requires AllDigits(digits) && digits != [] && digits[0] != 0x30
    ensures Decimal(DecimalValue(digits)) == digits && DecimalValue(digits) > 0
  {
    var last := |digits| - 1;
    assert IsDigit(digits[last]);
    if last > 0 {
      DecimalOf(digits[..last]);
      var front, d := DecimalValue(digits[..last]), digits[last] - 0x30;
      assert (10 * front + d) / 10 == front && (10 * front + d) % 10 == d;
      assert digits == digits[..last] + [digits[last]];
    } else {
      assert digits[..0] == [] && digits == [digits[0]];
    }
  }
}
