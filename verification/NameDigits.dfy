/** What any letters between `&` and `-` are read as: the number that they are the digits of decides. */
module NameDigits {
  import opened Collections
  import opened Wire
  import opened Utf7
  import opened ModUtf7
  import opened NameBits

  /** All units that the sextets complete, and the bits left over. */
  datatype Tally = Tally(units: seq<int>, bits: nat, buffer: int)

  function Tallied(sextets: seq<Sextet>, bits: nat, buffer: int): Tally
    requires bits < 16
    decreases |sextets|
  {
    if sextets == [] then Tally([], bits, buffer)
    else
      var more, total := buffer * 64 + sextets[0], bits + 6;
      if total < 16 then Tallied(sextets[1..], total, more)
      else
        var rest := Tallied(sextets[1..], total - 16, more % Shift(total - 16));
        rest.(units := [more / Shift(total - 16)] + rest.units)
  }

  lemma {:induction false} UnpackTallied(sextets: seq<Sextet>, bits: nat, buffer: int)
    requires bits < 16
    ensures var t := Tallied(sextets, bits, buffer);
            Unpack(sextets, bits, buffer) == if t.bits >= 6 || t.buffer != 0 then None else Some(t.units)
    decreases |sextets|
  {
    if sextets != [] {
      var more, total := buffer * 64 + sextets[0], bits + 6;
      if total < 16 {
        UnpackTallied(sextets[1..], total, more);
      } else {
        UnpackTallied(sextets[1..], total - 16, more % Shift(total - 16));
      }
    }
  }

  lemma ShiftSix(bits: nat)
    ensures Shift(bits + 6) == Shift(bits) * 64
  {
    assert Shift(bits + 6) == 2 * Shift(bits + 5) && Shift(bits + 5) == 2 * Shift(bits + 4);
    assert Shift(bits + 4) == 2 * Shift(bits + 3) && Shift(bits + 3) == 2 * Shift(bits + 2);
    assert Shift(bits + 2) == 2 * Shift(bits + 1);
  }

  lemma {:induction false} ShiftSixteen(bits: nat)
    ensures Shift(bits + 16) == 0x1_0000 * Shift(bits)
  {
    ShiftSix(bits);
    ShiftSix(bits + 6);
    assert Shift(bits + 16) == 2 * Shift(bits + 15) && Shift(bits + 15) == 2 * Shift(bits + 14);
    assert Shift(bits + 14) == 2 * Shift(bits + 13) && Shift(bits + 13) == 2 * Shift(bits + 12);
  }

  lemma UnitOut(start: int, size: int, more: int)
    requires size > 0 && 0 <= more < 0x1_0000 * size
    ensures start * (0x1_0000 * size) + more == (start * 0x1_0000 + more / size) * size + more % size
    ensures 0 <= more / size < 0x1_0000 && 0 <= more % size < size
  {
    assert more == more / size * size + more % size;
    Distribute(start, more / size, size);
    QuotientBelow(more, size);
  }

  lemma Distribute(start: int, unit: int, size: int)
    ensures (start * 0x1_0000 + unit) * size == start * (0x1_0000 * size) + unit * size
  {
  }

  lemma QuotientBelow(more: int, size: int)
    requires size > 0 && 0 <= more < 0x1_0000 * size
    ensures 0 <= more / size < 0x1_0000
  {
    var quotient := more / size;
    if quotient >= 0x1_0000 {
      ProductGrows(0x1_0000, quotient, size);
      assert false;
    }
  }

  lemma ProductGrows(less: int, more: int, size: int)
    requires less <= more && size > 0
    ensures less * size <= more * size
  {
  }

  /** After `bits` bits and `n` more digits: the units, with what is left over, make up the number. */
  ghost predicate CountsAs(t: Tally, bits: nat, n: nat, start: int, number: int) {
    && t.bits < 16 && bits + 6 * n == 16 * |t.units| + t.bits && Units(t.units)
    && 0 <= t.buffer < Shift(t.bits)
    && number == NumberFrom(start, t.units, 0x1_0000) * Shift(t.bits) + t.buffer
  }

  lemma {:induction false} TalliedNumber(sextets: seq<Sextet>, bits: nat, buffer: int, start: int, sofar: int)
    requires bits < 16 && InSixBits(sextets) && 0 <= buffer < Shift(bits) && sofar == start * Shift(bits) + buffer
    ensures CountsAs(Tallied(sextets, bits, buffer), bits, |sextets|, start, NumberFrom(sofar, sextets, 64))
    decreases |sextets|
  {
    if sextets != [] {
      var more, rest := buffer * 64 + sextets[0], sextets[1..];
      MoreDone(start, bits, buffer, sextets[0], sofar);
      if bits + 6 < 16 {
        TalliedNumber(rest, bits + 6, more, start, sofar * 64 + sextets[0]);
      } else {
        UnitDone(start, bits - 10, more);
        var unit, left := more / Shift(bits - 10), more % Shift(bits - 10);
        TalliedNumber(rest, bits - 10, left, start * 0x1_0000 + unit, sofar * 64 + sextets[0]);
        CountUnit(Tallied(rest, bits - 10, left), bits, |sextets|, start, unit,
                  NumberFrom(sofar * 64 + sextets[0], rest, 64));
      }
    }
  }

  lemma MoreDone(start: int, bits: nat, buffer: int, v: int, sofar: int)
    requires 0 <= v < 64 && 0 <= buffer < Shift(bits) && sofar == start * Shift(bits) + buffer
    ensures sofar * 64 + v == start * Shift(bits + 6) + (buffer * 64 + v)
    ensures 0 <= buffer * 64 + v < Shift(bits + 6)
  {
    ShiftSix(bits);
    MoreBits(start, Shift(bits), buffer, v);
  }

  lemma UnitDone(start: int, left: nat, more: int)
    requires 0 <= more < Shift(left + 16)
    ensures var size := Shift(left);
            && start * Shift(left + 16) + more == (start * 0x1_0000 + more / size) * size + more % size
            && 0 <= more / size < 0x1_0000 && 0 <= more % size < size
  {
    ShiftSixteen(left);
    UnitOut(start, Shift(left), more);
  }

  lemma CountUnit(t: Tally, bits: nat, n: nat, start: int, unit: int, number: int)
    requires n > 0 && bits >= 10 && CountsAs(t, bits - 10, n - 1, start * 0x1_0000 + unit, number)
    requires 0 <= unit < 0x1_0000
    ensures CountsAs(t.(units := [unit] + t.units), bits, n, start, number)
  {
    FirstUnit(start, unit, t.units);
  }

  lemma FirstUnit(start: int, unit: int, units: seq<int>)
    ensures NumberFrom(start, [unit] + units, 0x1_0000) == NumberFrom(start * 0x1_0000 + unit, units, 0x1_0000)
  {
    assert ([unit] + units)[1..] == units;
  }

  lemma MoreBits(start: int, size: int, buffer: int, v: int)
    requires 0 <= v < 64 && 0 <= buffer < size
    ensures (start * size + buffer) * 64 + v == start * (size * 64) + (buffer * 64 + v)
    ensures 0 <= buffer * 64 + v < size * 64
  {
  }

  // ----- The units are the only ones

  lemma {:induction false} NumberBounds(start: int, digits: seq<int>, base: int, scale: int)
    requires base > 1 && scale == Scale(base, |digits|)
    requires forall i :: 0 <= i < |digits| ==> 0 <= digits[i] < base
    ensures scale > 0 && start * scale <= NumberFrom(start, digits, base) < (start + 1) * scale
    decreases |digits|
  {
    if digits != [] {
      var rest := Scale(base, |digits| - 1);
      NumberBounds(start * base + digits[0], digits[1..], base, rest);
      ScaledDigit(start, digits[0], base, rest);
    }
  }

  function Scale(base: int, n: nat): int {
    if n == 0 then 1 else base * Scale(base, n - 1)
  }

  lemma ScaledDigit(start: int, digit: int, base: int, rest: int)
    requires 0 <= digit < base && rest > 0
    ensures start * (base * rest) <= (start * base + digit) * rest
    ensures (start * base + digit + 1) * rest <= (start + 1) * (base * rest)
    ensures base * rest > 0
  {
    ProductGrows(start * base, start * base + digit, rest);
    ProductGrows(start * base + digit + 1, (start + 1) * base, rest);
    Regroup(start, base, rest);
    Regroup(start + 1, base, rest);
    ProductGrows(1, base, rest);
  }

  lemma Regroup(a: int, b: int, c: int)
    ensures a * (b * c) == a * b * c
  {
  }

  /** A number has one list of digits of each length. */
  lemma {:induction false} DigitsUnique(start: int, a: seq<int>, other: int, b: seq<int>, base: int)
    requires base > 1 && |a| == |b| && NumberFrom(start, a, base) == NumberFrom(other, b, base)
    requires forall i :: 0 <= i < |a| ==> 0 <= a[i] < base && 0 <= b[i] < base
    ensures start == other && a == b
    decreases |a|
  {
    var scale := Scale(base, |a|);
    NumberBounds(start, a, base, scale);
    NumberBounds(other, b, base, scale);
    SameStart(start, other, scale, NumberFrom(start, a, base));
    if a != [] {
      DigitsUnique(start * base + a[0], a[1..], other * base + b[0], b[1..], base);
      assert a == [a[0]] + a[1..] && b == [b[0]] + b[1..];
    }
  }

  lemma SameStart(start: int, other: int, scale: int, number: int)
    requires scale > 0 && start * scale <= number < (start + 1) * scale
    requires other * scale <= number < (other + 1) * scale
    ensures start == other
  {
    if start < other {
      ProductGrows(start + 1, other, scale);
      assert false;
    } else if other < start {
      ProductGrows(other + 1, start, scale);
      assert false;
    }
  }

  // ----- What letters are read as

  /** The units are what the digits stand for: their bits, and fewer than six zero bits after them. */
  ghost predicate StandFor(digits: seq<int>, units: seq<int>, filling: nat) {
    && Units(units) && filling < 6 && 6 * |digits| == 16 * |units| + filling
    && NumberFrom(0, digits, 64) == NumberFrom(0, units, 0x1_0000) * Shift(filling)
  }

  /** Digits are unpacked exactly to the units that they stand for. */
  lemma UnpackExactly(digits: seq<int>, units: seq<int>)
    requires InSixBits(digits)
    ensures Unpack(digits, 0, 0) == Some(units) <==> exists filling :: StandFor(digits, units, filling)
  {
    var t := Tallied(digits, 0, 0);
    UnpackTallied(digits, 0, 0);
    TalliedNumber(digits, 0, 0, 0, 0);
    if Unpack(digits, 0, 0) == Some(units) {
      assert StandFor(digits, units, t.bits);
    }
    if filling :| StandFor(digits, units, filling) {
      SameTally(digits, units, filling, t);
    }
  }

  lemma SameTally(digits: seq<int>, units: seq<int>, filling: nat, t: Tally)
    requires StandFor(digits, units, filling) && Units(t.units)
    requires t.bits < 16 && 6 * |digits| == 16 * |t.units| + t.bits && 0 <= t.buffer < Shift(t.bits)
    requires NumberFrom(0, digits, 64) == NumberFrom(0, t.units, 0x1_0000) * Shift(t.bits) + t.buffer
    ensures t.units == units && t.bits == filling && t.buffer == 0
  {
    SameLength(|units|, filling, |t.units|, t.bits);
    SameMultiple(NumberFrom(0, units, 0x1_0000), NumberFrom(0, t.units, 0x1_0000), t.buffer, Shift(filling));
    DigitsUnique(0, units, 0, t.units, 0x1_0000);
  }

  lemma SameLength(units: nat, filling: nat, others: nat, bits: nat)
    requires filling < 16 && bits < 16 && 16 * units + filling == 16 * others + bits
    ensures units == others && filling == bits
  {
  }

  lemma SameMultiple(a: int, b: int, left: int, size: int)
    requires size > 0 && a * size == b * size + left && 0 <= left < size
    ensures a == b && left == 0
  {
    if a > b {
      ProductGrows(b + 1, a, size);
      assert false;
    } else if a < b {
      ProductGrows(a + 1, b, size);
      assert false;
    }
  }

  /** The letters that stand for digits, with `,` in the place of `/`. */
  function Written(digits: seq<int>): (w: Bytes)
    requires InSixBits(digits)
    ensures |w| == |digits| && forall i :: 0 <= i < |w| ==> w[i] == LetterOf(digits[i]) as int
  {
    seq(|digits|, i requires 0 <= i < |digits| => LetterOf(digits[i]) as int)
  }

  lemma WrittenLetters(digits: seq<int>)
    requires InSixBits(digits)
    ensures Replace(Written(digits), COMMA, SLASH) == Letters(digits)
    ensures forall i :: 0 <= i < |digits| ==> Written(digits)[i] != DASH
  {
    forall i | 0 <= i < |digits|
      ensures Replace(Written(digits), COMMA, SLASH)[i] == Letters(digits)[i] && Written(digits)[i] != DASH
    {
      LetterIs(digits[i]);
    }
  }

  lemma LettersDecode(digits: seq<int>)
    requires InSixBits(digits) && digits != []
    ensures B64Decode(Written(digits)) ==
            match Unpack(digits, 0, 0) case None => None case Some(units) => Some(JoinUnits(units, 0))
  {
    var letters := Letters(digits);
    WrittenLetters(digits);
    ValuesLetters(digits);
    assert [PLUS] + letters + [DASH] == [PLUS] + (letters + [DASH]);
    DecodeByte(PLUS, letters + [DASH]);
    DecodeSection(letters, [DASH]);
    LastDash(JoinUnits(match Unpack(digits, 0, 0) case None => [] case Some(units) => units, 0));
  }

  lemma LastDash(text: Text)
    ensures Before(text, Decode(SkipDash([DASH]))) == Some(text)
  {
    assert SkipDash([DASH]) == [] && text + [] == text;
  }

  /** Between `&` and `-`, any letters are read as the UTF-16 text whose bits they are, with fewer than six
      zero bits after them, and are an error if there is none. */
  lemma LettersExactly(digits: seq<int>, rest: Bytes)
    requires InSixBits(digits) && digits != []
    ensures forall units, filling :: StandFor(digits, units, filling) ==>
              Decoded([0x26] + Written(digits) + [0x2d] + rest) == After(JoinUnits(units, 0), Decoded(rest))
    ensures (forall units, filling :: !StandFor(digits, units, filling)) ==>
              Decoded([0x26] + Written(digits) + [0x2d] + rest) == Invalid
  {
    ShiftRead(digits, rest);
    LettersDecode(digits);
    forall units, filling | StandFor(digits, units, filling) ensures Unpack(digits, 0, 0) == Some(units) {
      UnpackExactly(digits, units);
    }
    if Unpack(digits, 0, 0).Some? {
      UnpackExactly(digits, Unpack(digits, 0, 0).value);
    }
  }

  lemma ShiftRead(digits: seq<int>, rest: Bytes)
    requires InSixBits(digits) && digits != []
    ensures Decoded([0x26] + Written(digits) + [0x2d] + rest) ==
            match B64Decode(Written(digits)) case None => Invalid case Some(text) => After(text, Decoded(rest))
  {
    var w, tail := Written(digits), [0x2d] + rest;
    var buf := [0x26] + w + [0x2d] + rest;
    WrittenLetters(digits);
    assert buf == [0x26] + (w + tail) && buf[1..] == w + tail;
    DashIs(w + tail, |w|);
    assert (w + tail)[..|w|] == w && (w + tail)[|w| + 1..] == rest;
  }

  /** Bytes that no `&` goes before are read as they are, and `&-` as `&`. */
  lemma BytesAsTheyAre(b: Byte, rest: Bytes)
    ensures b != 0x26 ==> Decoded([b] + rest) == After([b], Decoded(rest))
    ensures Decoded([0x26, 0x2d] + rest) == After([0x26], Decoded(rest))
  {
    assert ([b] + rest)[1..] == rest && ([0x26, 0x2d] + rest)[2..] == rest;
  }
}
