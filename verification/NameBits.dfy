/** The modified BASE64 of section 5.1.3 of RFC 3501 without any packing: the letters of a run are the
    digits, in that alphabet, of the number that its UTF-16 text is. */
module NameBits {
  import opened Collections
  import opened Wire
  import opened Utf7
  import opened ModUtf7

  /** The letter for a digit: capitals, small letters, decimal digits, `+` and `,`. */
  function LetterOf(v: int): char {
    if 0 <= v < 26 then ('A' as int + v) as char
    else if 26 <= v < 52 then ('a' as int + (v - 26)) as char
    else if 52 <= v < 62 then ('0' as int + (v - 52)) as char
    else if v == 62 then '+'
    else ','
  }

  /** The number that starts with `start` and goes on with these digits. */
  function NumberFrom(start: int, digits: seq<int>, base: int): int
    decreases |digits|
  {
    if digits == [] then start else NumberFrom(start * base + digits[0], digits[1..], base)
  }

  /** A last letter is filled up with two or four zero bits. */
  function Filled(bits: nat): int {
    if bits == 4 then 4 else if bits == 2 then 16 else 1
  }

  function BitsLeft(bits: nat, units: nat): nat
    decreases units
  {
    if units == 0 then bits else BitsLeft(if bits == 0 then 4 else if bits == 4 then 2 else 0, units - 1)
  }

  function Size(bits: nat): int {
    if bits == 4 then 16 else if bits == 2 then 4 else 1
  }

  lemma TwoDigits(start: int, a: int, b: int, rest: seq<int>)
    ensures NumberFrom(start, [a, b] + rest, 64) == NumberFrom((start * 64 + a) * 64 + b, rest, 64)
  {
    assert ([a, b] + rest)[1..] == [b] + rest && ([b] + rest)[1..] == rest;
  }

  lemma ThreeDigits(start: int, a: int, b: int, c: int, rest: seq<int>)
    ensures NumberFrom(start, [a, b, c] + rest, 64) ==
            NumberFrom(((start * 64 + a) * 64 + b) * 64 + c, rest, 64)
  {
    assert ([a, b, c] + rest)[1..] == [b, c] + rest;
    TwoDigits(start * 64 + a, b, c, rest);
  }

  lemma First(start: int, u: int)
    ensures (start * 64 + u / 1024) * 64 + u / 16 % 64 == start * 4096 + u / 16
    ensures (start * 4096 + u / 16) * 16 + u % 16 == start * 0x1_0000 + u
  {
  }

  lemma Quotients(u: int)
    ensures u / 16384 * 64 + u / 256 % 64 == u / 256
    ensures u / 256 * 64 + u / 4 % 64 == u / 4
  {
  }

  lemma Second(start: int, buffer: int, u: int)
    ensures ((start * 64 + (buffer * 4 + u / 16384)) * 64 + u / 256 % 64) * 64 + u / 4 % 64 ==
            start * 262144 + buffer * 16384 + u / 4
    ensures (start * 262144 + buffer * 16384 + u / 4) * 4 + u % 4 == (start * 16 + buffer) * 0x1_0000 + u
  {
    Quotients(u);
  }

  lemma Third(start: int, buffer: int, u: int)
    ensures ((start * 64 + (buffer * 16 + u / 4096)) * 64 + u / 64 % 64) * 64 + u % 64 ==
            start * 262144 + buffer * 65536 + u
    ensures start * 262144 + buffer * 65536 + u == (start * 4 + buffer) * 0x1_0000 + u
  {
  }

  /** The letters so far and the bits left over make up the number of all units so far. */
  lemma {:induction false} PackIsNumber(units: seq<int>, bits: nat, buffer: int, start: int)
    requires bits == 0 || bits == 2 || bits == 4
    requires bits == 0 ==> buffer == 0
    ensures NumberFrom(start, Pack(units, bits, buffer), 64) ==
            NumberFrom(start * Size(bits) + buffer, units, 0x1_0000) * Filled(BitsLeft(bits, |units|))
    decreases |units|
  {
    if units == [] {
      PackEnd(bits, buffer, start);
    } else {
      var u, rest := units[0], units[1..];
      if bits == 0 {
        PackIsNumber(rest, 4, u % 16, start * 4096 + u / 16);
        PackFirst(u, start, Pack(rest, 4, u % 16));
      } else if bits == 4 {
        PackIsNumber(rest, 2, u % 4, start * 262144 + buffer * 16384 + u / 4);
        PackSecond(u, buffer, start, Pack(rest, 2, u % 4));
      } else {
        PackIsNumber(rest, 0, 0, start * 262144 + buffer * 65536 + u);
        PackThird(u, buffer, start, Pack(rest, 0, 0));
      }
    }
  }

  lemma PackFirst(u: int, start: int, rest: seq<int>)
    ensures NumberFrom(start, Letters0(u) + rest, 64) == NumberFrom(start * 4096 + u / 16, rest, 64)
    ensures (start * 4096 + u / 16) * 16 + u % 16 == start * 0x1_0000 + u
  {
    First(start, u);
    TwoDigits(start, u / 1024, u / 16 % 64, rest);
  }

  lemma PackSecond(u: int, buffer: int, start: int, rest: seq<int>)
    ensures NumberFrom(start, Letters4(buffer, u) + rest, 64) ==
            NumberFrom(start * 262144 + buffer * 16384 + u / 4, rest, 64)
    ensures (start * 262144 + buffer * 16384 + u / 4) * 4 + u % 4 == (start * 16 + buffer) * 0x1_0000 + u
  {
    Second(start, buffer, u);
    ThreeDigits(start, buffer * 4 + u / 16384, u / 256 % 64, u / 4 % 64, rest);
  }

  lemma PackThird(u: int, buffer: int, start: int, rest: seq<int>)
    ensures NumberFrom(start, Letters2(buffer, u) + rest, 64) ==
            NumberFrom(start * 262144 + buffer * 65536 + u, rest, 64)
    ensures start * 262144 + buffer * 65536 + u == (start * 4 + buffer) * 0x1_0000 + u
  {
    Third(start, buffer, u);
    ThreeDigits(start, buffer * 16 + u / 4096, u / 64 % 64, u % 64, rest);
  }

  lemma PackEnd(bits: nat, buffer: int, start: int)
    requires bits == 0 || bits == 2 || bits == 4
    requires bits == 0 ==> buffer == 0
    ensures NumberFrom(start, Pack([], bits, buffer), 64) == (start * Size(bits) + buffer) * Filled(bits)
  {
    if bits != 0 {
      var last := if bits == 4 then buffer * 4 else buffer * 16;
      assert Pack([], bits, buffer) == [last] && [last][1..] == [];
    }
  }

  /** A character below 2^16 is one unit; any other is a high and a low surrogate, ten bits in each. */
  lemma UnitsExactly(c: int)
    requires 0 <= c < 0xd800 || 0xe000 <= c <= 0x10_ffff
    ensures c < 0x1_0000 ==> UnitsOf(c) == [c]
    ensures c >= 0x1_0000 ==>
              && |UnitsOf(c)| == 2 && 0xd800 <= UnitsOf(c)[0] < 0xdc00 && 0xdc00 <= UnitsOf(c)[1] < 0xe000
              && c - 0x1_0000 == (UnitsOf(c)[0] - 0xd800) * 0x400 + (UnitsOf(c)[1] - 0xdc00)
  {
  }

  lemma JoinStart(units: seq<int>)
    requires units != []
    ensures JoinUnits(units, 0) ==
            if IsHigh(units[0]) then JoinUnits(units[1..], units[0]) else [units[0]] + JoinUnits(units[1..], 0)
  {
  }

  lemma JoinWaiting(units: seq<int>, high: int)
    requires high != 0
    ensures JoinUnits(units, high) ==
            if units != [] && IsLow(units[0]) then
              [0x1_0000 + (high - 0xd800) * 0x400 + (units[0] - 0xdc00)] + JoinUnits(units[1..], 0)
            else [high] + JoinUnits(units, 0)
  {
    if units != [] {
      JoinStart(units);
    }
  }

  /** A high surrogate directly before a low one is joined with it; every other unit stands for itself. */
  lemma JoinExactly(unit: int, rest: seq<int>)
    ensures 0xd800 <= unit < 0xdc00 && rest != [] && 0xdc00 <= rest[0] < 0xe000 ==>
              JoinUnits([unit] + rest, 0) ==
              [0x1_0000 + (unit - 0xd800) * 0x400 + (rest[0] - 0xdc00)] + JoinUnits(rest[1..], 0)
    ensures !(0xd800 <= unit < 0xdc00 && rest != [] && 0xdc00 <= rest[0] < 0xe000) ==>
              JoinUnits([unit] + rest, 0) == [unit] + JoinUnits(rest, 0)
  {
    assert ([unit] + rest)[1..] == rest;
    JoinStart([unit] + rest);
    if IsHigh(unit) {
      JoinWaiting(rest, unit);
    }
  }

  lemma LetterIs(v: int)
    requires 0 <= v < 64
    ensures (if Letter(v) == SLASH then COMMA else Letter(v)) == LetterOf(v) as int
  {
  }

  /** A Unicode scalar value that is not printable ASCII, nor a TAB, LF or CR. */
  predicate Outside(c: int) {
    (0 <= c < 0x20 || 0x7f <= c < 0xd800 || 0xe000 <= c <= 0x10_ffff) && c != 9 && c != 10 && c != 13
  }

  /** A run of such characters is written as `&`, letters and `-`. The letters are the digits of its UTF-16
      text as a number, filled up with zero bits. */
  lemma RunExactly(run: Text, digits: seq<int>)
    requires run != [] && (forall i :: 0 <= i < |run| ==> Outside(run[i])) && digits == Pack(Utf16(run), 0, 0)
    ensures |Encoded(run)| == |digits| + 2 && Encoded(run)[0] == 0x26 && Encoded(run)[|digits| + 1] == 0x2d
    ensures forall i :: 0 <= i < |digits| ==> 0 <= digits[i] < 64 && Encoded(run)[i + 1] == LetterOf(digits[i]) as int
    ensures NumberFrom(0, digits, 64) ==
            NumberFrom(0, Utf16(run), 0x1_0000) * match |Utf16(run)| % 3 case 0 => 1 case 1 => 4 case _ => 16
  {
    var units := Utf16(run);
    NumberIs(units, digits);
    RunLetters(run, digits);
  }

  lemma NumberIs(units: seq<int>, digits: seq<int>)
    requires digits == Pack(units, 0, 0)
    ensures NumberFrom(0, digits, 64) ==
            NumberFrom(0, units, 0x1_0000) * match |units| % 3 case 0 => 1 case 1 => 4 case _ => 16
  {
    PackIsNumber(units, 0, 0, 0);
    LeftOver(|units|);
  }

  /** A printable character is written as it is, but `&` as `&-`, unless it follows a run. */
  lemma PrintableAsItIs(c: int, rest: Text)
    requires 0x20 <= c <= 0x7e
    ensures Encoded([c] + rest) == (if c == '&' as int then [0x26, 0x2d] else [c]) + Encoded(rest)
  {
    assert ([c] + rest)[1..] == rest;
  }

  lemma {:induction false} LeftOver(units: nat)
    ensures BitsLeft(0, units) == match units % 3 case 0 => 0 case 1 => 4 case _ => 2
  {
    if units >= 3 {
      LeftOver(units - 3);
      assert BitsLeft(4, units - 1) == BitsLeft(2, units - 2);
    }
  }

  lemma {:induction false} SolidAll(run: Text)
    requires forall i :: 0 <= i < |run| ==> !Blank(run[i])
    ensures SolidRun(run) == |run|
  {
    if run != [] {
      SolidAll(run[1..]);
    }
  }

  lemma RunIs(run: Text, digits: seq<int>)
    requires Hidden(run) && run != [] && (forall i :: 0 <= i < |run| ==> !Blank(run[i]))
    requires digits == Pack(Utf16(run), 0, 0)
    ensures Encoded(run) == [0x26] + Replace(Letters(digits), SLASH, COMMA) + [0x2d]
  {
    HiddenRunIs(run, |run|);
    SolidAll(run);
    EncodeSolid(run, |run|);
    assert run[..|run|] == run;
    var w := [PLUS] + Letters(digits) + [DASH];
    assert Strip(w) == Letters(digits);
  }

  lemma RunLetters(run: Text, digits: seq<int>)
    requires Hidden(run) && run != [] && (forall i :: 0 <= i < |run| ==> !Blank(run[i]))
    requires digits == Pack(Utf16(run), 0, 0)
    ensures |Encoded(run)| == |digits| + 2 && Encoded(run)[0] == 0x26 && Encoded(run)[|digits| + 1] == 0x2d
    ensures forall i :: 0 <= i < |digits| ==> 0 <= digits[i] < 64 && Encoded(run)[i + 1] == LetterOf(digits[i]) as int
  {
    RunIs(run, digits);
    Utf16Units(run);
    PackInSixBits(Utf16(run), 0, 0);
    BetweenEnds(Encoded(run), digits);
  }

  lemma BetweenEnds(w: Bytes, digits: seq<int>)
    requires w == [0x26] + Replace(Letters(digits), SLASH, COMMA) + [0x2d] && InSixBits(digits)
    ensures |w| == |digits| + 2 && w[0] == 0x26 && w[|digits| + 1] == 0x2d
    ensures forall i :: 0 <= i < |digits| ==> 0 <= digits[i] < 64 && w[i + 1] == LetterOf(digits[i]) as int
  {
    forall i | 0 <= i < |digits| ensures 0 <= digits[i] < 64 && w[i + 1] == LetterOf(digits[i]) as int {
      LetterIs(digits[i]);
    }
  }
}
