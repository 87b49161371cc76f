/** The UTF-7 codec of RFC 2152 as Python applies it to text without printable ASCII: runs of
    characters become UTF-16 units packed six bits to a letter. */
module Utf7 {
  import opened Collections
  import opened Wire

  /** Code points. */
  type Text = seq<int>

  const PLUS: Byte := 0x2b
  const DASH: Byte := 0x2d
  const SLASH: Byte := 0x2f

  predicate Printable(c: int) {
    0x20 <= c <= 0x7e
  }

  /** Tab, line feed and carriage return: the codec writes them as they are. */
  predicate Blank(c: int) {
    c == 9 || c == 10 || c == 13
  }

  predicate Scalar(c: int) {
    0 <= c < 0xd800 || 0xe000 <= c < 0x11_0000
  }

  predicate Scalars(s: Text) {
    forall i :: 0 <= i < |s| ==> Scalar(s[i])
  }

  /** Scalar values outside printable ASCII. */
  predicate Hidden(s: Text) {
    forall i :: 0 <= i < |s| ==> Scalar(s[i]) && !Printable(s[i])
  }

  // ----- UTF-16

  function UnitsOf(c: int): seq<int> {
    if c >= 0x1_0000 then [0xd800 + (c - 0x1_0000) / 0x400, 0xdc00 + (c - 0x1_0000) % 0x400] else [c]
  }

  function Utf16(s: Text): seq<int> {
    if s == [] then [] else UnitsOf(s[0]) + Utf16(s[1..])
  }

  predicate IsHigh(unit: int) {
    0xd800 <= unit < 0xdc00
  }

  predicate IsLow(unit: int) {
    0xdc00 <= unit < 0xe000
  }

  /** Joins surrogates; `high` is a high surrogate still waiting for its partner, or 0. */
  function JoinUnits(units: seq<int>, high: int): Text {
    if units == [] then (if high != 0 then [high] else [])
    else if high != 0 && IsLow(units[0]) then
      [0x1_0000 + (high - 0xd800) * 0x400 + (units[0] - 0xdc00)] + JoinUnits(units[1..], 0)
    else
      (if high != 0 then [high] else []) +
      (if IsHigh(units[0]) then JoinUnits(units[1..], units[0]) else [units[0]] + JoinUnits(units[1..], 0))
  }

  lemma JoinChar(c: int, rest: seq<int>)
    requires Scalar(c)
    ensures JoinUnits(UnitsOf(c) + rest, 0) == [c] + JoinUnits(rest, 0)
  {
    var units := UnitsOf(c) + rest;
    if c >= 0x1_0000 {
      var low := UnitsOf(c)[1];
      assert units[1..] == [low] + rest && ([low] + rest)[1..] == rest;
    } else {
      assert units[1..] == rest;
    }
  }

  lemma {:induction false} JoinUtf16(s: Text)
    requires Scalars(s)
    ensures JoinUnits(Utf16(s), 0) == s
  {
    if s != [] {
      JoinUtf16(s[1..]);
      JoinChar(s[0], Utf16(s[1..]));
    }
  }

  lemma {:induction false} JoinSize(units: seq<int>, high: int)
    ensures |JoinUnits(units, high)| <= |units| + (if high != 0 then 1 else 0)
    ensures units != [] || high != 0 ==> JoinUnits(units, high) != []
  {
    if units != [] {
      JoinSize(units[1..], 0);
      JoinSize(units[1..], units[0]);
    }
  }

  // ----- Six bits to a letter

  /** Six-bit numbers. */
  type Sextet = int

  predicate InSixBits(sextets: seq<Sextet>) {
    forall i :: 0 <= i < |sextets| ==> 0 <= sextets[i] < 64
  }

  function Shift(bits: nat): (p: nat)
    ensures p > 0
  {
    if bits == 0 then 1 else 2 * Shift(bits - 1)
  }

  predicate Units(units: seq<int>) {
    forall i :: 0 <= i < |units| ==> 0 <= units[i] < 0x1_0000
  }

  /** The letters that a unit completes, after no bits, four bits or two bits of the one before. */
  function Letters0(u: int): seq<Sextet> {
    [u / 1024, u / 16 % 64]
  }

  function Letters4(buffer: int, u: int): seq<Sextet> {
    [buffer * 4 + u / 16384, u / 256 % 64, u / 4 % 64]
  }

  function Letters2(buffer: int, u: int): seq<Sextet> {
    [buffer * 16 + u / 4096, u / 64 % 64, u % 64]
  }

  /** Packs 16-bit units, `bits` bits of the one before being left in `buffer`. */
  function Pack(units: seq<int>, bits: nat, buffer: int): seq<Sextet> {
    if units == [] then
      (if bits == 4 then [buffer * 4] else if bits == 2 then [buffer * 16] else [])
    else
      var u := units[0];
      if bits == 0 then Letters0(u) + Pack(units[1..], 4, u % 16)
      else if bits == 4 then Letters4(buffer, u) + Pack(units[1..], 2, u % 4)
      else Letters2(buffer, u) + Pack(units[1..], 0, 0)
  }

  /** Gathers six bits at a time; fewer than six bits may be left, and they must be zero. */
  function Unpack(sextets: seq<Sextet>, bits: nat, buffer: int): Option<seq<int>>
    requires bits < 16
  {
    if sextets == [] then (if bits >= 6 || buffer != 0 then None else Some([]))
    else
      var more, total := buffer * 64 + sextets[0], bits + 6;
      if total < 16 then Unpack(sextets[1..], total, more)
      else WithUnit(more / Shift(total - 16), Unpack(sextets[1..], total - 16, more % Shift(total - 16)))
  }

  lemma Unpack1(v: Sextet, rest: seq<Sextet>, bits: nat, buffer: int)
    requires bits < 10
    ensures Unpack([v] + rest, bits, buffer) == Unpack(rest, bits + 6, buffer * 64 + v)
  {
    assert ([v] + rest)[1..] == rest;
  }

  lemma UnpackUnit(v: Sextet, rest: seq<Sextet>, bits: nat, buffer: int, size: nat, unit: int, left: int)
    requires (bits == 10 && size == 1) || (bits == 12 && size == 4) || (bits == 14 && size == 16)
    requires buffer * 64 + v == unit * size + left && 0 <= left < size
    ensures Unpack([v] + rest, bits, buffer) == WithUnit(unit, Unpack(rest, bits - 10, left))
  {
    assert ([v] + rest)[1..] == rest;
    var more := buffer * 64 + v;
    assert size == Shift(bits - 10);
    assert more / size == unit && more % size == left;
  }

  function WithUnit(unit: int, rest: Option<seq<int>>): Option<seq<int>> {
    match rest
    case None => None
    case Some(units) => Some([unit] + units)
  }

  lemma UnpackAfter12(a: Sextet, b: Sextet, c: Sextet, tail: seq<Sextet>, buffer: int, p: int, x: int, y: int, z: int)
    requires buffer * 64 + a == p * 4 + x && 0 <= x < 4 && y == x * 64 + b && z == y * 64 + c
    ensures Unpack([a, b, c] + tail, 12, buffer) == WithUnit(p, Unpack(tail, 14, z))
  {
    assert [a, b, c] + tail == [a] + ([b] + ([c] + tail));
    UnpackUnit(a, [b] + ([c] + tail), 12, buffer, 4, p, x);
    Unpack1(b, [c] + tail, 2, x);
    Unpack1(c, tail, 8, y);
  }

  lemma UnpackAfter14(a: Sextet, b: Sextet, c: Sextet, tail: seq<Sextet>, buffer: int, p: int, x: int, y: int, u: int)
    requires buffer * 64 + a == p * 16 + x && 0 <= x < 16 && y == x * 64 + b && u == y * 64 + c
    ensures Unpack([a, b, c] + tail, 14, buffer) == WithUnit(p, WithUnit(u, Unpack(tail, 0, 0)))
  {
    assert [a, b, c] + tail == [a] + ([b] + ([c] + tail));
    UnpackUnit(a, [b] + ([c] + tail), 14, buffer, 16, p, x);
    Unpack1(b, [c] + tail, 4, x);
    UnpackUnit(c, tail, 10, y, 1, u, 0);
  }

  lemma Unpack0(u: int, tail: seq<Sextet>)
    requires 0 <= u < 0x1_0000
    ensures Unpack(Letters0(u) + tail, 0, 0) == Unpack(tail, 12, u / 16)
  {
    var a, b := u / 1024, u / 16 % 64;
    assert Letters0(u) + tail == [a] + ([b] + tail);
    Unpack1(a, [b] + tail, 0, 0);
    Unpack1(b, tail, 6, a);
  }

  lemma Unpack12(p: int, u: int, tail: seq<Sextet>)
    requires 0 <= p < 0x1_0000 && 0 <= u < 0x1_0000
    ensures Unpack(Letters4(p % 16, u) + tail, 12, p / 16) == WithUnit(p, Unpack(tail, 14, u / 4))
  {
    UnpackAfter12(p % 16 * 4 + u / 16384, u / 256 % 64, u / 4 % 64, tail, p / 16, p, u / 16384, u / 256, u / 4);
  }

  lemma Unpack14(p: int, u: int, tail: seq<Sextet>)
    requires 0 <= p < 0x1_0000 && 0 <= u < 0x1_0000
    ensures Unpack(Letters2(p % 4, u) + tail, 14, p / 4) == WithUnit(p, WithUnit(u, Unpack(tail, 0, 0)))
  {
    UnpackAfter14(p % 4 * 16 + u / 4096, u / 64 % 64, u % 64, tail, p / 4, p, u / 4096, u / 64, u);
  }

  lemma UnpackEnd(v: Sextet, bits: nat, buffer: int, size: nat, p: int)
    requires (bits == 12 && size == 4) || (bits == 14 && size == 16)
    requires buffer * 64 + v == p * size
    ensures Unpack([v], bits, buffer) == Some([p])
  {
    var none: seq<Sextet> := [];
    UnpackUnit(v, none, bits, buffer, size, p, 0);
    assert [v] + none == [v];
    assert Unpack(none, bits - 10, 0) == Some([]);
    assert [p] + [] == [p];
  }

  /** Unpacking undoes packing, from each of the three ways a unit can lie across letters. */
  lemma {:induction false} UnpackPack(units: seq<int>)
    requires Units(units)
    ensures Unpack(Pack(units, 0, 0), 0, 0) == Some(units)
    decreases |units|
  {
    if units != [] {
      var u := units[0];
      UnpackPack12(u, units[1..]);
      Unpack0(u, Pack(units[1..], 4, u % 16));
      assert [u] + units[1..] == units;
    }
  }

  lemma {:induction false} UnpackPack12(p: int, units: seq<int>)
    requires Units(units) && 0 <= p < 0x1_0000
    ensures Unpack(Pack(units, 4, p % 16), 12, p / 16) == Some([p] + units)
    decreases |units|
  {
    if units == [] {
      UnpackEnd(p % 16 * 4, 12, p / 16, 4, p);
    } else {
      var u := units[0];
      UnpackPack14(u, units[1..]);
      Unpack12(p, u, Pack(units[1..], 2, u % 4));
      assert [u] + units[1..] == units;
    }
  }

  lemma {:induction false} UnpackPack14(p: int, units: seq<int>)
    requires Units(units) && 0 <= p < 0x1_0000
    ensures Unpack(Pack(units, 2, p % 4), 14, p / 4) == Some([p] + units)
    decreases |units|
  {
    if units == [] {
      UnpackEnd(p % 4 * 16, 14, p / 4, 16, p);
    } else {
      var u := units[0];
      UnpackPack(units[1..]);
      Unpack14(p, u, Pack(units[1..], 0, 0));
      assert [u] + units[1..] == units;
    }
  }

  /** How many units come out depends on the number of letters alone. */
  ghost predicate Sized(units: Option<seq<int>>, bits: nat) {
    units.Some? ==> bits % 16 < 6 && |units.value| == bits / 16
  }

  lemma {:induction false} UnpackSize(sextets: seq<Sextet>, bits: nat, buffer: int)
    requires bits < 16
    ensures Sized(Unpack(sextets, bits, buffer), bits + 6 * |sextets|)
  {
    if sextets != [] {
      var more, total := buffer * 64 + sextets[0], bits + 6;
      if total < 16 {
        UnpackSize(sextets[1..], total, more);
      } else {
        var left := more % Shift(total - 16);
        UnpackSize(sextets[1..], total - 16, left);
        SizedMore(more / Shift(total - 16), Unpack(sextets[1..], total - 16, left), total - 16 + 6 * |sextets[1..]|);
      }
    }
  }

  lemma SizedMore(unit: int, units: Option<seq<int>>, bits: nat)
    requires Sized(units, bits)
    ensures Sized(WithUnit(unit, units), bits + 16)
  {
  }

  lemma {:induction false} PackInSixBits(units: seq<int>, bits: nat, buffer: int)
    requires Units(units) && (bits == 0 || (bits == 2 && 0 <= buffer < 4) || (bits == 4 && 0 <= buffer < 16))
    ensures InSixBits(Pack(units, bits, buffer))
    decreases |units|
  {
    if units != [] {
      var u := units[0];
      PackInSixBits(units[1..], if bits == 0 then 4 else if bits == 4 then 2 else 0,
                    if bits == 0 then u % 16 else if bits == 4 then u % 4 else 0);
    }
  }

  lemma {:induction false} PackSize(units: seq<int>, bits: nat, buffer: int)
    requires bits == 0 || bits == 2 || bits == 4
    ensures 16 * |units| + bits <= 6 * |Pack(units, bits, buffer)| <= 16 * |units| + bits + 4
    decreases |units|
  {
    if units != [] {
      var u := units[0];
      PackSize(units[1..], if bits == 0 then 4 else if bits == 4 then 2 else 0,
               if bits == 0 then u % 16 else if bits == 4 then u % 4 else 0);
    }
  }

  lemma {:induction false} Utf16Units(s: Text)
    requires Scalars(s)
    ensures Units(Utf16(s)) && (s != [] ==> Utf16(s) != [])
  {
    if s != [] {
      Utf16Units(s[1..]);
    }
  }

  // ----- Letters

  function Letter(v: Sextet): Byte {
    if 0 <= v < 26 then 0x41 + v
    else if 26 <= v < 52 then 0x61 + (v - 26)
    else if 52 <= v < 62 then 0x30 + (v - 52)
    else if v == 62 then PLUS
    else SLASH
  }

  predicate IsLetter(b: Byte) {
    0x41 <= b <= 0x5a || 0x61 <= b <= 0x7a || 0x30 <= b <= 0x39 || b == PLUS || b == SLASH
  }

  function Value(b: Byte): Sextet
    requires IsLetter(b)
  {
    if 0x41 <= b <= 0x5a then b - 0x41
    else if 0x61 <= b <= 0x7a then b - 0x61 + 26
    else if 0x30 <= b <= 0x39 then b - 0x30 + 52
    else if b == PLUS then 62
    else 63
  }

  predicate AllLetters(w: Bytes) {
    forall i :: 0 <= i < |w| ==> IsLetter(w[i])
  }

  function Letters(sextets: seq<Sextet>): (w: Bytes)
    ensures |w| == |sextets| && forall i :: 0 <= i < |w| ==> w[i] == Letter(sextets[i])
  {
    seq(|sextets|, i requires 0 <= i < |sextets| => Letter(sextets[i]))
  }

  function Values(w: Bytes): (sextets: seq<Sextet>)
    requires AllLetters(w)
    ensures |w| == |sextets| && forall i :: 0 <= i < |w| ==> sextets[i] == Value(w[i])
  {
    seq(|w|, i requires 0 <= i < |w| => Value(w[i]))
  }

  lemma ValuesLetters(sextets: seq<Sextet>)
    requires InSixBits(sextets)
    ensures AllLetters(Letters(sextets)) && Values(Letters(sextets)) == sextets
  {
  }

  /** How many letters the bytes begin with. */
  function LetterRun(w: Bytes): (n: nat)
    ensures n <= |w| && AllLetters(w[..n])
    ensures n < |w| ==> !IsLetter(w[n])
  {
    if w == [] || !IsLetter(w[0]) then 0
    else
      var n := LetterRun(w[1..]);
      assert w[..1 + n] == [w[0]] + w[1..][..n];
      1 + n
  }

  lemma {:induction false} LetterRunOf(letters: Bytes, rest: Bytes)
    requires AllLetters(letters) && (rest == [] || !IsLetter(rest[0]))
    ensures LetterRun(letters + rest) == |letters|
    ensures (letters + rest)[..|letters|] == letters
  {
    if letters == [] {
      assert letters + rest == rest;
    } else {
      assert (letters + rest)[1..] == letters[1..] + rest;
      LetterRunOf(letters[1..], rest);
    }
  }

  // ----- The codec

  /** How many characters the text begins with before the first blank one. */
  function SolidRun(s: Text): (n: nat)
    ensures n <= |s|
    ensures forall i :: 0 <= i < n ==> !Blank(s[i])
    ensures n < |s| ==> Blank(s[n])
  {
    if s == [] || Blank(s[0]) then 0 else 1 + SolidRun(s[1..])
  }

  /** The letters of a run of characters. */
  function Packed(s: Text): Bytes {
    Letters(Pack(Utf16(s), 0, 0))
  }

  /** The codec on text without printable ASCII: blank characters are written as they are, and
      they end a section without a dash. */
  function Encode(s: Text): Bytes
    decreases |s|, 2
  {
    if s == [] then []
    else if Blank(s[0]) then [s[0]] + Encode(s[1..])
    else EncodeSection(s, SolidRun(s))
  }

  function EncodeSection(s: Text, n: nat): Bytes
    requires 0 < n <= |s|
    decreases |s|, 1
  {
    [PLUS] + Packed(s[..n]) + AfterSolid(s, n)
  }

  /** What follows the letters of the first section. */
  function AfterSolid(s: Text, n: nat): Bytes
    requires 0 < n <= |s|
    decreases |s|, 0
  {
    if n == |s| then [DASH] else Encode(s[n..])
  }

  function Before(prefix: Text, rest: Option<Text>): Option<Text> {
    match rest
    case None => None
    case Some(text) => Some(prefix + text)
  }

  /** The text of a section of letters. */
  function Section(letters: Bytes): Option<Text>
    requires AllLetters(letters)
  {
    match Unpack(Values(letters), 0, 0)
    case None => None
    case Some(units) => Some(JoinUnits(units, 0))
  }

  function SkipDash(w: Bytes): Bytes {
    if w != [] && w[0] == DASH then w[1..] else w
  }

  /** `None` stands for the decoding error. The codec is only given bytes that end with a dash. */
  function Decode(w: Bytes): Option<Text>
    decreases |w|
  {
    if w == [] then Some([])
    else if w[0] == PLUS then DecodePlus(w[1..])
    else if w[0] < 0x80 then Before([w[0]], Decode(w[1..]))
    else None
  }

  /** What follows a plus sign: a dash alone, or a section of letters and perhaps a dash. */
  function DecodePlus(w: Bytes): Option<Text>
    decreases |w|
  {
    if w != [] && w[0] == DASH then Before([PLUS], Decode(w[1..]))
    else if w != [] && !IsLetter(w[0]) then None
    else
      var n := LetterRun(w);
      match Section(w[..n])
      case None => None
      case Some(text) => if n == |w| then Some(text) else Before(text, Decode(SkipDash(w[n..])))
  }

  lemma PackedSection(s: Text)
    requires Scalars(s)
    ensures AllLetters(Packed(s)) && Section(Packed(s)) == Some(s)
    ensures s != [] ==> Packed(s) != []
  {
    var units := Utf16(s);
    Utf16Units(s);
    PackInSixBits(units, 0, 0);
    ValuesLetters(Pack(units, 0, 0));
    UnpackPack(units);
    JoinUtf16(s);
    PackSize(units, 0, 0);
  }

  /** A complete section is decoded as a whole. */
  lemma DecodeSection(letters: Bytes, rest: Bytes)
    requires AllLetters(letters) && letters != [] && rest != [] && !IsLetter(rest[0])
    ensures DecodePlus(letters + rest) ==
            if Section(letters).None? then None else Before(Section(letters).value, Decode(SkipDash(rest)))
  {
    LetterRunOf(letters, rest);
    assert IsLetter((letters + rest)[0]);
    assert (letters + rest)[|letters|..] == rest;
  }

  lemma DecodeByte(b: Byte, rest: Bytes)
    ensures b == PLUS ==> Decode([b] + rest) == DecodePlus(rest)
    ensures b != PLUS && b < 0x80 ==> Decode([b] + rest) == Before([b], Decode(rest))
  {
    assert ([b] + rest)[1..] == rest;
  }

  lemma BeforeBefore(a: Text, b: Text, rest: Option<Text>)
    ensures Before(a, Before(b, rest)) == Before(a + b, rest)
  {
    if rest.Some? {
      assert a + (b + rest.value) == a + b + rest.value;
    }
  }

  /** Decoding undoes encoding, whatever follows. */
  lemma {:induction false} DecodeEncode(s: Text, rest: Bytes)
    requires Hidden(s)
    ensures Decode(Encode(s) + rest) == Before(s, Decode(rest))
    decreases |s|
  {
    if s == [] {
      assert Encode(s) + rest == rest;
      assert Decode(rest).Some? ==> [] + Decode(rest).value == Decode(rest).value;
    } else if Blank(s[0]) {
      DecodeEncode(s[1..], rest);
      DecodeBlank(s, rest);
    } else {
      var n := SolidRun(s);
      DecodeEncode(s[n..], rest);
      DecodeSolid(s, n, rest, Decode(rest));
    }
  }

  lemma DecodeBlank(s: Text, rest: Bytes)
    requires Hidden(s) && s != [] && Blank(s[0])
    requires Decode(Encode(s[1..]) + rest) == Before(s[1..], Decode(rest))
    ensures Decode(Encode(s) + rest) == Before(s, Decode(rest))
  {
    DecodeDirect(s[0], Encode(s[1..]), rest, s[1..], Decode(rest));
    assert [s[0]] + s[1..] == s;
  }

  lemma DecodeDirect(b: Byte, body: Bytes, rest: Bytes, text: Text, after: Option<Text>)
    requires b != PLUS && b < 0x80 && Decode(body + rest) == Before(text, after)
    ensures Decode([b] + body + rest) == Before([b] + text, after)
  {
    assert [b] + body + rest == [b] + (body + rest);
    DecodeByte(b, body + rest);
    BeforeBefore([b], text, after);
  }

  lemma EncodeSolid(s: Text, n: nat)
    requires Hidden(s) && s != [] && n == SolidRun(s) && n > 0
    ensures Encode(s) == [PLUS] + Packed(s[..n]) + AfterSolid(s, n)
    ensures AfterSolid(s, n) != [] && !IsLetter(AfterSolid(s, n)[0])
    ensures SkipDash(AfterSolid(s, n)) == Encode(s[n..])
  {
    if n < |s| {
      EncodeStart(s[n..]);
    }
  }

  lemma DecodeSolid(s: Text, n: nat, rest: Bytes, after: Option<Text>)
    requires Hidden(s) && s != [] && n == SolidRun(s) && n > 0
    requires Decode(Encode(s[n..]) + rest) == Before(s[n..], after)
    ensures Decode(Encode(s) + rest) == Before(s, after)
  {
    EncodeSolid(s, n);
    assert s[..n] + s[n..] == s;
    DecodeChunk(Encode(s), s[..n], AfterSolid(s, n), rest, s[n..], after);
  }

  lemma DecodeChunk(encoded: Bytes, chunk: Text, body: Bytes, rest: Bytes, text: Text, after: Option<Text>)
    requires Scalars(chunk) && chunk != [] && body != [] && !IsLetter(body[0])
    requires encoded == [PLUS] + Packed(chunk) + body
    requires Decode(SkipDash(body) + rest) == Before(text, after)
    ensures Decode(encoded + rest) == Before(chunk + text, after)
  {
    ConcatAssoc([PLUS] + Packed(chunk), body, rest);
    ConcatAssoc([PLUS], Packed(chunk), body + rest);
    DecodeByte(PLUS, Packed(chunk) + (body + rest));
    DecodePacked(chunk, body, rest);
    BeforeBefore(chunk, text, after);
  }

  lemma DecodePacked(chunk: Text, body: Bytes, rest: Bytes)
    requires Scalars(chunk) && chunk != [] && body != [] && !IsLetter(body[0])
    ensures DecodePlus(Packed(chunk) + (body + rest)) == Before(chunk, Decode(SkipDash(body) + rest))
  {
    PackedSection(chunk);
    assert SkipDash(body + rest) == SkipDash(body) + rest;
    DecodeSection(Packed(chunk), body + rest);
  }

  lemma EncodeStart(s: Text)
    requires Hidden(s) && s != [] && Blank(s[0])
    ensures Encode(s) != [] && Encode(s)[0] == s[0] && !IsLetter(s[0]) && s[0] != DASH
  {
  }
}
