/** How much decoding can yield: never more characters than bytes, and from the middle of an encoded
    run always less than the run. */
module NameWeights {
  import opened Collections
  import opened Wire
  import opened Utf7
  import opened ModUtf7
  import opened NameRoundTrip
  import opened NameBlanks

  // ----- The UTF-16 units of the characters outside printable ASCII

  function Weight(s: Text): nat {
    if s == [] then 0 else (if Printable(s[0]) then 0 else |UnitsOf(s[0])|) + Weight(s[1..])
  }

  lemma {:induction false} WeightConcat(a: Text, b: Text)
    ensures Weight(a + b) == Weight(a) + Weight(b)
  {
    if a == [] {
      assert a + b == b;
    } else {
      assert (a + b)[1..] == a[1..] + b;
      WeightConcat(a[1..], b);
    }
  }

  lemma {:induction false} WeightIsUnits(s: Text)
    requires Hidden(s)
    ensures Weight(s) == |Utf16(s)|
  {
    if s != [] {
      WeightIsUnits(s[1..]);
    }
  }

  lemma WeightJoinOne(c: int, rest: Text)
    ensures Weight([c] + rest) <= Weight(rest) + |UnitsOf(c)|
  {
    assert ([c] + rest)[1..] == rest;
  }

  /** Joining surrogates yields no more units than it was given. */
  lemma {:induction false} WeightJoin(units: seq<int>, high: int)
    requires Units(units) && high < 0x1_0000
    ensures Weight(JoinUnits(units, high)) <= |units| + (if high != 0 then 1 else 0)
    decreases |units|
  {
    if units == [] {
      if high != 0 {
        WeightJoinOne(high, []);
        assert [high] + [] == [high];
      }
    } else {
      WeightJoin(units[1..], 0);
      WeightJoin(units[1..], units[0]);
      WeightJoinStep(units, high, JoinUnits(units[1..], 0), JoinUnits(units[1..], units[0]));
    }
  }

  lemma WeightJoinStep(units: seq<int>, high: int, plain: Text, after: Text)
    requires units != [] && Units(units) && high < 0x1_0000
    requires plain == JoinUnits(units[1..], 0) && after == JoinUnits(units[1..], units[0])
    requires Weight(plain) <= |units| - 1 && Weight(after) <= |units|
    ensures Weight(JoinUnits(units, high)) <= |units| + (if high != 0 then 1 else 0)
  {
    var u := units[0];
    if high != 0 && IsLow(u) {
      WeightJoinOne(0x1_0000 + (high - 0xd800) * 0x400 + (u - 0xdc00), plain);
    } else {
      var rest := if IsHigh(u) then after else [u] + plain;
      WeightJoinOne(u, plain);
      assert Weight(rest) <= |units|;
      if high != 0 {
        WeightJoinOne(high, rest);
      } else {
        assert [] + rest == rest;
      }
    }
  }

  /** Six bits at a time give units of sixteen bits. */
  lemma {:induction false} UnpackUnits(sextets: seq<Sextet>, bits: nat, buffer: int)
    requires bits < 16 && bits % 2 == 0 && 0 <= buffer < Shift(bits) && InSixBits(sextets)
    ensures Unpack(sextets, bits, buffer).Some? ==> Units(Unpack(sextets, bits, buffer).value)
    decreases |sextets|
  {
    if sextets != [] {
      var more, total := buffer * 64 + sextets[0], bits + 6;
      ShiftSix(bits);
      if total < 16 {
        UnpackUnits(sextets[1..], total, more);
      } else {
        UnitFits(total, more);
        UnpackUnits(sextets[1..], total - 16, more % Shift(total - 16));
      }
    }
  }

  lemma ShiftSix(bits: nat)
    ensures Shift(bits + 6) == 64 * Shift(bits)
  {
    assert Shift(bits + 6) == 2 * Shift(bits + 5) == 4 * Shift(bits + 4) == 8 * Shift(bits + 3);
    assert Shift(bits + 3) == 2 * Shift(bits + 2) == 4 * Shift(bits + 1) == 8 * Shift(bits);
  }

  lemma UnitFits(total: nat, more: int)
    requires 16 <= total < 22 && total % 2 == 0 && 0 <= more < Shift(total)
    ensures 0 <= more / Shift(total - 16) < 0x1_0000
  {
    assert Shift(16) == 0x1_0000;
    assert Shift(0) == 1 && Shift(2) == 4 && Shift(4) == 16;
    assert Shift(18) == 4 * Shift(16) && Shift(20) == 4 * Shift(18);
  }

  lemma SectionWeight(letters: Bytes)
    requires AllLetters(letters)
    ensures Section(letters).Some? ==> Weight(Section(letters).value) <= 6 * |letters| / 16
  {
    var sextets := Values(letters);
    assert InSixBits(sextets);
    UnpackUnits(sextets, 0, 0);
    UnpackSize(sextets, 0, 0);
    if Unpack(sextets, 0, 0).Some? {
      WeightJoin(Unpack(sextets, 0, 0).value, 0);
    }
  }

  // ----- No more characters than bytes

  predicate AtMost(text: Option<Text>, n: nat) {
    text.Some? ==> |text.value| <= n
  }

  lemma {:induction false} DecodeSize(w: Bytes)
    ensures AtMost(Decode(w), |w|)
    decreases |w|, 0
  {
    if w != [] && w[0] == PLUS {
      DecodePlusSize(w[1..]);
    } else if w != [] {
      DecodeSize(w[1..]);
    }
  }

  lemma {:induction false} DecodePlusSize(w: Bytes)
    ensures AtMost(DecodePlus(w), |w|)
    ensures w != [] && w[0] != DASH ==> AtMost(DecodePlus(w), |w| - 1)
    decreases |w|, 1
  {
    var n := LetterRun(w);
    if w == [] {
      EmptySection(w);
    } else if w[0] == DASH {
      DecodeSize(w[1..]);
    } else if IsLetter(w[0]) {
      SectionSize(w[..n]);
      DecodeSize(SkipDash(w[n..]));
    }
  }

  lemma EmptySection(w: Bytes)
    requires w == []
    ensures DecodePlus(w) == Some([])
  {
    assert Values([]) == [] && w[..0] == [];
  }

  // ----- A byte that cannot be part of a section

  /** What is decoded before and after an ampersand in the middle. */
  ghost predicate SplitAt(text: Option<Text>, before: Text, after: Option<Text>) {
    text.Some? ==> after.Some? && text.value == before + [AMPERSAND] + after.value
  }

  lemma {:induction false} SplitAmpersand(w: Bytes, y: Bytes) returns (before: Text)
    requires Dashless(w)
    ensures SplitAt(Decode(w + [AMPERSAND] + y), before, Decode(y)) && |before| <= |w|
    decreases |w|, 0
  {
    var all := w + [AMPERSAND] + y;
    if w == [] {
      before := [];
      assert all == [AMPERSAND] + y;
      DecodeByte(AMPERSAND, y);
    } else {
      SplitHead(w, y);
      DecodeByte(w[0], w[1..] + [AMPERSAND] + y);
      if w[0] == PLUS {
        before := SplitPlus(w[1..], y);
      } else {
        before := SplitAmpersand(w[1..], y);
        SplitMore([w[0]], Decode(w[1..] + [AMPERSAND] + y), before, Decode(y));
        before := [w[0]] + before;
        assert Decode(all).Some? ==> w[0] < 0x80;
      }
    }
  }

  lemma SplitHead(w: Bytes, y: Bytes)
    requires w != []
    ensures w + [AMPERSAND] + y == [w[0]] + (w[1..] + [AMPERSAND] + y)
  {
  }

  lemma SplitMore(first: Text, text: Option<Text>, before: Text, after: Option<Text>)
    requires SplitAt(text, before, after)
    ensures SplitAt(Before(first, text), first + before, after)
  {
    if text.Some? {
      assert first + (before + [AMPERSAND] + after.value) == first + before + [AMPERSAND] + after.value;
    }
  }

  lemma {:induction false} SplitPlus(w: Bytes, y: Bytes) returns (before: Text)
    requires Dashless(w)
    ensures SplitAt(DecodePlus(w + [AMPERSAND] + y), before, Decode(y))
    ensures (w != [] ==> |before| < |w|) && |before| <= |w|
    decreases |w|, 1
  {
    var all := w + [AMPERSAND] + y;
    if w == [] || !IsLetter(w[0]) {
      before := [];
      assert all[0] == if w == [] then AMPERSAND else w[0];
    } else {
      var n := LetterRun(w);
      var rest := w[n..] + [AMPERSAND] + y;
      before := SplitAmpersand(w[n..], y);
      SplitLetters(w, n, y);
      DecodeSection(w[..n], rest);
      SectionSize(w[..n]);
      if Section(w[..n]).Some? {
        SplitMore(Section(w[..n]).value, Decode(rest), before, Decode(y));
        before := Section(w[..n]).value + before;
      }
    }
  }

  lemma SplitLetters(w: Bytes, n: nat, y: Bytes)
    requires w != [] && Dashless(w) && IsLetter(w[0]) && n == LetterRun(w)
    ensures n > 0 && w[..n] != [] && w + [AMPERSAND] + y == w[..n] + (w[n..] + [AMPERSAND] + y)
    ensures var rest := w[n..] + [AMPERSAND] + y; rest != [] && !IsLetter(rest[0]) && SkipDash(rest) == rest
  {
    var rest := w[n..] + [AMPERSAND] + y;
    assert rest[0] == if n < |w| then w[n] else AMPERSAND;
  }

  // ----- Decoding from the middle of a run

  /** At most so much weight. */
  predicate Weighs(text: Option<Text>, n: int) {
    text.Some? ==> Weight(text.value) <= n
  }

  lemma WeighsMore(first: Text, text: Option<Text>, n: int)
    requires Weighs(text, n)
    ensures Weighs(Before(first, text), Weight(first) + n)
  {
    if text.Some? {
      WeightConcat(first, text.value);
    }
  }

  /** Letters outside a section weigh nothing, and a section among them has lost a letter. */
  lemma {:induction false} DirectLetters(letters: Bytes, rest: Bytes, n: nat)
    requires AllLetters(letters) && letters != [] && rest != [] && !IsLetter(rest[0])
    requires Weighs(Decode(rest), n) && Weighs(Decode(SkipDash(rest)), n)
    ensures Weighs(Decode(letters + rest), 6 * (|letters| - 1) / 16 + n)
    decreases |letters|
  {
    var more := letters[1..];
    assert letters + rest == [letters[0]] + (more + rest);
    DecodeByte(letters[0], more + rest);
    if letters[0] == PLUS {
      if more == [] {
        assert more + rest == rest;
        PlusThen(rest, n);
      } else {
        DecodeSection(more, rest);
        SectionWeight(more);
        if Section(more).Some? {
          WeighsMore(Section(more).value, Decode(SkipDash(rest)), n);
        }
      }
    } else {
      LetterWeight(letters[0]);
      if more == [] {
        assert more + rest == rest;
        WeighsMore([letters[0]], Decode(rest), n);
      } else {
        DirectLetters(more, rest, n);
        WeighsMore([letters[0]], Decode(more + rest), 6 * (|more| - 1) / 16 + n);
      }
    }
  }

  lemma LetterWeight(b: Byte)
    requires IsLetter(b) || b == DASH || b == PLUS
    ensures Weight([b]) == 0
  {
    assert [b][1..] == [];
  }

  lemma PlusThen(rest: Bytes, n: nat)
    requires rest != [] && !IsLetter(rest[0]) && Weighs(Decode(SkipDash(rest)), n)
    ensures Weighs(DecodePlus(rest), n)
  {
    LetterWeight(PLUS);
    if rest[0] == DASH {
      WeighsMore([PLUS], Decode(rest[1..]), n);
    }
  }

  lemma PackedWeight(s: Text)
    requires Hidden(s) && s != []
    ensures Packed(s) != [] && 6 * (|Packed(s)| - 1) / 16 <= Weight(s) - 1
  {
    PackedSection(s);
    WeightIsUnits(s);
    PackSize(Utf16(s), 0, 0);
  }

  /** Without the plus sign that begins it, the encoding of a run decodes to less than the run. */
  lemma Chopped(run: Text, rest: Bytes, n: nat)
    requires Hidden(run) && run != [] && Weighs(Decode(rest), n)
    ensures Encode(run) != [] && Weighs(Decode(Encode(run)[1..] + rest), Weight(run) - 1 + n)
  {
    EncodeShape(run);
    if Blank(run[0]) {
      assert Encode(run)[1..] == Encode(run[1..]);
      DecodeEncode(run[1..], rest);
      WeighsMore(run[1..], Decode(rest), n);
    } else {
      ChoppedSolid(run, SolidRun(run), rest, n);
    }
  }

  lemma ChoppedSolid(run: Text, k: nat, rest: Bytes, n: nat)
    requires Hidden(run) && run != [] && k == SolidRun(run) > 0 && Weighs(Decode(rest), n)
    ensures Encode(run) != [] && Weighs(Decode(Encode(run)[1..] + rest), Weight(run) - 1 + n)
  {
    EncodeSolid(run, k);
    PackedSection(run[..k]);
    PackedWeight(run[..k]);
    AfterChopped(run, k, rest, n);
    ChoppedLetters(Encode(run), Packed(run[..k]), AfterSolid(run, k), rest, Weight(run[k..]) + n);
    WeightSplit(run, k);
  }

  lemma WeightSplit(run: Text, k: nat)
    requires k <= |run|
    ensures Weight(run) == Weight(run[..k]) + Weight(run[k..])
  {
    WeightConcat(run[..k], run[k..]);
    assert run[..k] + run[k..] == run;
  }

  lemma ChoppedLetters(w: Bytes, letters: Bytes, after: Bytes, rest: Bytes, n: nat)
    requires AllLetters(letters) && letters != [] && w == [PLUS] + letters + after
    requires after + rest != [] && !IsLetter((after + rest)[0])
    requires Weighs(Decode(after + rest), n) && Weighs(Decode(SkipDash(after + rest)), n)
    ensures Weighs(Decode(w[1..] + rest), 6 * (|letters| - 1) / 16 + n)
  {
    assert w[1..] == letters + after;
    ConcatAssoc(letters, after, rest);
    DirectLetters(letters, after + rest, n);
  }

  lemma AfterChopped(run: Text, k: nat, rest: Bytes, n: nat)
    requires Hidden(run) && run != [] && k == SolidRun(run) > 0 && Weighs(Decode(rest), n)
    ensures var q := AfterSolid(run, k) + rest;
            && q != [] && !IsLetter(q[0])
            && Weighs(Decode(q), Weight(run[k..]) + n) && Weighs(Decode(SkipDash(q)), Weight(run[k..]) + n)
  {
    EncodeSolid(run, k);
    if k == |run| {
      assert AfterSolid(run, k) + rest == [DASH] + rest && ([DASH] + rest)[1..] == rest;
      DecodeByte(DASH, rest);
      LetterWeight(DASH);
      WeighsMore([DASH], Decode(rest), n);
      assert run[k..] == [];
    } else {
      DecodeEncode(run[k..], rest);
      WeighsMore(run[k..], Decode(rest), n);
    }
  }

  /** What an ampersand and the code of a run decode to, when the ampersand is taken for itself. */
  lemma CodeWeighsLess(run: Text)
    requires Hidden(run) && run != []
    ensures Dashless(B64Encode(run))
    ensures Weighs(Decode(Replace(B64Encode(run), COMMA, SLASH) + [DASH]), Weight(run) - 1)
  {
    EncodeShape(run);
    StripClean(run, Encode(run));
    ReplaceBack(Strip(Encode(run)));
    if Blank(Last(run)) {
      CodeBlankLast(run, run[..|run| - 1]);
    } else {
      Chopped(run, [], 0);
      StripDash(run, Encode(run));
      assert Encode(run)[1..] + [] == Encode(run)[1..];
    }
  }

  lemma StripDash(run: Text, w: Bytes)
    requires run != [] && !Blank(Last(run)) && Shaped(run, w) && |w| > 0
    ensures |w| >= 2 ==> Strip(w) + [DASH] == w[1..]
    ensures |w| < 2 ==> Strip(w) + [DASH] == [DASH]
  {
  }

  lemma CodeBlankLast(run: Text, r: Text)
    requires Hidden(run) && run != [] && Blank(Last(run)) && r == run[..|run| - 1]
    ensures Weighs(Decode(Strip(Encode(run)) + [DASH]), Weight(run) - 1)
  {
    DecodeDash();
    LetterWeight(DASH);
    WeightSplit(run, |r|);
    assert run[|r|..] == [Last(run)];
    BlankWeight(Last(run));
    if r == [] {
      assert run == [run[0]];
      EncodeOne(run[0]);
    } else {
      assert run == r + [Last(run)];
      EncodeSnoc(r, Last(run));
      StripLast(Undashed(r, Encode(r)), Last(run), Encode(run));
      UndashedChopped(r, Undashed(r, Encode(r)));
    }
  }

  lemma UndashedChopped(r: Text, w: Bytes)
    requires Hidden(r) && r != [] && Encode(r) != [] && w == Undashed(r, Encode(r))
    ensures w != [] && Weighs(Decode((w + [DASH])[1..]), Weight(r) - 1)
  {
    EncodeShape(r);
    DecodeDash();
    LetterWeight(DASH);
    if Blank(Last(r)) {
      Chopped(r, [DASH], 0);
      assert (w + [DASH])[1..] == w[1..] + [DASH];
    } else {
      UndashedBack(r, Encode(r));
      Chopped(r, [], 0);
      assert Encode(r)[1..] + [] == Encode(r)[1..];
    }
  }

  lemma BlankWeight(c: int)
    requires Blank(c)
    ensures Weight([c]) == 1
  {
    assert [c][1..] == [];
  }

  lemma StripLast(w: Bytes, last: Byte, whole: Bytes)
    requires whole == w + [last]
    ensures w != [] ==> Strip(whole) + [DASH] == (w + [DASH])[1..] && (w + [DASH])[1..] == w[1..] + [DASH]
    ensures w == [] ==> Strip(whole) + [DASH] == [DASH]
  {
  }
}
