/** When decoding a mailbox name gives back what was encoded. */
module NameRoundTrip {
  import opened Collections
  import opened Wire
  import opened Utf7
  import opened ModUtf7

  // ----- The bytes of a run

  /** Neither a dash nor a comma. */
  predicate Clean(w: Bytes) {
    forall i :: 0 <= i < |w| ==> w[i] != DASH && w[i] != COMMA
  }

  lemma CleanPacked(s: Text)
    requires Scalars(s)
    ensures Clean([PLUS] + Packed(s))
  {
    PackedSection(s);
  }

  function Last(s: Text): int
    requires s != []
  {
    s[|s| - 1]
  }

  /** A dash ends the encoded run exactly when its last character is not blank. */
  ghost predicate Shaped(s: Text, w: Bytes)
    requires s != []
  {
    && w != []
    && (Blank(Last(s)) ==> Clean(w))
    && (!Blank(Last(s)) ==> w[|w| - 1] == DASH && Clean(w[..|w| - 1]))
  }

  lemma ShapedMore(head: Bytes, s: Text, t: Text, w: Bytes)
    requires s != [] && t != [] && Last(s) == Last(t) && Clean(head) && Shaped(t, w)
    ensures Shaped(s, head + w)
  {
    if !Blank(Last(s)) {
      assert (head + w)[..|head + w| - 1] == head + w[..|w| - 1];
    }
  }

  lemma {:induction false} EncodeShape(s: Text)
    requires Hidden(s) && s != []
    ensures Shaped(s, Encode(s))
    ensures Encode(s)[0] == if Blank(s[0]) then s[0] else PLUS
    decreases |s|
  {
    if !Blank(s[0]) {
      var n := SolidRun(s);
      if n < |s| {
        EncodeShape(s[n..]);
      }
      SolidShape(s, n, Encode(s), if n < |s| then Encode(s[n..]) else [DASH]);
    } else if |s| > 1 {
      EncodeShape(s[1..]);
      ShapedMore([s[0]], s, s[1..], Encode(s[1..]));
    } else {
      assert Encode(s[1..]) == [];
    }
  }

  lemma SolidShape(s: Text, n: nat, w: Bytes, rest: Bytes)
    requires Hidden(s) && s != [] && n == SolidRun(s) > 0 && w == Encode(s)
    requires if n < |s| then rest == Encode(s[n..]) && Shaped(s[n..], rest) else rest == [DASH]
    ensures Shaped(s, w) && w[0] == PLUS
  {
    var head := [PLUS] + Packed(s[..n]);
    EncodeSolid(s, n);
    CleanPacked(s[..n]);
    if n < |s| {
      ShapedMore(head, s, s[n..], rest);
    } else {
      assert (head + [DASH])[..|head|] == head;
    }
  }

  predicate Solid(run: Text) {
    run != [] && !Blank(run[0]) && !Blank(Last(run))
  }

  lemma ReplaceBack(w: Bytes)
    requires Clean(w)
    ensures Replace(Replace(w, SLASH, COMMA), COMMA, SLASH) == w
    ensures Dashless(Replace(w, SLASH, COMMA))
  {
  }

  predicate Dashless(w: Bytes) {
    forall i :: 0 <= i < |w| ==> w[i] != DASH
  }

  lemma SolidB64(run: Text)
    requires Hidden(run) && Solid(run)
    ensures B64Encode(run) != [] && Dashless(B64Encode(run))
    ensures B64Decode(B64Encode(run)) == Some(run)
  {
    EncodeShape(run);
    EncodeLong(run);
    StripShape(Encode(run));
    ReplaceBack(Strip(Encode(run)));
    DecodeWhole(run);
  }

  lemma DecodeWhole(s: Text)
    requires Hidden(s)
    ensures Decode(Encode(s)) == Some(s)
  {
    DecodeEncode(s, []);
    assert Encode(s) + [] == Encode(s) && s + [] == s;
  }

  lemma EncodeLong(s: Text)
    requires Hidden(s) && s != [] && !Blank(s[0])
    ensures |Encode(s)| > 2
  {
    var n := SolidRun(s);
    EncodeSolid(s, n);
    PackedSection(s[..n]);
  }

  lemma StripShape(w: Bytes)
    requires |w| > 2 && w[0] == PLUS && w[|w| - 1] == DASH && Clean(w[..|w| - 1])
    ensures Strip(w) != [] && Clean(Strip(w)) && [PLUS] + Strip(w) + [DASH] == w
  {
    assert Strip(w) == w[..|w| - 1][1..];
  }

  lemma ReadShifted(code: Bytes, rest: Bytes)
    requires code != [] && Dashless(code)
    ensures Decoded([AMPERSAND] + code + [DASH] + rest) ==
            match B64Decode(code)
            case None => Invalid
            case Some(text) => After(text, Decoded(rest))
  {
    var w := code + [DASH] + rest;
    assert [AMPERSAND] + code + [DASH] + rest == [AMPERSAND] + w;
    assert ([AMPERSAND] + w)[1..] == w;
    assert w[0] == code[0];
    DashIs(w, |code|);
    assert w[..|code|] == code && w[|code| + 1..] == rest;
  }

  // ----- The bytes of a text

  function Tail(s: Text, n: nat): Bytes
    requires n <= |s| && (n < |s| ==> Printable(s[n]))
  {
    if n == |s| then [] else [s[n]] + Encoded(s[n + 1..])
  }

  lemma EncodedTail(s: Text)
    requires s != [] && !Printable(s[0])
    ensures Encoded(s) == Shifted(s[..HiddenRun(s)]) + Tail(s, HiddenRun(s))
  {
    var n := HiddenRun(s);
    if n == |s| {
      assert s[..n] == s;
      assert Shifted(s) + [] == Shifted(s);
    } else {
      ConcatAssoc(Shifted(s[..n]), [s[n]], Encoded(s[n + 1..]));
    }
  }

  lemma TailApart(s: Text, n: nat)
    requires n <= |s| && (n < |s| ==> Printable(s[n]) && s[n] != AMPERSAND)
    ensures Tail(s, n) == Encoded(s[n..])
  {
    if n < |s| {
      EncodedPrintable(s, n);
    }
  }

  lemma ReadPrintable(s: Text)
    requires s != [] && Printable(s[0])
    ensures Decoded(Encoded(s)) == After([s[0]], Decoded(Encoded(s[1..])))
  {
    var w := Encoded(s);
    if s[0] == AMPERSAND {
      assert w[2..] == Encoded(s[1..]);
    } else {
      assert w[1..] == Encoded(s[1..]);
    }
  }

  lemma ReadRun(s: Text, n: nat)
    requires Scalars(s) && s != [] && n == HiddenRun(s) && n > 0 && Solid(s[..n])
    ensures Decoded(Encoded(s)) == After(s[..n], Decoded(Tail(s, n)))
  {
    EncodedTail(s);
    SolidB64(s[..n]);
    ReadShifted(B64Encode(s[..n]), Tail(s, n));
  }

  // ----- Ampersands

  /** No ampersand directly follows a character that is not printable. */
  ghost predicate AmpersandsApart(s: Text) {
    forall i :: 0 < i < |s| && s[i] == AMPERSAND ==> Printable(s[i - 1])
  }

  ghost predicate NoBlanks(s: Text) {
    forall i :: 0 <= i < |s| ==> !Blank(s[i])
  }

  lemma ApartCut(s: Text, n: nat)
    requires 0 < n <= |s| && forall i :: 0 < i < n ==> s[i] != AMPERSAND
    ensures AmpersandsApart(s) <==>
            (n < |s| && s[n] == AMPERSAND ==> Printable(s[n - 1])) && AmpersandsApart(s[n..])
  {
    if AmpersandsApart(s[n..]) && (n < |s| && s[n] == AMPERSAND ==> Printable(s[n - 1])) {
      forall i | 0 < i < |s| && s[i] == AMPERSAND
        ensures Printable(s[i - 1])
      {
        assert i > n ==> s[n..][i - n] == s[i] && s[n..][i - n - 1] == s[i - 1];
      }
    }
  }

  lemma AfterIs(prefix: Text, rest: Reading, text: Text)
    ensures After(prefix, rest) == Read(prefix + text) <==> rest == Read(text)
  {
    if rest.Read? && prefix + rest.text == prefix + text {
      assert (prefix + text)[|prefix|..] == text && (prefix + rest.text)[|prefix|..] == rest.text;
    }
  }

  lemma B64DecodeIs(w: Bytes)
    ensures B64Decode(w) == DecodePlus(Replace(w, COMMA, SLASH) + [DASH])
  {
    var x := Replace(w, COMMA, SLASH);
    assert [PLUS] + x + [DASH] == [PLUS] + (x + [DASH]);
    DecodeByte(PLUS, x + [DASH]);
  }

  lemma SectionSize(letters: Bytes)
    requires AllLetters(letters) && letters != []
    ensures Section(letters).Some? ==> 0 < |Section(letters).value| < |letters|
  {
    UnpackSize(Values(letters), 0, 0);
    if Section(letters).Some? {
      JoinSize(Unpack(Values(letters), 0, 0).value, 0);
    }
  }

  /** How many characters the text begins with that are written as they are and are no dash. */
  function PlainRun(s: Text): (n: nat)
    ensures n <= |s|
    ensures forall i :: 0 <= i < n ==> Printable(s[i]) && s[i] != AMPERSAND && s[i] != DASH
    ensures n < |s| ==> !Printable(s[n]) || s[n] == AMPERSAND || s[n] == DASH
  {
    if s == [] || !Printable(s[0]) || s[0] == AMPERSAND || s[0] == DASH then 0 else 1 + PlainRun(s[1..])
  }

  lemma {:induction false} EncodedPlain(s: Text, n: nat)
    requires n <= |s| && forall i :: 0 <= i < n ==> Printable(s[i]) && s[i] != AMPERSAND
    ensures Encoded(s) == s[..n] + Encoded(s[n..])
  {
    if n == 0 {
      assert s[0..] == s && s[..0] + Encoded(s) == Encoded(s);
    } else {
      EncodedPlain(s, n - 1);
      EncodedPrintable(s, n - 1);
      Regroup(s, n, Encoded(s[n - 1..]), Encoded(s[n..]));
    }
  }

  lemma Regroup(s: Text, n: nat, w: Bytes, rest: Bytes)
    requires 0 < n <= |s| && w == [s[n - 1]] + rest
    ensures s[..n - 1] + w == s[..n] + rest
  {
  }

  lemma EncodedFirst(s: Text)
    requires s != []
    ensures Encoded(s) != []
    ensures s[0] == DASH ==> Encoded(s) == [DASH] + Encoded(s[1..])
    ensures !Printable(s[0]) || s[0] == AMPERSAND ==> Encoded(s)[0] == AMPERSAND
  {
    if !Printable(s[0]) {
      EncodedTail(s);
    }
  }

  lemma AmpersandThen(w: Bytes)
    ensures w == [] || w[0] != DASH ==> Decoded([AMPERSAND] + w) == DecodedShift(w)
    ensures w != [] && w[0] == DASH ==> Decoded([AMPERSAND] + w) == After([AMPERSAND], Decoded(w[1..]))
  {
    assert ([AMPERSAND] + w)[1..] == w;
    if w != [] {
      assert ([AMPERSAND] + w)[2..] == w[1..];
    }
  }

  lemma AfterPrefix(text: Text, rest: Reading, whole: Text)
    requires |text| <= |whole| && text != whole[..|text|]
    ensures After(text, rest) != Read(whole)
  {
    if rest.Read? {
      assert (text + rest.text)[..|text|] == text;
    }
  }

  lemma EmptyShift()
    ensures DecodedShift([]) == Read([PLUS])
  {
    var none: Bytes := [];
    assert none[..DashAt(none)] == none;
    B64DecodeIs(none);
    assert Replace(none, COMMA, SLASH) + [DASH] == [DASH];
    assert [DASH][1..] == none && Decode(none) == Some([]);
    assert [PLUS] + [] == [PLUS];
  }

  lemma PrintableExact(s: Text)
    requires s != [] && Printable(s[0])
    ensures Decoded(Encoded(s)) == Read(s) <==> Decoded(Encoded(s[1..])) == Read(s[1..])
  {
    ReadPrintable(s);
    assert [s[0]] == s[..1];
    CutIs(s, 1, Decoded(Encoded(s)), Decoded(Encoded(s[1..])));
  }

  lemma RunExact(s: Text, n: nat)
    requires Scalars(s) && s != [] && n == HiddenRun(s) && n > 0 && Solid(s[..n])
    ensures Decoded(Encoded(s)) == Read(s) <==> Decoded(Tail(s, n)) == Read(s[n..])
  {
    ReadRun(s, n);
    CutIs(s, n, Decoded(Encoded(s)), Decoded(Tail(s, n)));
  }

  lemma CutIs(s: Text, n: nat, whole: Reading, rest: Reading)
    requires n <= |s| && whole == After(s[..n], rest)
    ensures whole == Read(s) <==> rest == Read(s[n..])
  {
    assert s[..n] + s[n..] == s;
    AfterIs(s[..n], rest, s[n..]);
  }
}
