/** Tabs and line ends in mailbox names: the codec writes them as they are, and the slice that
    takes off its first and last byte can lose them. */
module NameBlanks {
  import opened Collections
  import opened Wire
  import opened Utf7
  import opened ModUtf7
  import opened NameRoundTrip

  predicate InsideAt(s: Text, i: nat)
    requires i < |s|
  {
    0 < i < |s| - 1 && !Printable(s[i - 1]) && !Printable(s[i + 1])
  }

  /** Every blank character stands between two that are not printable. */
  ghost predicate BlanksInside(s: Text) {
    forall i :: 0 <= i < |s| && Blank(s[i]) ==> InsideAt(s, i)
  }

  lemma InsideCut(s: Text, n: nat)
    requires 0 < n <= |s| && (n < |s| ==> Printable(s[n - 1]) || Printable(s[n]))
    ensures BlanksInside(s) <==> BlanksInside(s[..n]) && BlanksInside(s[n..])
  {
    if BlanksInside(s) {
      forall i | 0 <= i < n && Blank(s[i])
        ensures InsideAt(s[..n], i)
      {
        assert InsideAt(s, i);
      }
      forall i | n <= i < |s| && Blank(s[i])
        ensures InsideAt(s[n..], i - n)
      {
        assert InsideAt(s, i);
      }
      assert forall i :: 0 <= i < |s[n..]| ==> s[n..][i] == s[n + i];
    } else if BlanksInside(s[..n]) && BlanksInside(s[n..]) {
      forall i | 0 <= i < |s| && Blank(s[i])
        ensures InsideAt(s, i)
      {
        if i < n {
          assert InsideAt(s[..n], i);
        } else {
          assert s[n..][i - n] == s[i] && InsideAt(s[n..], i - n);
        }
      }
    }
  }

  lemma InsideRun(run: Text)
    requires run != [] && forall i :: 0 <= i < |run| ==> !Printable(run[i])
    ensures BlanksInside(run) <==> Solid(run)
  {
    assert !InsideAt(run, 0) && !InsideAt(run, |run| - 1);
  }

  /** The encoding without the dash that may end it. */
  function Undashed(run: Text, w: Bytes): Bytes
    requires run != [] && w != []
  {
    if Blank(Last(run)) then w else w[..|w| - 1]
  }

  /** A blank character at the end takes the place of the dash. */
  lemma {:induction false} EncodeSnoc(run: Text, blank: int)
    requires Hidden(run) && run != [] && Blank(blank)
    ensures Encode(run) != [] && Encode(run + [blank]) == Undashed(run, Encode(run)) + [blank]
    decreases |run|
  {
    EncodeShape(run);
    EncodeOne(blank);
    if Blank(run[0]) {
      if |run| > 1 {
        EncodeSnoc(run[1..], blank);
        SnocBlank(run, blank);
      } else {
        assert run == [run[0]];
        EncodeOne(run[0]);
        SnocBlankOne(run, blank);
      }
    } else {
      var n := SolidRun(run);
      if n < |run| {
        EncodeSnoc(run[n..], blank);
        SnocSolid(run, n, blank);
      } else {
        SnocSolidOne(run, n, blank);
      }
    }
  }

  lemma SnocBlank(run: Text, blank: int)
    requires |run| > 1 && Blank(run[0]) && Blank(blank) && Encode(run[1..]) != []
    requires Encode(run[1..] + [blank]) == Undashed(run[1..], Encode(run[1..])) + [blank]
    ensures Encode(run) != [] && Encode(run + [blank]) == Undashed(run, Encode(run)) + [blank]
  {
    SnocParts(run, 1, blank);
    EncodeBlank(run[0], run[1..]);
    EncodeBlank(run[0], run[1..] + [blank]);
    var rest, moreRest := Encode(run[1..]), Encode(run[1..] + [blank]);
    SnocMore([run[0]], run, run[1..], rest, moreRest, Encode(run), Encode(run + [blank]), blank);
  }

  lemma SnocParts(run: Text, n: nat, blank: int)
    requires 0 < n <= |run|
    ensures (run + [blank])[..n] == run[..n] && (run + [blank])[n..] == run[n..] + [blank]
    ensures [run[0]] + run[1..] == run && [run[0]] + (run[1..] + [blank]) == run + [blank]
  {
  }

  lemma EncodeBlank(first: int, rest: Text)
    requires Blank(first)
    ensures Encode([first] + rest) == [first] + Encode(rest)
  {
    assert ([first] + rest)[1..] == rest;
  }

  lemma SnocBlankOne(run: Text, blank: int)
    requires |run| == 1 && Blank(run[0]) && Blank(blank)
    requires Encode(run) == run && Encode([blank]) == [blank]
    ensures Encode(run + [blank]) == Undashed(run, Encode(run)) + [blank]
  {
    assert (run + [blank])[1..] == [blank];
    assert [run[0]] == run;
  }

  lemma SnocSolid(run: Text, n: nat, blank: int)
    requires Hidden(run) && Blank(blank) && n == SolidRun(run) && 0 < n < |run| && Encode(run[n..]) != []
    requires Encode(run[n..] + [blank]) == Undashed(run[n..], Encode(run[n..])) + [blank]
    ensures Encode(run) != [] && Encode(run + [blank]) == Undashed(run, Encode(run)) + [blank]
  {
    var more := run + [blank];
    SnocParts(run, n, blank);
    SolidRunSnoc(run, blank);
    var head, rest, moreRest := [PLUS] + Packed(run[..n]), Encode(run[n..]), Encode(run[n..] + [blank]);
    var encoded, longer := Encode(run), Encode(more);
    SolidThen(run, n, head, rest, encoded);
    SolidThen(more, n, head, moreRest, longer);
    SnocMore(head, run, run[n..], rest, moreRest, encoded, longer, blank);
  }

  lemma SolidThen(run: Text, n: nat, head: Bytes, rest: Bytes, encoded: Bytes)
    requires Hidden(run) && n == SolidRun(run) && 0 < n < |run| && rest != []
    requires head == [PLUS] + Packed(run[..n]) && rest == Encode(run[n..]) && encoded == Encode(run)
    ensures encoded == head + rest
  {
    EncodeSolid(run, n);
  }

  lemma SnocSolidOne(run: Text, n: nat, blank: int)
    requires Hidden(run) && Blank(blank) && n == SolidRun(run) == |run| && 0 < n && Encode([blank]) == [blank]
    ensures Encode(run) != [] && Encode(run + [blank]) == Undashed(run, Encode(run)) + [blank]
  {
    var more, head := run + [blank], [PLUS] + Packed(run[..n]);
    SolidRunSnoc(run, blank);
    EncodeSolid(run, n);
    EncodeSolid(more, n);
    assert more[..n] == run[..n] && more[n..] == [blank];
    assert AfterSolid(run, n) == [DASH] && AfterSolid(more, n) == [blank];
    assert (head + [DASH])[..|head|] == head;
  }

  lemma EncodeOne(blank: int)
    requires Blank(blank)
    ensures Encode([blank]) == [blank]
  {
    assert Encode([blank][1..]) == [];
  }

  lemma SnocMore(head: Bytes, run: Text, rest: Text, w: Bytes, w': Bytes, encoded: Bytes, more: Bytes, blank: int)
    requires run != [] && rest != [] && Last(run) == Last(rest) && w != [] && Blank(blank)
    requires w' == Undashed(rest, w) + [blank]
    requires encoded == head + w && more == head + w'
    ensures encoded != [] && more == Undashed(run, encoded) + [blank]
  {
    assert encoded[..|encoded| - 1] == head + w[..|w| - 1];
  }

  lemma {:induction false} SolidRunSnoc(run: Text, blank: int)
    requires Blank(blank)
    ensures SolidRun(run + [blank]) == SolidRun(run)
  {
    if run != [] && !Blank(run[0]) {
      assert (run + [blank])[1..] == run[1..] + [blank];
      SolidRunSnoc(run[1..], blank);
    }
  }

  /** A plus sign in front makes a section one letter too long to be decoded. */
  lemma OneTooMany(s: Text)
    requires Scalars(s)
    ensures AllLetters([PLUS] + Packed(s)) && Section([PLUS] + Packed(s)).None?
  {
    PackedSection(s);
    PackSize(Utf16(s), 0, 0);
    Leftover(|Utf16(s)|, |Packed(s)|);
    TooLong([PLUS] + Packed(s));
  }

  lemma Leftover(units: nat, letters: nat)
    requires 16 * units <= 6 * letters <= 16 * units + 4
    ensures 6 * (letters + 1) % 16 >= 6
  {
    Remainder(6 * (letters + 1), units, 6 * (letters + 1) - 16 * units);
  }

  lemma Remainder(x: int, units: nat, rest: nat)
    requires x == 16 * units + rest && rest < 16
    ensures x % 16 == rest
  {
  }

  lemma TooLong(letters: Bytes)
    requires AllLetters(letters) && 6 * |letters| % 16 >= 6
    ensures Section(letters).None?
  {
    UnpackSize(Values(letters), 0, 0);
  }

  lemma ReplacedClean(run: Text, body: Bytes)
    requires Strip(Encode(run)) == body && Clean(body)
    ensures B64Encode(run) == Replace(body, SLASH, COMMA) && Dashless(B64Encode(run))
    ensures B64Decode(B64Encode(run)) == Decode([PLUS] + body + [DASH])
    ensures |B64Encode(run)| == |body|
  {
    ReplaceBack(body);
  }

  /** A run that begins with a blank character is not decoded at all, or read as an ampersand. */
  lemma BlankFirst(run: Text)
    requires Hidden(run) && run != [] && Blank(run[0])
    ensures Dashless(B64Encode(run))
    ensures B64Encode(run) != [] ==> B64Decode(B64Encode(run)) == None
  {
    EncodeShape(run);
    var body := Strip(Encode(run));
    StripClean(run, Encode(run));
    ReplacedClean(run, body);
    if body != [] {
      assert [PLUS] + body + [DASH] == [PLUS] + (body + [DASH]);
      DecodeByte(PLUS, body + [DASH]);
      EncodeBlank(run[0], run[1..]);
      assert [run[0]] + run[1..] == run;
      if Blank(run[1]) {
        EncodeStart(run[1..]);
        assert body[0] == run[1];
      } else {
        ThenSolid(run[1..], body);
      }
    }
  }

  lemma StripClean(run: Text, w: Bytes)
    requires run != [] && Shaped(run, w)
    ensures Clean(Strip(w))
  {
  }

  lemma ThenSolid(s: Text, body: Bytes)
    requires Hidden(s) && s != [] && !Blank(s[0]) && Encode(s) != [] && body == Encode(s)[..|Encode(s)| - 1]
    ensures DecodePlus(body + [DASH]) == None
  {
    var n := SolidRun(s);
    EncodeSolid(s, n);
    var letters, after := [PLUS] + Packed(s[..n]), AfterSolid(s, n);
    OneTooMany(s[..n]);
    var rest := after[..|after| - 1] + [DASH];
    assert body + [DASH] == letters + rest;
    DecodeSection(letters, rest);
  }

  /** A run that ends with a blank character loses it, or gets a dash in its place. */
  lemma BlankLast(run: Text, r: Text)
    requires Hidden(run) && r != [] && !Blank(r[0]) && |run| == |r| + 1 && run[..|r|] == r && Blank(Last(run))
    ensures B64Encode(run) != [] && Dashless(B64Encode(run))
    ensures B64Decode(B64Encode(run)) == Some(if Blank(Last(r)) then r + [DASH] else r)
  {
    assert run == r + [Last(run)];
    EncodeSnoc(r, Last(run));
    EncodeShape(r);
    EncodeLong(r);
    EncodeShape(run);
    StripClean(run, Encode(run));
    ReplacedClean(run, Strip(Encode(run)));
    StripSnoc(Undashed(r, Encode(r)), Last(run), Encode(run));
    if Blank(Last(r)) {
      DecodeEncode(r, [DASH]);
      DecodeDash();
    } else {
      UndashedBack(r, Encode(r));
      DecodeWhole(r);
    }
  }

  lemma StripSnoc(w: Bytes, last: Byte, whole: Bytes)
    requires |w| > 1 && w[0] == PLUS && whole == w + [last]
    ensures Strip(whole) != [] && [PLUS] + Strip(whole) + [DASH] == w + [DASH]
  {
    assert Strip(whole) == w[1..];
  }

  lemma UndashedBack(run: Text, w: Bytes)
    requires run != [] && !Blank(Last(run)) && Shaped(run, w)
    ensures Undashed(run, w) + [DASH] == w
  {
  }

  lemma DecodeDash()
    ensures Decode([DASH]) == Some([DASH])
  {
    var none: Bytes := [];
    assert [DASH][1..] == none && Decode(none) == Some([]);
    assert [DASH] + [] == [DASH];
  }
}
