/** When the encoding of a mailbox name is printable ASCII, as section 5.1.3 of RFC 3501 wants it. */
module NamePrintable {
  import opened Collections
  import opened Wire
  import opened Utf7
  import opened ModUtf7
  import opened NameRoundTrip
  import opened NameBlanks
  import NameExact

  ghost predicate PrintableBytes(w: Bytes) {
    forall i :: 0 <= i < |w| ==> Printable(w[i])
  }

  lemma PrintableConcat(a: Bytes, b: Bytes)
    ensures PrintableBytes(a + b) <==> PrintableBytes(a) && PrintableBytes(b)
  {
    forall i | 0 <= i < |b| && PrintableBytes(a + b) ensures Printable(b[i]) {
      assert (a + b)[|a| + i] == b[i];
    }
    forall i | 0 <= i < |a| && PrintableBytes(a + b) ensures Printable(a[i]) {
      assert (a + b)[i] == a[i];
    }
  }

  // ----- One run

  lemma LettersPrintable(w: Bytes)
    requires AllLetters(w)
    ensures PrintableBytes(w)
  {
  }

  /** The codec writes printable bytes for all but the blank characters. */
  lemma {:induction false} EncodePrintable(run: Text)
    requires Hidden(run)
    ensures PrintableBytes(Encode(run)) <==> NoBlanks(run)
    decreases |run|
  {
    if run == [] {
    } else if Blank(run[0]) {
      assert Encode(run)[0] == run[0];
    } else {
      var n := SolidRun(run);
      EncodePrintable(run[n..]);
      SolidPrintable(run, n, Encode(run), Encode(run[n..]));
      assert forall i :: n <= i < |run| ==> run[i] == run[n..][i - n];
    }
  }

  lemma SolidPrintable(run: Text, n: nat, w: Bytes, rest: Bytes)
    requires Hidden(run) && run != [] && n == SolidRun(run) > 0 && w == Encode(run) && rest == Encode(run[n..])
    ensures PrintableBytes(w) <==> PrintableBytes(rest)
    ensures w != [] && w[0] == PLUS
  {
    var letters, after := [PLUS] + Packed(run[..n]), AfterSolid(run, n);
    EncodeSolid(run, n);
    PackedSection(run[..n]);
    LettersPrintable(letters);
    PrintableConcat(letters, after);
    if after[0] == DASH {
      PrintableConcat([DASH], rest);
      assert after == [DASH] + rest;
    }
  }

  /** The first byte stands for the first character, or is the plus sign. */
  lemma RestPrintable(run: Text)
    requires Hidden(run) && run != []
    ensures Encode(run) != [] && (PrintableBytes(Encode(run)[1..]) <==> NoBlanks(run[1..]))
  {
    EncodePrintable(run);
    if Blank(run[0]) {
      EncodePrintable(run[1..]);
      assert Encode(run)[1..] == Encode(run[1..]);
    } else {
      SolidPrintable(run, SolidRun(run), Encode(run), Encode(run[SolidRun(run)..]));
      PrintableConcat([PLUS], Encode(run)[1..]);
      assert [PLUS] + Encode(run)[1..] == Encode(run);
      assert forall i :: 0 < i < |run| ==> run[i] == run[1..][i - 1];
    }
  }

  ghost predicate NoInnerBlank(run: Text) {
    forall i :: 0 < i < |run| - 1 ==> !Blank(run[i])
  }

  lemma DashOff(w: Bytes)
    requires |w| > 1 && w[|w| - 1] == DASH
    ensures PrintableBytes(w[1..|w| - 1]) <==> PrintableBytes(w[1..])
  {
    PrintableConcat(w[1..|w| - 1], [DASH]);
    assert w[1..] == w[1..|w| - 1] + [DASH];
  }

  /** What the slice leaves is printable exactly if no blank character is inside the run. */
  lemma StripPrintable(run: Text)
    requires Hidden(run) && run != []
    ensures PrintableBytes(Strip(Encode(run))) <==> NoInnerBlank(run)
  {
    if !Blank(Last(run)) {
      StripSolidEnd(run, Encode(run));
    } else if |run| == 1 {
      assert Encode(run) == [run[0]] + Encode(run[1..]);
    } else {
      StripBlankEnd(run, run[..|run| - 1], Encode(run));
    }
  }

  lemma StripSolidEnd(run: Text, w: Bytes)
    requires Hidden(run) && run != [] && !Blank(Last(run)) && w == Encode(run)
    ensures PrintableBytes(Strip(w)) <==> NoInnerBlank(run)
  {
    EncodeShape(run);
    RestPrintable(run);
    if |w| > 1 {
      DashOff(w);
    }
    assert forall i :: 0 < i < |run| ==> run[i] == run[1..][i - 1];
  }

  lemma StripBlankEnd(run: Text, front: Text, w: Bytes)
    requires Hidden(run) && |run| > 1 && Blank(Last(run)) && w == Encode(run) && front == run[..|run| - 1]
    ensures PrintableBytes(Strip(w)) <==> NoInnerBlank(run)
  {
    var before := Encode(front);
    assert run == front + [Last(run)];
    EncodeSnoc(front, Last(run));
    FrontPrintable(front, before);
    assert Strip(w) == Undashed(front, before)[1..];
    assert forall i :: 0 < i < |front| ==> front[1..][i - 1] == run[i];
  }

  lemma FrontPrintable(front: Text, w: Bytes)
    requires Hidden(front) && front != [] && w == Encode(front)
    ensures w != [] && |Undashed(front, w)| > 0
    ensures PrintableBytes(Undashed(front, w)[1..]) <==> NoBlanks(front[1..])
  {
    EncodeShape(front);
    RestPrintable(front);
    if !Blank(Last(front)) {
      assert |w| > 1;
      DashOff(w);
      assert w[..|w| - 1][1..] == w[1..|w| - 1];
    }
  }

  lemma ShiftedPrintable(run: Text)
    requires Hidden(run) && run != []
    ensures PrintableBytes(Shifted(run)) <==> NoInnerBlank(run)
  {
    StripPrintable(run);
    var body := Strip(Encode(run));
    var code := Replace(body, SLASH, COMMA);
    assert PrintableBytes(code) <==> PrintableBytes(body);
    PrintableConcat([AMPERSAND], code);
    PrintableConcat([AMPERSAND] + code, [DASH]);
  }

  // ----- Whole names

  /** No blank character stands between two that are not printable. */
  ghost predicate BlanksOutside(s: Text) {
    forall i :: 0 <= i < |s| && Blank(s[i]) ==> !InsideAt(s, i)
  }

  lemma OutsideCut(s: Text, n: nat)
    requires 0 < n <= |s| && (n < |s| ==> Printable(s[n - 1]) || Printable(s[n]))
    ensures BlanksOutside(s) <==> BlanksOutside(s[..n]) && BlanksOutside(s[n..])
  {
    forall i | 0 <= i < n && Blank(s[i]) ensures InsideAt(s, i) <==> InsideAt(s[..n], i) {
    }
    forall i | n <= i < |s| && Blank(s[i]) ensures InsideAt(s, i) <==> InsideAt(s[n..], i - n) {
    }
    assert forall i :: 0 <= i < |s| - n ==> s[n..][i] == s[n + i];
    assert BlanksOutside(s[n..]) ==> forall i :: n <= i < |s| && Blank(s[i]) ==> !InsideAt(s[n..], i - n);
  }

  lemma OutsideRun(run: Text)
    requires Hidden(run)
    ensures BlanksOutside(run) <==> NoInnerBlank(run)
  {
    assert forall i :: 0 <= i < |run| ==> (InsideAt(run, i) <==> 0 < i < |run| - 1);
  }

  /** The encoding of a name is printable ASCII exactly if no TAB, CR or LF in it stands between two
      characters outside printable ASCII. */
  lemma {:induction false} PrintableExactly(s: Text)
    requires Scalars(s)
    ensures PrintableBytes(Encoded(s)) <==> BlanksOutside(s)
    decreases |s|
  {
    if s == [] {
    } else if Printable(s[0]) {
      PrintableExactly(s[1..]);
      PrintableConcat(Direct(s[0]), Encoded(s[1..]));
      OutsideCut(s, 1);
    } else {
      var n := HiddenRun(s);
      if n < |s| {
        PrintableExactly(s[n + 1..]);
      }
      RunThenTail(s, n);
    }
  }

  lemma RunThenTail(s: Text, n: nat)
    requires Scalars(s) && s != [] && n == HiddenRun(s) > 0
    requires n < |s| ==> (PrintableBytes(Encoded(s[n + 1..])) <==> BlanksOutside(s[n + 1..]))
    ensures PrintableBytes(Encoded(s)) <==> BlanksOutside(s)
  {
    EncodedTail(s);
    ShiftedPrintable(s[..n]);
    OutsideRun(s[..n]);
    OutsideCut(s, n);
    PrintableConcat(Shifted(s[..n]), Tail(s, n));
    TailPrintable(s, n);
  }

  lemma TailPrintable(s: Text, n: nat)
    requires n <= |s| && (n < |s| ==> Printable(s[n]))
    requires n < |s| ==> (PrintableBytes(Encoded(s[n + 1..])) <==> BlanksOutside(s[n + 1..]))
    ensures PrintableBytes(Tail(s, n)) <==> BlanksOutside(s[n..])
  {
    if n < |s| {
      OutsideCut(s[n..], 1);
      assert s[n..][1..] == s[n + 1..];
      PrintableConcat([s[n]], Encoded(s[n + 1..]));
    }
  }

  /** A name with a TAB, CR or LF never has both: an encoding that is printable, and one that is read
      back. */
  lemma PrintableOrReadBack(s: Text)
    requires Scalars(s) && !NoBlanks(s)
    ensures !PrintableBytes(Encoded(s)) || Decoded(Encoded(s)) != Read(s)
  {
    PrintableExactly(s);
    NameExact.NameSurvives(s);
  }

  /** A tab between two letters with accents is encoded as it is. */
  lemma TabKept()
    ensures !PrintableBytes(Encoded([0xe9, 9, 0xe9]))
  {
    var s: Text := [0xe9, 9, 0xe9];
    PrintableExactly(s);
    assert Blank(s[1]) && InsideAt(s, 1);
  }
}
