/** Exactly which mailbox names survive modified UTF-7. */
module NameExact {
  import opened Collections
  import opened Wire
  import opened Utf7
  import opened ModUtf7
  import opened NameRoundTrip
  import opened NameBlanks
  import opened NameWeights

  /** The bytes after a run: its next character as it is, and the encoding of the others. */
  function RawTail(s: Text): Bytes
    requires s != [] ==> Printable(s[0])
  {
    if s == [] then [] else [s[0]] + Encoded(s[1..])
  }

  lemma TailIsRaw(s: Text, n: nat)
    requires n <= |s| && (n < |s| ==> Printable(s[n]))
    ensures Tail(s, n) == RawTail(s[n..])
  {
    if n < |s| {
      assert s[n..][1..] == s[n + 1..];
    }
  }

  // ----- What a run is read as

  /** A run is read as itself, as something else no longer than it, or not at all. */
  lemma RunReads(run: Text, tail: Bytes) returns (text: Option<Text>)
    requires Hidden(run) && run != []
    ensures Decoded(Shifted(run) + tail) ==
            match text
            case None => Invalid
            case Some(t) => After(t, Decoded(tail))
    ensures text.Some? ==> |text.value| <= |run| && (text.value == run <==> Solid(run))
    ensures text.None? ==> !Solid(run)
  {
    var code := B64Encode(run);
    if Solid(run) {
      SolidB64(run);
      ReadShifted(code, tail);
      text := Some(run);
    } else if Blank(run[0]) {
      BlankFirst(run);
      if code == [] {
        text := Some([AMPERSAND]);
        EmptyCode(code, tail);
      } else {
        text := None;
        ReadShifted(code, tail);
      }
    } else {
      var r := run[..|run| - 1];
      BlankLast(run, r);
      ReadShifted(code, tail);
      text := B64Decode(code);
    }
  }

  lemma EmptyCode(code: Bytes, tail: Bytes)
    requires code == []
    ensures Decoded([AMPERSAND] + code + [DASH] + tail) == After([AMPERSAND], Decoded(tail))
  {
    assert [AMPERSAND] + code + [DASH] + tail == [AMPERSAND] + ([DASH] + tail);
    AmpersandThen([DASH] + tail);
    assert ([DASH] + tail)[1..] == tail;
  }

  // ----- Reading never runs ahead

  /** Where `text` is what was read for `ahead + part`, but shorter. */
  lemma StillAhead(text: Text, ahead: Text, part: Text, rest: Text, after: Reading)
    requires |text| < |ahead| + |part|
    requires after != Read((ahead + part)[|text|..] + rest)
    ensures After(text, after) != Read(ahead + part + rest)
  {
    var whole := ahead + part;
    if text == whole[..|text|] {
      assert whole + rest == text + (whole[|text|..] + rest);
      AfterIs(text, after, whole[|text|..] + rest);
    } else {
      assert (whole + rest)[..|text|] == whole[..|text|];
      AfterPrefix(text, after, whole + rest);
    }
  }

  /** No text is read back with something before it. */
  lemma {:induction false} NeverAhead(s: Text, ahead: Text)
    requires Scalars(s) && ahead != []
    ensures Decoded(Encoded(s)) != Read(ahead + s)
    decreases |s|, 0
  {
    if s == [] {
      assert Encoded(s) == [] && Decoded([]) == Read([]);
      assert |ahead + s| > 0;
    } else if Printable(s[0]) {
      NeverAhead(s[1..], (ahead + [s[0]])[1..]);
      AheadPrintable(s, ahead);
    } else {
      var n := HiddenRun(s);
      var text := RunReads(s[..n], RawTail(s[n..]));
      if text.Some? {
        TailNeverAhead(s[n..], (ahead + s[..n])[|text.value|..]);
        StillAhead(text.value, ahead, s[..n], s[n..], Decoded(RawTail(s[n..])));
        Rejoin(ahead, s, n);
      }
      EncodedRaw(s, n);
    }
  }

  lemma EncodedRaw(s: Text, n: nat)
    requires s != [] && !Printable(s[0]) && n == HiddenRun(s)
    ensures Encoded(s) == Shifted(s[..n]) + RawTail(s[n..])
  {
    EncodedTail(s);
    TailIsRaw(s, n);
  }

  lemma AheadPrintable(s: Text, ahead: Text)
    requires s != [] && Printable(s[0]) && ahead != []
    requires Decoded(Encoded(s[1..])) != Read((ahead + [s[0]])[1..] + s[1..])
    ensures Decoded(Encoded(s)) != Read(ahead + s)
  {
    ReadPrintable(s);
    StillAhead([s[0]], ahead, [s[0]], s[1..], Decoded(Encoded(s[1..])));
    Rejoin(ahead, s, 1);
    assert s[..1] == [s[0]];
  }

  lemma Rejoin(ahead: Text, s: Text, n: nat)
    requires n <= |s|
    ensures ahead + s[..n] + s[n..] == ahead + s
  {
  }

  lemma {:induction false} TailNeverAhead(s: Text, ahead: Text)
    requires Scalars(s) && ahead != [] && (s != [] ==> Printable(s[0]))
    ensures Decoded(RawTail(s)) != Read(ahead + s)
    decreases |s|, 1
  {
    if s == [] {
      assert Decoded([]) == Read([]);
      assert |ahead + s| > 0;
    } else if s[0] == AMPERSAND {
      RawAmpersand(s[1..], ahead);
      assert ahead + s == ahead + [AMPERSAND] + s[1..];
    } else {
      NeverAhead(s, ahead);
    }
  }

  /** An ampersand that is not encoded is never read back as itself, whatever comes before or after. */
  lemma {:induction false} RawAmpersand(rest: Text, ahead: Text)
    requires Scalars(rest)
    ensures Decoded([AMPERSAND] + Encoded(rest)) != Read(ahead + [AMPERSAND] + rest)
    decreases |rest|, 2
  {
    if rest == [] {
      EmptyShift();
      assert [AMPERSAND] + Encoded(rest) == [AMPERSAND] && [AMPERSAND][1..] == [];
      assert (ahead + [AMPERSAND] + rest)[|ahead|] == AMPERSAND;
    } else if rest[0] == DASH {
      NeverAhead(rest[1..], (ahead + [AMPERSAND] + [DASH])[1..]);
      RawDash(rest, ahead);
    } else {
      EncodedFirst(rest);
      AmpersandThen(Encoded(rest));
      var w := Encoded(rest);
      var j := DashAt(w);
      if j < |w| && B64Decode(w[..j]).Some? {
        RawShift(rest, ahead, w, j, B64Decode(w[..j]).value);
      }
    }
  }

  lemma RawDash(rest: Text, ahead: Text)
    requires rest != [] && rest[0] == DASH
    requires Decoded(Encoded(rest[1..])) != Read((ahead + [AMPERSAND] + [DASH])[1..] + rest[1..])
    ensures Decoded([AMPERSAND] + Encoded(rest)) != Read(ahead + [AMPERSAND] + rest)
  {
    RawDashReads(rest);
    StillAhead([AMPERSAND], ahead + [AMPERSAND], [DASH], rest[1..], Decoded(Encoded(rest[1..])));
    Rejoin(ahead + [AMPERSAND], rest, 1);
    assert rest[..1] == [DASH];
  }

  lemma RawDashReads(rest: Text)
    requires rest != [] && rest[0] == DASH
    ensures Decoded([AMPERSAND] + Encoded(rest)) == After([AMPERSAND], Decoded(Encoded(rest[1..])))
  {
    EncodedFirst(rest);
    AmpersandThen(Encoded(rest));
    assert ([DASH] + Encoded(rest[1..]))[1..] == Encoded(rest[1..]);
  }

  /** The section that the ampersand opens by mistake, up to the next dash. */
  lemma {:induction false} RawShift(rest: Text, ahead: Text, w: Bytes, j: nat, text: Text)
    requires Scalars(rest) && rest != [] && rest[0] != DASH && w == Encoded(rest)
    requires j == DashAt(w) < |w| && B64Decode(w[..j]) == Some(text)
    ensures After(text, Decoded(w[j + 1..])) != Read(ahead + [AMPERSAND] + rest)
    decreases |rest|, 1
  {
    var n := PlainRun(rest);
    PlainStops(rest, n, w, j);
    if Printable(rest[n]) {
      PlainShift(rest, ahead, w, j, text, n);
    } else {
      RunShift(rest, ahead, w, j, text, n);
    }
  }

  lemma {:induction false} PlainShift(rest: Text, ahead: Text, w: Bytes, j: nat, text: Text, n: nat)
    requires Scalars(rest) && n == PlainRun(rest) < |rest| && Printable(rest[n]) && w == rest[..n] + Encoded(rest[n..])
    requires rest[0] != DASH && j == DashAt(w) < |w| && B64Decode(w[..j]) == Some(text)
    ensures After(text, Decoded(w[j + 1..])) != Read(ahead + [AMPERSAND] + rest)
    decreases |rest|, 0
  {
    var whole := ahead + [AMPERSAND];
    PlainStop(rest, n, w, j);
    SectionText(w[..j], text);
    NeverAhead(rest[n + 1..], (whole + rest[..n + 1])[|text|..]);
    PartRead(rest, n + 1, whole, text, Decoded(w[j + 1..]));
  }

  lemma {:induction false} RunShift(rest: Text, ahead: Text, w: Bytes, j: nat, text: Text, n: nat)
    requires Scalars(rest) && n == PlainRun(rest) < |rest| && !Printable(rest[n]) && w == rest[..n] + Encoded(rest[n..])
    requires j == DashAt(w) < |w| && B64Decode(w[..j]) == Some(text)
    ensures After(text, Decoded(w[j + 1..])) != Read(ahead + [AMPERSAND] + rest)
    decreases |rest|, 0
  {
    var whole, end := ahead + [AMPERSAND], n + HiddenRun(rest[n..]);
    RunStop(rest, n, end, w, j);
    if |text| < |whole| + end {
      TailNeverAhead(rest[end..], (whole + rest[..end])[|text|..]);
    }
    RunRead(rest, n, end, ahead, w[..j], text, Decoded(w[j + 1..]));
  }

  lemma PartRead(rest: Text, n: nat, ahead: Text, text: Text, after: Reading)
    requires n <= |rest| && |text| < |ahead| + n && after != Read((ahead + rest[..n])[|text|..] + rest[n..])
    ensures After(text, after) != Read(ahead + rest)
  {
    StillAhead(text, ahead, rest[..n], rest[n..], after);
    Rejoin(ahead, rest, n);
  }

  lemma RunRead(rest: Text, n: nat, end: nat, ahead: Text, content: Bytes, text: Text, after: Reading)
    requires n < end <= |rest| && Hidden(rest[n..end])
    requires forall i :: 0 <= i < n ==> Printable(rest[i]) && rest[i] != DASH
    requires content == rest[..n] + [AMPERSAND] + B64Encode(rest[n..end]) && B64Decode(content) == Some(text)
    requires |text| < |ahead + [AMPERSAND]| + end ==>
               after != Read((ahead + [AMPERSAND] + rest[..end])[|text|..] + rest[end..])
    ensures After(text, after) != Read(ahead + [AMPERSAND] + rest)
  {
    if |text| < |ahead + [AMPERSAND]| + end {
      PartRead(rest, end, ahead + [AMPERSAND], text, after);
    } else {
      RunTooHeavy(rest, n, end, ahead, content, text, after);
    }
  }

  lemma PlainStops(rest: Text, n: nat, w: Bytes, j: nat)
    requires n == PlainRun(rest) && w == Encoded(rest) && j == DashAt(w) < |w|
    ensures n < |rest| && w == rest[..n] + Encoded(rest[n..])
  {
    EncodedPlain(rest, n);
    PlainWhole(rest, n, w);
  }

  lemma PlainWhole(rest: Text, n: nat, w: Bytes)
    requires n == PlainRun(rest) && w == Encoded(rest)
    ensures n == |rest| ==> DashAt(w) == |w|
  {
    if n == |rest| {
      EncodedPlain(rest, n);
      assert rest[n..] == [] && w == rest[..n];
      DashIs(w, n);
    }
  }

  /** A literal dash or an encoded ampersand ends the section. */
  lemma PlainStop(rest: Text, n: nat, w: Bytes, j: nat)
    requires n == PlainRun(rest) < |rest| && Printable(rest[n]) && w == rest[..n] + Encoded(rest[n..])
    requires j == DashAt(w) && rest[0] != DASH
    ensures 0 < j <= n + 1 && j < |w| && w[0] != DASH && w[j + 1..] == Encoded(rest[n + 1..])
  {
    var stop, tail := Encoded(rest[n..]), Encoded(rest[n + 1..]);
    EncodedPrintable(rest, n);
    PlainStopAt(rest, n, w, j, stop, tail);
  }

  lemma PlainStopAt(rest: Text, n: nat, w: Bytes, j: nat, stop: Bytes, tail: Bytes)
    requires n == PlainRun(rest) < |rest| && Printable(rest[n]) && w == rest[..n] + stop
    requires stop == Direct(rest[n]) + tail && j == DashAt(w) && rest[0] != DASH
    ensures 0 < j <= n + 1 && j < |w| && w[0] != DASH && w[j + 1..] == tail
  {
    StopAt(rest[..n], Direct(rest[n]), tail, w);
  }

  lemma StopAt(plain: Bytes, direct: Bytes, tail: Bytes, w: Bytes)
    requires w == plain + (direct + tail) && Dashless(plain)
    requires direct == [DASH] || direct == [AMPERSAND, DASH]
    ensures DashAt(w) == |plain| + |direct| - 1 < |w| && w[|plain| + |direct|..] == tail
  {
    if direct == [DASH] {
      DashHere(plain, tail, w);
    } else {
      StopAtAmpersand(plain, tail, w);
    }
  }

  lemma StopAtAmpersand(plain: Bytes, tail: Bytes, w: Bytes)
    requires w == plain + ([AMPERSAND, DASH] + tail) && Dashless(plain)
    ensures DashAt(w) == |plain| + 1 < |w| && w[|plain| + 2..] == tail
  {
    AmpersandIn(plain, tail);
    DashHere(plain + [AMPERSAND], tail, w);
  }

  lemma AmpersandIn(plain: Bytes, tail: Bytes)
    ensures plain + ([AMPERSAND, DASH] + tail) == plain + [AMPERSAND] + ([DASH] + tail)
    ensures Dashless(plain) ==> Dashless(plain + [AMPERSAND])
  {
    assert [AMPERSAND, DASH] + tail == [AMPERSAND] + ([DASH] + tail);
    ConcatAssoc(plain, [AMPERSAND], [DASH] + tail);
  }

  lemma DashHere(head: Bytes, tail: Bytes, w: Bytes)
    requires Dashless(head) && w == head + ([DASH] + tail)
    ensures DashAt(w) == |head| < |w| && w[..|head|] == head && w[|head| + 1..] == tail
  {
    DashIs(w, |head|);
  }

  lemma SectionText(w: Bytes, text: Text)
    requires w != [] && w[0] != DASH && B64Decode(w) == Some(text)
    ensures |text| <= |w|
  {
    B64DecodeIs(w);
    DecodePlusSize(Replace(w, COMMA, SLASH) + [DASH]);
  }

  /** The code of the next run ends the section. */
  lemma RunStop(rest: Text, n: nat, end: nat, w: Bytes, j: nat)
    requires Scalars(rest) && n == PlainRun(rest) < |rest| && !Printable(rest[n])
    requires w == rest[..n] + Encoded(rest[n..]) && end == n + HiddenRun(rest[n..]) && j == DashAt(w)
    ensures n < end <= |rest| && Hidden(rest[n..end]) && (end < |rest| ==> Printable(rest[end]))
    ensures j < |w| && w[..j] == rest[..n] + [AMPERSAND] + B64Encode(rest[n..end])
    ensures w[j + 1..] == RawTail(rest[end..])
  {
    RunSlices(rest, n, end);
    EncodedRaw(rest[n..], end - n);
    CodeWeighsLess(rest[n..end]);
    CodeStop(rest[..n], B64Encode(rest[n..end]), RawTail(rest[end..]), w, j);
  }

  lemma RunSlices(rest: Text, n: nat, end: nat)
    requires Scalars(rest) && n < |rest| && !Printable(rest[n]) && end == n + HiddenRun(rest[n..])
    ensures n < end <= |rest| && Hidden(rest[n..end]) && (end < |rest| ==> Printable(rest[end]))
    ensures rest[n..][..end - n] == rest[n..end] && rest[n..][end - n..] == rest[end..]
  {
    var m := HiddenRun(rest[n..]);
    assert forall i :: 0 <= i < m ==> rest[n..][i] == rest[n + i] && rest[n..end][i] == rest[n + i];
    assert m < |rest[n..]| ==> rest[n..][m] == rest[end];
  }

  lemma CodeStop(plain: Bytes, code: Bytes, tail: Bytes, w: Bytes, j: nat)
    requires Dashless(plain) && Dashless(code) && w == plain + ([AMPERSAND] + code + [DASH] + tail) && j == DashAt(w)
    ensures j < |w| && w[..j] == plain + [AMPERSAND] + code && w[j + 1..] == tail
  {
    assert plain + [AMPERSAND] + code + ([DASH] + tail) == w;
    DashHere(plain + [AMPERSAND] + code, tail, w);
  }

  /** A text read that reaches beyond the run would have to hold the run, which weighs too much. */
  lemma RunTooHeavy(rest: Text, n: nat, end: nat, ahead: Text, content: Bytes, text: Text, after: Reading)
    requires n < end <= |rest| && Hidden(rest[n..end])
    requires forall i :: 0 <= i < n ==> Printable(rest[i]) && rest[i] != DASH
    requires content == rest[..n] + [AMPERSAND] + B64Encode(rest[n..end]) && B64Decode(content) == Some(text)
    requires |text| >= |ahead + [AMPERSAND]| + end
    ensures After(text, after) != Read(ahead + [AMPERSAND] + rest)
  {
    var whole := ahead + [AMPERSAND] + rest;
    var at := |ahead| + 1 + n;
    RunAt(rest, n, end, ahead);
    HeldWeight(rest[..n], rest[n..end], content, text, at);
    if |text| <= |whole| {
      NotHeld(text, whole, at, rest[n..end]);
      AfterPrefix(text, after, whole);
    }
  }

  lemma RunAt(rest: Text, n: nat, end: nat, ahead: Text)
    requires n <= end <= |rest|
    ensures var at := |ahead| + 1 + n; (ahead + [AMPERSAND] + rest)[at..at + (end - n)] == rest[n..end]
  {
  }

  /** Behind the ampersand, the text read weighs less than the run, so it does not hold it. */
  lemma HeldWeight(plain: Bytes, run: Text, content: Bytes, text: Text, at: nat)
    requires Dashless(plain) && Hidden(run) && run != []
    requires content == plain + [AMPERSAND] + B64Encode(run) && B64Decode(content) == Some(text)
    requires |plain| < at && at + |run| <= |text|
    ensures text[at..at + |run|] != run
  {
    var before, z := ContentSplits(plain, run, content, text);
    HeldInside(text, before, z, at, |run|, at - |before| - 1);
  }

  lemma ContentSplits(plain: Bytes, run: Text, content: Bytes, text: Text) returns (before: Text, z: Text)
    requires Dashless(plain) && Hidden(run) && run != []
    requires content == plain + [AMPERSAND] + B64Encode(run) && B64Decode(content) == Some(text)
    ensures text == before + [AMPERSAND] + z && |before| <= |plain| && Weight(z) < Weight(run)
  {
    var y := Replace(B64Encode(run), COMMA, SLASH) + [DASH];
    CodeWeighsLess(run);
    B64DecodeIs(content);
    ReplaceParts(plain, B64Encode(run));
    before := SplitPlus(Replace(plain, COMMA, SLASH), y);
    z := Decode(y).value;
  }

  lemma ReplaceParts(plain: Bytes, code: Bytes)
    requires Dashless(plain)
    ensures Replace(plain + [AMPERSAND] + code, COMMA, SLASH) + [DASH] ==
            Replace(plain, COMMA, SLASH) + [AMPERSAND] + (Replace(code, COMMA, SLASH) + [DASH])
    ensures Dashless(Replace(plain, COMMA, SLASH))
  {
  }

  lemma NotHeld(text: Text, whole: Text, at: nat, run: Text)
    requires at + |run| <= |text| <= |whole| && whole[at..at + |run|] == run
    requires text[at..at + |run|] != run
    ensures text != whole[..|text|]
  {
    SliceOfPrefix(text, whole, at, |run|);
  }

  lemma HeldInside(text: Text, before: Text, z: Text, at: nat, size: nat, k: nat)
    requires text == before + [AMPERSAND] + z && at == |before| + 1 + k && at + size <= |text|
    ensures Weight(text[at..at + size]) <= Weight(z)
  {
    assert text[at..at + size] == z[k..k + size];
    WeightSlice(z, k, size);
  }

  lemma SliceOfPrefix(text: Text, whole: Text, at: nat, size: nat)
    requires at + size <= |text| <= |whole|
    ensures text == whole[..|text|] ==> text[at..at + size] == whole[at..at + size]
  {
  }

  lemma WeightSlice(s: Text, start: nat, size: nat)
    requires start + size <= |s|
    ensures Weight(s[start..start + size]) <= Weight(s)
  {
    WeightSplit(s, start);
    WeightSplit(s[start..], size);
    assert s[start..][..size] == s[start..start + size];
  }

  // ----- The exact condition

  /** Decoding a name undoes encoding it exactly if none of its ampersands directly follows a
      character outside printable ASCII, and each of its blank characters stands between two such. */
  lemma {:induction false} NameSurvives(s: Text)
    requires Scalars(s)
    ensures Decoded(Encoded(s)) == Read(s) <==> AmpersandsApart(s) && BlanksInside(s)
    decreases |s|
  {
    if s == [] {
      assert Encoded(s) == [];
    } else if Printable(s[0]) {
      PrintableSurvives(s);
      NameSurvives(s[1..]);
    } else {
      RunSurvives(s, HiddenRun(s));
      if RunsOn(s, HiddenRun(s)) {
        NameSurvives(s[HiddenRun(s)..]);
      }
    }
  }

  lemma PrintableSurvives(s: Text)
    requires s != [] && Printable(s[0])
    ensures Decoded(Encoded(s)) == Read(s) <==> Decoded(Encoded(s[1..])) == Read(s[1..])
    ensures AmpersandsApart(s) && BlanksInside(s) <==> AmpersandsApart(s[1..]) && BlanksInside(s[1..])
  {
    ApartCut(s, 1);
    InsideCut(s, 1);
    PrintableExact(s);
  }

  /** The first run is read as it is, and no ampersand follows it. */
  predicate RunsOn(s: Text, n: nat)
    requires 0 < n <= |s|
  {
    Solid(s[..n]) && (n < |s| ==> s[n] != AMPERSAND)
  }

  lemma RunSurvives(s: Text, n: nat)
    requires Scalars(s) && s != [] && n == HiddenRun(s) && n > 0
    ensures RunsOn(s, n) ==> (Decoded(Encoded(s)) == Read(s) <==> Decoded(Encoded(s[n..])) == Read(s[n..]))
    ensures RunsOn(s, n) ==>
            (AmpersandsApart(s) && BlanksInside(s) <==> AmpersandsApart(s[n..]) && BlanksInside(s[n..]))
    ensures !RunsOn(s, n) ==> Decoded(Encoded(s)) != Read(s) && !(AmpersandsApart(s) && BlanksInside(s))
  {
    ApartCut(s, n);
    InsideCut(s, n);
    InsideRun(s[..n]);
    if RunsOn(s, n) {
      RunExact(s, n);
      TailApart(s, n);
    } else {
      RunLost(s, n);
    }
  }

  lemma RunLost(s: Text, n: nat)
    requires Scalars(s) && s != [] && n == HiddenRun(s) && n > 0 && !RunsOn(s, n)
    ensures Decoded(Encoded(s)) != Read(s)
  {
    EncodedRaw(s, n);
    var text := RunReads(s[..n], RawTail(s[n..]));
    if text.Some? {
      if |text.value| < n {
        TailNeverAhead(s[n..], s[..n][|text.value|..]);
      } else if n < |s| && s[n] == AMPERSAND {
        RawAmpersand(s[n + 1..], []);
        assert [] + [AMPERSAND] + s[n + 1..] == s[n..];
      }
      TextLost(s, n, text.value, Decoded(RawTail(s[n..])));
    }
  }

  lemma TextLost(s: Text, n: nat, text: Text, after: Reading)
    requires 0 < n <= |s| && |text| <= n && !RunsOn(s, n) && (text == s[..n] <==> Solid(s[..n]))
    requires |text| < n ==> after != Read(s[..n][|text|..] + s[n..])
    requires |text| == n < |s| && s[n] == AMPERSAND ==> after != Read(s[n..])
    ensures After(text, after) != Read(s)
  {
    Rejoin([], s, n);
    assert [] + s[..n] == s[..n] && [] + s == s;
    if |text| < n {
      StillAhead(text, [], s[..n], s[n..], after);
    } else if text == s[..n] {
      AfterIs(text, after, s[n..]);
    } else {
      AfterPrefix(text, after, s);
    }
  }

  /** The ampersand of `\u00e9&` is lost, and so is a tab that stands alone. */
  lemma NamesLost()
    ensures Decoded(Encoded([0xe9, AMPERSAND])) != Read([0xe9, AMPERSAND])
    ensures Decoded(Encoded([9])) != Read([9])
  {
    var s, t: Text := [0xe9, AMPERSAND], [9];
    NameSurvives(s);
    assert s[1] == AMPERSAND && !Printable(s[0]);
    NameSurvives(t);
    assert Blank(t[0]) && !InsideAt(t, 0);
  }
}
