/** Sequence sets on the wire: printing them and reading them back. */
module SequenceSetText {
  import opened Collections
  import opened SequenceSets
  import opened Wire

  const ASTERISK: Byte := 0x2a
  const COMMA: Byte := 0x2c
  const COLON: Byte := 0x3a

  /** The length of a number without leading zero at the beginning of the buffer, or 0. */
  function NumberLength(buf: Bytes): (n: nat)
    ensures n <= |buf|
    ensures forall i :: 0 <= i < n ==> IsDigit(buf[i])
  {
    if buf != [] && 0x31 <= buf[0] <= 0x39 then DigitRun(buf) else 0
  }

  function PrintIdx(idx: SeqIdx): Bytes {
    match idx
    case Star => [ASTERISK]
    case Num(n) => Decimal(n)
  }

  function PrintElem(elem: SeqElem): Bytes {
    match elem
    case Single(idx) => PrintIdx(idx)
    case Pair(left, right) => PrintIdx(left) + [COLON] + PrintIdx(right)
  }

  function Parts(elems: seq<SeqElem>): seq<Bytes> {
    seq(|elems|, i requires 0 <= i < |elems| => PrintElem(elems[i]))
  }

  function Join(parts: seq<Bytes>): Bytes {
    if parts == [] then []
    else if |parts| == 1 then parts[0]
    else parts[0] + [COMMA] + Join(parts[1..])
  }

  function PrintElems(elems: seq<SeqElem>): Bytes {
    Join(Parts(elems))
  }

  method ToBytes(s: SequenceSet) returns (raw: Bytes)
    ensures raw == PrintElems(if s.Listed? then s.sequences else [Pair(Num(1), Star)])
  {
    if s.AllSequences? {
      assert Decimal(1) == [0x31];
      assert Parts([Pair(Num(1), Star)]) == [PrintElem(Pair(Num(1), Star))];
      assert [0x31] + [COLON] + [ASTERISK] == [0x31, COLON, ASTERISK];
      return [0x31, COLON, ASTERISK];
    }
    var parts: seq<Bytes> := [];
    for i := 0 to |s.sequences|
      invariant parts == Parts(s.sequences)[..i]
    {
      match s.sequences[i]
      case Pair(left, right) => parts := parts + [PrintIdx(left) + [COLON] + PrintIdx(right)];
      case Single(idx) => parts := parts + [PrintIdx(idx)];
    }
    assert parts == Parts(s.sequences);
    raw := Join(parts);
  }

  function ParseNumber(buf: Bytes): (r: Parsed<SeqIdx>)
    ensures r.Success? ==> |r.value.1| < |buf|
  {
    var n := NumberLength(buf);
    if n > 0 then Success((Num(DecimalValue(buf[..n])), buf[n..])) else Failure(NotParseable)
  }

  function ParseIdx(buf: Bytes): (r: Parsed<SeqIdx>)
    ensures r.Success? ==> |r.value.1| < |buf|
  {
    if buf != [] && buf[0] == ASTERISK then Success((Star, buf[1..])) else ParseNumber(buf)
  }

  function ParsePart(buf: Bytes): (r: Parsed<SeqElem>)
    ensures r.Success? ==> |r.value.1| < |buf|
  {
    match ParseIdx(buf)
    case Failure(e) => Failure(e)
    case Success((item1, after)) =>
      if after != [] && after[0] == COLON then
        match ParseIdx(after[1..])
        case Failure(e) => Failure(e)
        case Success((item2, rest)) => Success((Pair(item1, item2), rest))
      else Success((Single(item1), after))
  }

  /** The items up to the first that no comma follows; `items` have been read already. */
  function ParseItems(buf: Bytes, items: seq<SeqElem>): Parsed<seq<SeqElem>>
    decreases |buf|
  {
    if buf == [] then Success((items, []))
    else
      match ParsePart(buf)
      case Failure(e) => Failure(e)
      case Success((item, after)) =>
        if after != [] && after[0] != COMMA then Success((items + [item], after))
        else if after == [] then Success((items + [item], []))
        else ParseItems(after[1..], items + [item])
  }

  function ParseSet(buf: Bytes, uid: bool): Parsed<SequenceSet> {
    match ParseItems(SkipSpaces(buf), [])
    case Failure(e) => Failure(e)
    case Success((items, rest)) =>
      if items == [] then Failure(NotParseable) else Success((Listed(items, uid), rest))
  }

  method Parse(input: Bytes, uid: bool) returns (r: Parsed<SequenceSet>)
    ensures r == ParseSet(input, uid)
  {
    var buf := SkipSpaces(input);
    var sequences: seq<SeqElem> := [];
    while buf != []
      invariant ParseItems(SkipSpaces(input), []) == ParseItems(buf, sequences)
      decreases |buf|
    {
      var part := ParsePart(buf);
      if part.Failure? {
        return Failure(part.error);
      }
      var (item, after) := part.value;
      sequences := sequences + [item];
      if after != [] && after[0] != COMMA {
        return Success((Listed(sequences, uid), after));
      }
      buf := if after == [] then [] else after[1..];
    }
    r := if sequences == [] then Failure(NotParseable) else Success((Listed(sequences, uid), buf));
  }

  // ----- Round trip

  /** A printed number is read back exactly if no digit follows it. */
  lemma NumberRoundTrip(n: nat, rest: Bytes)
    requires n > 0
    ensures ParseIdx(Decimal(n) + rest).Success?
    ensures DigitRun(rest) == 0 ==> ParseIdx(Decimal(n) + rest) == Success((Num(n), rest))
    ensures DigitRun(rest) > 0 ==> |ParseIdx(Decimal(n) + rest).value.1| < |rest|
  {
    var digits := Decimal(n);
    var buf := digits + rest;
    DecimalDigits(n);
    DigitRunOf(digits, rest);
    assert buf[0] == digits[0];
    if DigitRun(rest) == 0 {
      assert buf[..|digits|] == digits && buf[|digits|..] == rest;
    }
  }

  predicate PositiveIdx(idx: SeqIdx) {
    idx.Num? ==> idx.n > 0
  }

  predicate Positive(elem: SeqElem) {
    match elem
    case Single(idx) => PositiveIdx(idx)
    case Pair(left, right) => PositiveIdx(left) && PositiveIdx(right)
  }

  /** What follows does not run into the number that was printed last. */
  predicate EndsIdx(idx: SeqIdx, rest: Bytes) {
    idx.Star? || rest == [] || !IsDigit(rest[0])
  }

  predicate EndsElem(elem: SeqElem, rest: Bytes) {
    match elem
    case Single(idx) => EndsIdx(idx, rest) && (rest == [] || rest[0] != COLON)
    case Pair(_, right) => EndsIdx(right, rest)
  }

  lemma IdxRoundTrip(idx: SeqIdx, rest: Bytes)
    requires PositiveIdx(idx)
    ensures PrintIdx(idx) != [] && PrintIdx(idx)[0] != SPACE && PrintIdx(idx)[0] != COLON
    ensures ParseIdx(PrintIdx(idx) + rest).Success?
    ensures EndsIdx(idx, rest) ==> ParseIdx(PrintIdx(idx) + rest) == Success((idx, rest))
    ensures !EndsIdx(idx, rest) ==> |ParseIdx(PrintIdx(idx) + rest).value.1| < |rest|
  {
    match idx
    case Star => assert ([ASTERISK] + rest)[1..] == rest;
    case Num(n) =>
      DecimalDigits(n);
      assert IsDigit(Decimal(n)[0]);
      NumberRoundTrip(n, rest);
  }

  lemma ElemRoundTrip(elem: SeqElem, rest: Bytes)
    requires Positive(elem)
    ensures PrintElem(elem) != [] && PrintElem(elem)[0] != SPACE
    ensures EndsElem(elem, rest) ==> ParsePart(PrintElem(elem) + rest) == Success((elem, rest))
    ensures !EndsElem(elem, rest) ==>
            ParsePart(PrintElem(elem) + rest).Failure? || |ParsePart(PrintElem(elem) + rest).value.1| < |rest|
  {
    match elem
    case Single(idx) => IdxRoundTrip(idx, rest);
    case Pair(left, right) =>
      var tail := [COLON] + PrintIdx(right) + rest;
      assert PrintElem(elem) + rest == PrintIdx(left) + tail;
      IdxRoundTrip(left, tail);
      assert tail[1..] == PrintIdx(right) + rest;
      IdxRoundTrip(right, rest);
  }

  lemma {:induction false} ParseItemsShrinks(buf: Bytes, items: seq<SeqElem>)
    ensures ParseItems(buf, items).Success? ==> |ParseItems(buf, items).value.1| <= |buf|
    decreases |buf|
  {
    if buf != [] && ParsePart(buf).Success? {
      var (item, after) := ParsePart(buf).value;
      if after != [] && after[0] == COMMA {
        ParseItemsShrinks(after[1..], items + [item]);
      }
    }
  }

  /** The reader stops after the last printed element exactly at what follows it. */
  predicate Stops(last: SeqElem, rest: Bytes) {
    EndsElem(last, rest) && (rest == [] || rest[0] != COMMA)
  }

  /** What reading gives when `expected` was printed before `rest`. */
  ghost predicate ReadsBack(r: Parsed<seq<SeqElem>>, expected: seq<SeqElem>, last: SeqElem, rest: Bytes) {
    if Stops(last, rest) then r == Success((expected, rest)) else r.Failure? || |r.value.1| < |rest|
  }

  lemma LastItem(elem: SeqElem, rest: Bytes, items: seq<SeqElem>)
    requires Positive(elem)
    ensures ReadsBack(ParseItems(PrintElem(elem) + rest, items), items + [elem], elem, rest)
  {
    var buf := PrintElem(elem) + rest;
    ElemRoundTrip(elem, rest);
    if ParsePart(buf).Success? {
      var (item, after) := ParsePart(buf).value;
      if after != [] && after[0] == COMMA {
        ParseItemsShrinks(after[1..], items + [item]);
      }
    }
  }

  lemma ItemsBase(elems: seq<SeqElem>, rest: Bytes, items: seq<SeqElem>)
    requires |elems| == 1 && Positive(elems[0])
    ensures ReadsBack(ParseItems(PrintElems(elems) + rest, items), items + elems, elems[0], rest)
  {
    PrintOne(elems);
    LastItem(elems[0], rest, items);
    assert elems == [elems[0]];
  }

  lemma ItemsStep(elems: seq<SeqElem>, rest: Bytes, items: seq<SeqElem>)
    requires |elems| > 1 && Positive(elems[0])
    requires ReadsBack(ParseItems(PrintElems(elems[1..]) + rest, items + [elems[0]]),
                       items + [elems[0]] + elems[1..], elems[|elems| - 1], rest)
    ensures ReadsBack(ParseItems(PrintElems(elems) + rest, items), items + elems, elems[|elems| - 1], rest)
  {
    MoreItems(elems, PrintElems(elems) + rest, rest, items);
    assert items + [elems[0]] + elems[1..] == items + elems;
  }

  lemma {:induction false} ItemsRoundTrip(elems: seq<SeqElem>, rest: Bytes, items: seq<SeqElem>)
    requires elems != [] && forall i :: 0 <= i < |elems| ==> Positive(elems[i])
    ensures ReadsBack(ParseItems(PrintElems(elems) + rest, items), items + elems, elems[|elems| - 1], rest)
    decreases |elems|
  {
    if |elems| == 1 {
      ItemsBase(elems, rest, items);
    } else {
      ItemsRoundTrip(elems[1..], rest, items + [elems[0]]);
      ItemsStep(elems, rest, items);
    }
  }

  lemma PrintOne(elems: seq<SeqElem>)
    requires |elems| == 1
    ensures PrintElems(elems) == PrintElem(elems[0])
  {
  }

  lemma MoreItems(elems: seq<SeqElem>, buf: Bytes, rest: Bytes, items: seq<SeqElem>)
    requires |elems| > 1 && Positive(elems[0]) && buf == PrintElems(elems) + rest
    ensures ParseItems(buf, items) == ParseItems(PrintElems(elems[1..]) + rest, items + [elems[0]])
  {
    var after := PrintElems(elems[1..]) + rest;
    PrintMore(elems);
    assert buf == PrintElem(elems[0]) + [COMMA] + after;
    NextItem(elems[0], after, items);
  }

  lemma PrintMore(elems: seq<SeqElem>)
    requires |elems| > 1
    ensures PrintElems(elems) == PrintElem(elems[0]) + [COMMA] + PrintElems(elems[1..])
  {
    assert Parts(elems)[1..] == Parts(elems[1..]);
  }

  lemma NextItem(elem: SeqElem, rest: Bytes, items: seq<SeqElem>)
    requires Positive(elem)
    ensures PrintElem(elem) != [] && PrintElem(elem)[0] != SPACE
    ensures ParseItems(PrintElem(elem) + [COMMA] + rest, items) == ParseItems(rest, items + [elem])
  {
    var after := [COMMA] + rest;
    assert PrintElem(elem) + [COMMA] + rest == PrintElem(elem) + after;
    ElemRoundTrip(elem, after);
    assert after[1..] == rest;
  }

  /** Printing and reading back gives the same set and leaves the rest alone, exactly if the rest
      does not continue the last element or the list. */
  lemma RoundTrip(elems: seq<SeqElem>, uid: bool, rest: Bytes)
    requires elems != [] && forall i :: 0 <= i < |elems| ==> Positive(elems[i])
    ensures ParseSet(PrintElems(elems) + rest, uid) == Success((Listed(elems, uid), rest)) <==>
            Stops(elems[|elems| - 1], rest)
  {
    var buf := PrintElems(elems) + rest;
    ItemsRoundTrip(elems, rest, []);
    StartsWithoutSpace(elems);
    assert SkipSpaces(buf) == buf;
    assert [] + elems == elems;
  }

  lemma StartsWithoutSpace(elems: seq<SeqElem>)
    requires elems != [] && Positive(elems[0])
    ensures PrintElems(elems) != [] && PrintElems(elems)[0] != SPACE
  {
    ElemRoundTrip(elems[0], []);
    assert Parts(elems)[0] == PrintElem(elems[0]);
  }

  // ----- What is read is what would be printed

  lemma ReadIdx(buf: Bytes)
    requires ParseIdx(buf).Success?
    ensures var (idx, rest) := ParseIdx(buf).value; PositiveIdx(idx) && buf == PrintIdx(idx) + rest
  {
    if buf[0] != ASTERISK {
      var n := NumberLength(buf);
      DecimalOf(buf[..n]);
      assert buf == buf[..n] + buf[n..];
    }
  }

  lemma ReadPart(buf: Bytes)
    requires ParsePart(buf).Success?
    ensures var (elem, rest) := ParsePart(buf).value; Positive(elem) && buf == PrintElem(elem) + rest
  {
    ReadIdx(buf);
    var (item1, after) := ParseIdx(buf).value;
    if after != [] && after[0] == COLON {
      ReadIdx(after[1..]);
      var (item2, rest) := ParseIdx(after[1..]).value;
      TwoThenRest(buf, PrintIdx(item1), after, PrintIdx(item2), rest);
    }
  }

  lemma TwoThenRest(buf: Bytes, first: Bytes, after: Bytes, second: Bytes, rest: Bytes)
    requires buf == first + after && after != [] && after[1..] == second + rest
    ensures buf == first + [after[0]] + second + rest
  {
    assert after == [after[0]] + after[1..];
  }

  /** The text of the elements, and after it what is left, which is all of it unless it is a last comma. */
  ghost predicate IsTextOf(buf: Bytes, elems: seq<SeqElem>, rest: Bytes) {
    || (elems == [] && buf == [] && rest == [])
    || (elems != [] && buf == PrintElems(elems) + rest && (rest == [] || rest[0] != COMMA))
    || (elems != [] && buf == PrintElems(elems) + [COMMA] && rest == [])
  }

  lemma TextMore(elem: SeqElem, more: seq<SeqElem>, buf: Bytes, after: Bytes, rest: Bytes)
    requires buf == PrintElem(elem) + [COMMA] + after && IsTextOf(after, more, rest)
    ensures IsTextOf(buf, [elem] + more, rest)
  {
    var all := [elem] + more;
    if more == [] {
      PrintOne([elem]);
      assert all == [elem];
    } else {
      PrintMore(all);
      assert all[1..] == more;
      assert PrintElem(elem) + [COMMA] + (PrintElems(more) + rest) == PrintElems(all) + rest;
      assert PrintElem(elem) + [COMMA] + (PrintElems(more) + [COMMA]) == PrintElems(all) + [COMMA];
    }
  }

  lemma {:induction false} ReadItems(buf: Bytes, items: seq<SeqElem>) returns (more: seq<SeqElem>)
    requires ParseItems(buf, items).Success?
    ensures ParseItems(buf, items).value.0 == items + more
    ensures IsTextOf(buf, more, ParseItems(buf, items).value.1)
    ensures forall i :: 0 <= i < |more| ==> Positive(more[i])
    decreases |buf|
  {
    if buf == [] {
      more := [];
      assert items + more == items;
    } else {
      ReadPart(buf);
      var (item, after) := ParsePart(buf).value;
      if after != [] && after[0] == COMMA {
        var later := ReadItems(after[1..], items + [item]);
        more := [item] + later;
        ConcatAssoc(items, [item], later);
        CommaThenRest(buf, item, after);
        TextMore(item, later, buf, after[1..], ParseItems(after[1..], items + [item]).value.1);
      } else {
        more := [item];
        PrintOne([item]);
      }
    }
  }

  lemma CommaThenRest(buf: Bytes, elem: SeqElem, after: Bytes)
    requires buf == PrintElem(elem) + after && after != [] && after[0] == COMMA
    ensures buf == PrintElem(elem) + [COMMA] + after[1..]
  {
    assert after == [COMMA] + after[1..];
  }

  /** What is read as a sequence set is, after the leading spaces, the text that the set is printed as, with
      positive numbers and no more than one comma after it. */
  lemma ReadIsPrinted(buf: Bytes, uid: bool)
    requires ParseSet(buf, uid).Success?
    ensures var (s, rest) := ParseSet(buf, uid).value;
            && s.Listed? && s.uid == uid && s.sequences != []
            && (forall i :: 0 <= i < |s.sequences| ==> Positive(s.sequences[i]))
            && IsTextOf(SkipSpaces(buf), s.sequences, rest)
  {
    var more := ReadItems(SkipSpaces(buf), []);
    assert [] + more == more;
  }

  /** The text in bytes: decimal numbers and `*`, `:` between two, `,` between elements. */
  lemma PrintedAs(elems: seq<SeqElem>, left: SeqIdx, right: SeqIdx)
    requires elems != []
    ensures PrintElems(elems) == PrintElem(elems[0]) + if |elems| > 1 then [0x2c] + PrintElems(elems[1..]) else []
    ensures PrintElem(Pair(left, right)) == PrintElem(Single(left)) + [0x3a] + PrintElem(Single(right))
    ensures PrintElem(Single(left)) == if left.Star? then [0x2a] else Decimal(left.n)
  {
    if |elems| > 1 {
      PrintMore(elems);
    } else {
      PrintOne(elems);
    }
  }
}
