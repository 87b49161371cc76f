/** The structure of a MIME message: parts nested in parts, each a stretch of the lines. */
module Mime {
  import opened Collections
  import opened Wire
  import opened MimeLines
  import opened MimeParts

  /** What the parsed header says of the body. */
  datatype ContentType = NoType | Multipart(boundary: Option<Bytes>) | Rfc822 | OtherType

  /** The content type as the `email` package reads it from the header lines before the last. */
  type TypeReader = seq<Line> -> ContentType

  datatype Content = Content(header: seq<Line>, body: Body)

  datatype Body = Body(lines: seq<Line>, nested: seq<Content>)

  function AllLines(content: Content): seq<Line> {
    content.header + content.body.lines
  }

  /** A header of one line, the blank one, holds no fields. */
  function TypeOf(reader: TypeReader, header: seq<Line>): ContentType {
    if |header| <= 1 then NoType else reader(header[..|header| - 1])
  }

  function Parse(data: Bytes, reader: TypeReader, lines: seq<Line>): Content
    decreases |lines|, 1, 0
  {
    var (header, body) := SplitLines(data, lines);
    Content(header, Body(body, ParseBody(data, reader, lines, TypeOf(reader, header), body)))
  }

  /** The parts of a body; only a header of two lines or more can give it any. */
  function ParseBody(data: Bytes, reader: TypeReader, ghost lines: seq<Line>, contentType: ContentType,
                     body: seq<Line>): seq<Content>
    requires contentType == NoType || |body| < |lines|
    decreases |lines|, 0, |lines| + 1
  {
    match contentType
    case Multipart(Some(boundary)) =>
      if boundary == [] then []
      else
        PartsShorter(data, boundary, body);
        ParseAll(data, reader, PartsAfter(data, boundary, body, []), |body|)
    case Rfc822 => [Parse(data, reader, body)]
    case _ => []
  }

  function ParseAll(data: Bytes, reader: TypeReader, parts: seq<seq<Line>>, ghost limit: nat): (all: seq<Content>)
    requires forall i :: 0 <= i < |parts| ==> |parts[i]| < limit
    ensures |all| == |parts| && forall i :: 0 <= i < |parts| ==> all[i] == Parse(data, reader, parts[i])
    decreases limit, 0, |parts|
  {
    if parts == [] then [] else [Parse(data, reader, parts[0])] + ParseAll(data, reader, parts[1..], limit)
  }

  method ParseMultipart(data: Bytes, reader: TypeReader, lines: seq<Line>, boundary: Bytes)
    returns (nested: seq<Content>)
    ensures |nested| == |PartsAfter(data, boundary, lines, [])|
    ensures forall i :: 0 <= i < |nested| ==>
              nested[i] == Parse(data, reader, PartsAfter(data, boundary, lines, [])[i])
  {
    var parts := FindParts(data, lines, boundary);
    nested := ParseEach(data, reader, parts);
  }

  method ParseEach(data: Bytes, reader: TypeReader, parts: seq<seq<Line>>) returns (nested: seq<Content>)
    ensures |nested| == |parts| && forall i :: 0 <= i < |parts| ==> nested[i] == Parse(data, reader, parts[i])
  {
    nested := [];
    for i := 0 to |parts|
      invariant |nested| == i && forall k :: 0 <= k < i ==> nested[k] == Parse(data, reader, parts[k])
    {
      var content := Parse(data, reader, parts[i]);
      nested := nested + [content];
    }
  }

  // ----- Nesting

  predicate StandsAt(lines: seq<Line>, part: seq<Line>, at: nat) {
    at + |part| <= |lines| && lines[at..at + |part|] == part
  }

  /** The parts are stretches of the lines, one after the other, from the given positions on. */
  ghost predicate Placed(lines: seq<Line>, parts: seq<Content>, starts: seq<nat>) {
    && |starts| == |parts|
    && (forall i :: 0 <= i < |parts| ==> StandsAt(lines, AllLines(parts[i]), starts[i]))
    && (forall i, j :: 0 <= i < j < |parts| ==> starts[i] + |AllLines(parts[i])| <= starts[j])
  }

  ghost predicate InOrder(lines: seq<Line>, parts: seq<Content>) {
    exists starts: seq<nat> :: Placed(lines, parts, starts)
  }

  /** Header and body make up the lines, the parts are stretches of the body, and so on inside. */
  ghost predicate Nested(content: Content, lines: seq<Line>)
    decreases content, 0
  {
    && AllLines(content) == lines
    && InOrder(content.body.lines, content.body.nested)
    && forall i :: 0 <= i < |content.body.nested| ==> NestedPart(content.body.nested[i])
  }

  ghost predicate NestedPart(part: Content)
    decreases part, 1
  {
    Nested(part, AllLines(part))
  }

  function Shift(starts: seq<nat>, offset: nat): (r: seq<nat>)
    ensures |r| == |starts| && forall i :: 0 <= i < |starts| ==> r[i] == starts[i] + offset
  {
    seq(|starts|, i requires 0 <= i < |starts| => starts[i] + offset)
  }

  lemma StandsLater(before: seq<Line>, lines: seq<Line>, part: seq<Line>, at: nat)
    requires StandsAt(lines, part, at)
    ensures StandsAt(before + lines, part, |before| + at)
  {
    var later := |before| + at;
    assert (before + lines)[later..later + |part|] == lines[at..at + |part|];
  }

  lemma PlacedLater(before: seq<Line>, lines: seq<Line>, parts: seq<Content>, starts: seq<nat>)
    requires Placed(lines, parts, starts)
    ensures Placed(before + lines, parts, Shift(starts, |before|))
  {
    forall i | 0 <= i < |parts|
      ensures StandsAt(before + lines, AllLines(parts[i]), starts[i] + |before|)
    {
      StandsLater(before, lines, AllLines(parts[i]), starts[i]);
    }
  }

  lemma PlacedFirst(delimiter: Line, part: seq<Line>, after: seq<Line>, contents: seq<Content>, starts: seq<nat>)
    requires contents != [] && AllLines(contents[0]) == part && Placed(after, contents[1..], starts)
    ensures Placed([delimiter] + part + after, contents, [1] + Shift(starts, 1 + |part|))
  {
    var before := [delimiter] + part;
    PlacedLater(before, after, contents[1..], starts);
    assert (before + after)[1..1 + |part|] == part;
    PlacedCons(before + after, contents, Shift(starts, 1 + |part|));
  }

  lemma PlacedCons(lines: seq<Line>, contents: seq<Content>, starts: seq<nat>)
    requires contents != [] && StandsAt(lines, AllLines(contents[0]), 1) && Placed(lines, contents[1..], starts)
    requires forall i :: 0 <= i < |starts| ==> 1 + |AllLines(contents[0])| <= starts[i]
    ensures Placed(lines, contents, [1] + starts)
  {
    var all := [1] + starts;
    assert forall i :: 0 < i < |contents| ==> contents[1..][i - 1] == contents[i] && all[i] == starts[i - 1];
  }

  lemma {:induction false} InterleavedPlaced(delimiters: seq<Line>, parts: seq<seq<Line>>, contents: seq<Content>,
                                             rest: seq<Line>) returns (starts: seq<nat>)
    requires |delimiters| == |parts| == |contents|
    requires forall i :: 0 <= i < |parts| ==> AllLines(contents[i]) == parts[i]
    ensures Placed(Interleave(delimiters, parts) + rest, contents, starts)
    decreases |parts|
  {
    if parts == [] {
      starts := [];
    } else {
      var later := InterleavedPlaced(delimiters[1..], parts[1..], contents[1..], rest);
      var more := Interleave(delimiters[1..], parts[1..]);
      PlacedFirst(delimiters[0], parts[0], more + rest, contents, later);
      ConcatAssoc([delimiters[0]] + parts[0], more, rest);
      starts := [1] + Shift(later, 1 + |parts[0]|);
    }
  }

  /** Parsing nests: at every depth the parts are ordered, disjoint stretches of the body. */
  lemma {:induction false} ParseNests(data: Bytes, reader: TypeReader, lines: seq<Line>)
    ensures Nested(Parse(data, reader, lines), lines)
    decreases |lines|, 1
  {
    var (header, body) := SplitLines(data, lines);
    BodyNests(data, reader, lines, header, body);
  }

  lemma {:induction false} BodyNests(
    data: Bytes, reader: TypeReader, lines: seq<Line>, header: seq<Line>, body: seq<Line>)
    requires (header, body) == SplitLines(data, lines)
    ensures var nested := ParseBody(data, reader, lines, TypeOf(reader, header), body);
            InOrder(body, nested) && forall i :: 0 <= i < |nested| ==> NestedPart(nested[i])
    decreases |lines|, 0
  {
    assert Placed(body, [], []);
    match TypeOf(reader, header)
    case Multipart(Some(boundary)) =>
      if boundary != [] {
        PartsShorter(data, boundary, body);
        PartsNest(data, reader, PartsAfter(data, boundary, body, []), |body|);
        MultipartNests(data, boundary, body, ParseAll(data, reader, PartsAfter(data, boundary, body, []), |body|));
      }
    case Rfc822 =>
      ParseNests(data, reader, body);
      SingleNests(Parse(data, reader, body), body);
    case _ =>
  }

  lemma {:induction false} PartsNest(data: Bytes, reader: TypeReader, parts: seq<seq<Line>>, limit: nat)
    requires forall i :: 0 <= i < |parts| ==> |parts[i]| < limit
    ensures var all := ParseAll(data, reader, parts, limit);
            forall i :: 0 <= i < |parts| ==> AllLines(all[i]) == parts[i] && NestedPart(all[i])
    decreases limit, 0
  {
    forall i | 0 <= i < |parts|
      ensures Nested(Parse(data, reader, parts[i]), parts[i])
    {
      ParseNests(data, reader, parts[i]);
    }
  }

  lemma MultipartNests(data: Bytes, boundary: Bytes, body: seq<Line>, contents: seq<Content>)
    requires |contents| == |PartsAfter(data, boundary, body, [])|
    requires forall i :: 0 <= i < |contents| ==> AllLines(contents[i]) == PartsAfter(data, boundary, body, [])[i]
    ensures InOrder(body, contents)
  {
    var preamble, delimiters, epilogue := PartsDivideBody(data, boundary, body);
    var parts := PartsAfter(data, boundary, body, []);
    var starts := InterleavedPlaced(delimiters, parts, contents, epilogue);
    PlacedLater(preamble, Interleave(delimiters, parts) + epilogue, contents, starts);
    ConcatAssoc(preamble, Interleave(delimiters, parts), epilogue);
  }

  lemma SingleNests(part: Content, body: seq<Line>)
    requires AllLines(part) == body
    ensures InOrder(body, [part])
  {
    assert Placed(body, [part], [0]);
  }

  // ----- Structure

  /** The header ends with the first blank line, and without one there is no header. */
  ghost predicate HeaderFirst(data: Bytes, header: seq<Line>, body: seq<Line>) {
    && (forall i :: 0 <= i < |header| - 1 ==> !IsBlank(data, header[i]))
    && (header != [] ==> IsBlank(data, header[|header| - 1]))
    && (header == [] ==> forall i :: 0 <= i < |body| ==> !IsBlank(data, body[i]))
  }

  /** The nested parts are those that the boundary divides the body into. */
  ghost predicate DividedBy(data: Bytes, boundary: Bytes, body: seq<Line>, nested: seq<Content>) {
    exists preamble, delimiters, epilogue ::
      Divided(data, boundary, body, preamble, delimiters, PartLines(nested), epilogue)
  }

  ghost function PartLines(nested: seq<Content>): (parts: seq<seq<Line>>)
    ensures |parts| == |nested| && forall i :: 0 <= i < |nested| ==> parts[i] == AllLines(nested[i])
  {
    seq(|nested|, i requires 0 <= i < |nested| => AllLines(nested[i]))
  }

  /** What the header says of the body decides its parts: those between the boundaries, the message that
      the body is, or none. */
  ghost predicate PartsAsTyped(data: Bytes, contentType: ContentType, body: seq<Line>, nested: seq<Content>) {
    match contentType
    case Multipart(Some(boundary)) => if boundary != [] then DividedBy(data, boundary, body, nested) else nested == []
    case Rfc822 => |nested| == 1 && AllLines(nested[0]) == body
    case _ => nested == []
  }

  /** So it is at every depth; a header needs a line before the blank one to say anything. */
  ghost predicate Structured(data: Bytes, reader: TypeReader, content: Content)
    decreases content
  {
    var header, body, nested := content.header, content.body.lines, content.body.nested;
    && HeaderFirst(data, header, body)
    && PartsAsTyped(data, if |header| > 1 then reader(header[..|header| - 1]) else NoType, body, nested)
    && forall i :: 0 <= i < |nested| ==> Structured(data, reader, nested[i])
  }

  /** A message is structured as its headers say, at every depth. */
  lemma {:induction false} ParseStructured(data: Bytes, reader: TypeReader, lines: seq<Line>)
    ensures AllLines(Parse(data, reader, lines)) == lines && Structured(data, reader, Parse(data, reader, lines))
    decreases |lines|, 1
  {
    var (header, body) := SplitLines(data, lines);
    BodyStructured(data, reader, lines, header, body);
  }

  lemma {:induction false} BodyStructured(
    data: Bytes, reader: TypeReader, lines: seq<Line>, header: seq<Line>, body: seq<Line>)
    requires (header, body) == SplitLines(data, lines)
    ensures var contentType := TypeOf(reader, header);
            var nested := ParseBody(data, reader, lines, contentType, body);
            && PartsAsTyped(data, contentType, body, nested)
            && forall i :: 0 <= i < |nested| ==> Structured(data, reader, nested[i])
    decreases |lines|, 0
  {
    match TypeOf(reader, header)
    case Multipart(Some(boundary)) =>
      if boundary != [] {
        PartsShorter(data, boundary, body);
        var parts := PartsAfter(data, boundary, body, []);
        PartsStructured(data, reader, parts, |body|);
        FoundDivide(data, boundary, body, ParseAll(data, reader, parts, |body|));
      }
    case Rfc822 => ParseStructured(data, reader, body);
    case _ =>
  }

  lemma FoundDivide(data: Bytes, boundary: Bytes, body: seq<Line>, nested: seq<Content>)
    requires |nested| == |PartsAfter(data, boundary, body, [])|
    requires forall i :: 0 <= i < |nested| ==> AllLines(nested[i]) == PartsAfter(data, boundary, body, [])[i]
    ensures DividedBy(data, boundary, body, nested)
  {
    var preamble, delimiters, epilogue := PartsDivideBody(data, boundary, body);
    assert PartLines(nested) == PartsAfter(data, boundary, body, []);
  }

  lemma {:induction false} PartsStructured(data: Bytes, reader: TypeReader, parts: seq<seq<Line>>, limit: nat)
    requires forall i :: 0 <= i < |parts| ==> |parts[i]| < limit
    ensures var all := ParseAll(data, reader, parts, limit);
            forall i :: 0 <= i < |parts| ==> AllLines(all[i]) == parts[i] && Structured(data, reader, all[i])
    decreases limit, 0
  {
    forall i | 0 <= i < |parts| ensures Structured(data, reader, Parse(data, reader, parts[i])) {
      ParseStructured(data, reader, parts[i]);
    }
  }

  // ----- Bytes

  /** A part that stands among the lines covers a stretch of the bytes they cover. */
  lemma PartSpan(data: Bytes, lines: seq<Line>, part: seq<Line>, at: nat)
    requires Contiguous(lines) && Within(data, lines) && StandsAt(lines, part, at)
    ensures Span(data, lines) == Span(data, lines[..at]) + Span(data, part) + Span(data, lines[at + |part|..])
  {
    StandsSlices(lines, part, at);
    var upTo, rest := lines[..at + |part|], lines[at + |part|..];
    SpanConcat(data, upTo, rest);
    SpanConcat(data, lines[..at], part);
  }

  lemma StandsSlices(lines: seq<Line>, part: seq<Line>, at: nat)
    requires StandsAt(lines, part, at)
    ensures lines[..at] + part == lines[..at + |part|] && lines[..at + |part|] + lines[at + |part|..] == lines
  {
  }

  /** Whether the raw bytes of a part are the stretch that its lines cover: a part without a header
      must begin with the data, and one without a body must end one byte before the data does. */
  predicate KeepsRaw(data: Bytes, header: seq<Line>, body: seq<Line>) {
    if header != [] && body != [] then true
    else if body != [] then body[0].start == 0
    else if header != [] then header[0].start == |data| || header[|header| - 1].next == |data| - 1
    else |data| <= 1
  }

  lemma PartRaw(data: Bytes, header: seq<Line>, body: seq<Line>)
    requires Contiguous(header + body) && Within(data, header + body)
    ensures GetRaw(data, header, body) == Span(data, header + body) <==> KeepsRaw(data, header, body)
  {
    var lines := header + body;
    if lines != [] {
      ContiguousOrder(lines, 0, |lines| - 1);
      EndsRaw(data, lines[0].start, lines[|lines| - 1].next, header, body);
    }
  }

  lemma EndsRaw(data: Bytes, start: nat, next: nat, header: seq<Line>, body: seq<Line>)
    requires header + body != [] && start <= next <= |data|
    requires start == (header + body)[0].start && next == (header + body)[|header + body| - 1].next
    ensures GetRaw(data, header, body) == Span(data, header + body) <==> KeepsRaw(data, header, body)
  {
    assert Span(data, header + body) == data[start..next];
    if header == [] {
      assert header + body == body;
    } else if body == [] {
      assert header + body == header;
    } else {
      assert header[0].start == start && body[|body| - 1].next == next;
    }
  }

  ghost predicate EveryPartRaw(data: Bytes, content: Content)
    decreases content
  {
    && (GetRaw(data, content.header, content.body.lines) == Span(data, AllLines(content)) <==>
        KeepsRaw(data, content.header, content.body.lines))
    && forall i :: 0 <= i < |content.body.nested| ==> EveryPartRaw(data, content.body.nested[i])
  }

  lemma Stretch(data: Bytes, lines: seq<Line>, part: seq<Line>, at: nat)
    requires Contiguous(lines) && Within(data, lines) && StandsAt(lines, part, at)
    ensures Contiguous(part) && Within(data, part)
  {
    assert forall i :: 0 <= i < |part| ==> part[i] == lines[at + i];
  }

  /** At every depth, the raw bytes of a part are the bytes that its lines cover, exactly if it has a
      header and a body or happens to lie where the ends of an empty one are put. */
  lemma {:induction false} NestedRaw(data: Bytes, content: Content, lines: seq<Line>)
    requires Nested(content, lines) && Contiguous(lines) && Within(data, lines)
    ensures EveryPartRaw(data, content)
    decreases content
  {
    PartRaw(data, content.header, content.body.lines);
    var nested := content.body.nested;
    var starts: seq<nat> :| Placed(content.body.lines, nested, starts);
    StandsLast(content.header, content.body.lines);
    Stretch(data, lines, content.body.lines, |content.header|);
    forall i | 0 <= i < |nested| ensures EveryPartRaw(data, nested[i]) {
      Stretch(data, content.body.lines, AllLines(nested[i]), starts[i]);
      assert NestedPart(nested[i]);
      NestedRaw(data, nested[i], AllLines(nested[i]));
    }
  }

  lemma StandsLast(header: seq<Line>, body: seq<Line>)
    ensures StandsAt(header + body, body, |header|)
  {
  }

  /** So it is for every message and every part in it. */
  lemma MessagePartsRaw(data: Bytes, reader: TypeReader)
    ensures EveryPartRaw(data, Parse(data, reader, LinesFrom(data, 0)))
  {
    LinesTile(data, 0);
    ParseNests(data, reader, LinesFrom(data, 0));
    NestedRaw(data, Parse(data, reader, LinesFrom(data, 0)), LinesFrom(data, 0));
  }

  /** The raw header and body put together are the bytes of the message exactly if neither is empty,
      or the data is too short for the difference to show. */
  lemma RawExact(data: Bytes, header: seq<Line>, body: seq<Line>)
    requires Contiguous(header + body) && Within(data, header + body)
    ensures GetRaw(data, header, header) + GetRaw(data, body, body) == Span(data, header + body) <==>
            (header != [] && body != []) || |data| <= 1
  {
    var first, second, whole := Span(data, header), Span(data, body), Span(data, header + body);
    var rawFirst, rawSecond := GetRaw(data, header, header), GetRaw(data, body, body);
    SpanConcat(data, header, body);
    RawBoth(data, header, body, first, second, rawFirst, rawSecond);
    RawPieces(data, first, second, whole, header == [], body == [], rawFirst, rawSecond);
  }

  lemma RawBoth(
    data: Bytes, header: seq<Line>, body: seq<Line>, first: Bytes, second: Bytes, rawFirst: Bytes, rawSecond: Bytes)
    requires Contiguous(header + body) && Within(data, header + body)
    requires first == Span(data, header) && rawFirst == GetRaw(data, header, header)
    requires second == Span(data, body) && rawSecond == GetRaw(data, body, body)
    ensures rawFirst == RawOr(data, header == [], first) && (header == [] ==> first == [])
    ensures rawSecond == RawOr(data, body == [], second) && (body == [] ==> second == [])
  {
    RawList(data, header, header + body, 0);
    RawList(data, body, header + body, |header|);
  }

  /** What the code takes for a list that is empty, or the bytes that it covers. */
  function RawOr(data: Bytes, none: bool, covered: Bytes): Bytes {
    if !none then covered else if data == [] then [] else data[..|data| - 1]
  }

  /** All but the last byte of the data stands where nothing should. */
  lemma RawPieces(
    data: Bytes, first: Bytes, second: Bytes, whole: Bytes, noFirst: bool, noSecond: bool, rawFirst: Bytes,
    rawSecond: Bytes)
    requires whole == first + second
    requires rawFirst == RawOr(data, noFirst, first)
    requires rawSecond == RawOr(data, noSecond, second)
    requires (noFirst ==> first == []) && (noSecond ==> second == [])
    ensures rawFirst + rawSecond == whole <==> (!noFirst && !noSecond) || |data| <= 1
  {
    if |data| > 1 && (noFirst || noSecond) {
      assert |rawFirst + rawSecond| > |first + second|;
    }
  }

  lemma RawList(data: Bytes, list: seq<Line>, lines: seq<Line>, at: nat)
    requires Contiguous(lines) && Within(data, lines) && StandsAt(lines, list, at)
    ensures GetRaw(data, list, list) == RawOr(data, list == [], Span(data, list))
    ensures list == [] ==> Span(data, list) == []
  {
    if list != [] {
      ContiguousOrder(lines, at, at + |list| - 1);
      assert list[0] == lines[at] && list[|list| - 1] == lines[at + |list| - 1];
    }
  }

  /** A whole message keeps its bytes exactly if it has a body line or is empty. */
  lemma MessageRaw(data: Bytes, reader: TypeReader)
    ensures var content := Parse(data, reader, LinesFrom(data, 0));
            GetRaw(data, content.header, content.body.lines) == data <==> data == [] || content.body.lines != []
  {
    LinesTile(data, 0);
    var (header, body) := SplitLines(data, LinesFrom(data, 0));
    TiledRaw(data, header, body);
  }

  lemma TiledRaw(data: Bytes, header: seq<Line>, body: seq<Line>)
    requires Tiles(data, header + body, 0)
    ensures GetRaw(data, header, body) == data <==> data == [] || body != []
  {
    var lines := header + body;
    ContiguousOrder(lines, 0, |lines| - 1);
    if header != [] {
      assert header[0] == lines[0];
    }
    if body != [] {
      assert body[|body| - 1] == lines[|lines| - 1];
    }
  }

  /** A header field and its line feed, and nothing else: the line feed is lost. */
  lemma HeaderAlone(reader: TypeReader)
    ensures var data: Bytes := [0x61, LF];
            var content := Parse(data, reader, LinesFrom(data, 0));
            content.body.lines == [] && GetRaw(data, content.header, content.body.lines) == [0x61]
  {
    var data: Bytes := [0x61, LF];
    var field, blank := Line(0, 1, 2), Line(2, 2, 2);
    assert FindLF(data, 0) == 1 && FindLF(data, 2) == 2;
    assert LinesFrom(data, 2) == [blank] && LinesFrom(data, 0) == [field, blank];
    assert !Whitespace(data[0]) && !IsBlank(data, field);
    assert [field, blank][1..] == [blank];
    assert FirstBlank(data, [field, blank]) == 1;
  }

  lemma ThreeLines(data: Bytes)
    requires data == [0x61, LF, LF, 0x62]
    ensures LinesFrom(data, 0) == [Line(0, 1, 2), Line(2, 2, 3), Line(3, 4, 4)]
  {
    assert FindLF(data, 3) == 4 && FindLF(data, 2) == 2 && FindLF(data, 0) == 1;
    assert LinesFrom(data, 3) == [Line(3, 4, 4)];
    assert LinesFrom(data, 2) == [Line(2, 2, 3)] + [Line(3, 4, 4)];
  }

  lemma SplitThree(data: Bytes)
    requires data == [0x61, LF, LF, 0x62]
    ensures SplitLines(data, [Line(0, 1, 2), Line(2, 2, 3), Line(3, 4, 4)]) ==
            ([Line(0, 1, 2), Line(2, 2, 3)], [Line(3, 4, 4)])
    ensures SplitLines(data, [Line(3, 4, 4)]) == ([], [Line(3, 4, 4)])
  {
    var field, blank, text := Line(0, 1, 2), Line(2, 2, 3), Line(3, 4, 4);
    assert !Whitespace(data[0]) && !IsBlank(data, field) && !Whitespace(data[3]) && !IsBlank(data, text);
    assert [field, blank, text][1..] == [blank, text] && [text][1..] == [];
    assert FirstBlank(data, [blank, text]) == 0 && FirstBlank(data, [field, blank, text]) == 1;
    assert FirstBlank(data, [text]) == 1;
    var three := [field, blank, text];
    assert three[..2] == [field, blank] && three[2..] == [text];
  }

  /** A message inside a message, of one line and no blank one: its raw bytes are the whole outer
      message instead of that line. */
  lemma HeaderlessPart(data: Bytes, reader: TypeReader)
    requires data == [0x61, LF, LF, 0x62] && reader([Line(0, 1, 2)]) == Rfc822
    ensures Parse(data, reader, LinesFrom(data, 0)).body.nested == [Content([], Body([Line(3, 4, 4)], []))]
    ensures Span(data, [Line(3, 4, 4)]) == [0x62] && GetRaw(data, [], [Line(3, 4, 4)]) == data
  {
    ThreeLines(data);
    SplitThree(data);
    assert [Line(0, 1, 2), Line(2, 2, 3)][..1] == [Line(0, 1, 2)];
    assert Parse(data, reader, [Line(3, 4, 4)]) == Content([], Body([Line(3, 4, 4)], []));
    assert data[3..4] == [0x62] && data[0..4] == data;
  }
}
