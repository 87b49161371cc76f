/** The parts of a multipart body, between the lines that hold its boundary. */
module MimeParts {
  import opened Collections
  import opened Wire
  import opened MimeLines

  function Text(data: Bytes, line: Line): Bytes {
    if line.start <= line.end <= |data| then data[line.start..line.end] else []
  }

  const DASHES: Bytes := [0x2d, 0x2d]

  predicate IsStop(data: Bytes, boundary: Bytes, line: Line) {
    Text(data, line) == DASHES + boundary + DASHES
  }

  predicate IsDelimiter(data: Bytes, boundary: Bytes, line: Line) {
    Text(data, line) == DASHES + boundary
  }

  /** The parts found in the rest of the lines, after those in `ret`. */
  function PartsAfter(data: Bytes, boundary: Bytes, lines: seq<Line>, ret: seq<seq<Line>>): seq<seq<Line>> {
    if lines == [] || IsStop(data, boundary, lines[0]) then ret
    else if IsDelimiter(data, boundary, lines[0]) then PartsAfter(data, boundary, lines[1..], ret + [[]])
    else PartsAfter(data, boundary, lines[1..], Append(ret, lines[0]))
  }

  function Append(ret: seq<seq<Line>>, line: Line): seq<seq<Line>> {
    if ret == [] then [] else ret[|ret| - 1 := ret[|ret| - 1] + [line]]
  }

  method FindParts(data: Bytes, lines: seq<Line>, boundary: Bytes) returns (ret: seq<seq<Line>>)
    ensures ret == PartsAfter(data, boundary, lines, [])
  {
    ret := [];
    assert lines[0..] == lines;
    for i := 0 to |lines|
      invariant PartsAfter(data, boundary, lines[i..], ret) == PartsAfter(data, boundary, lines, [])
    {
      assert lines[i..][1..] == lines[i + 1..];
      if IsStop(data, boundary, lines[i]) {
        return;
      } else if IsDelimiter(data, boundary, lines[i]) {
        ret := ret + [[]];
      } else if ret != [] {
        ret := ret[|ret| - 1 := ret[|ret| - 1] + [lines[i]]];
      }
    }
  }

  /** Every delimiter line with the part after it. */
  function Interleave(delimiters: seq<Line>, parts: seq<seq<Line>>): seq<Line>
    requires |delimiters| == |parts|
  {
    if parts == [] then [] else [delimiters[0]] + parts[0] + Interleave(delimiters[1..], parts[1..])
  }

  predicate Ordinary(data: Bytes, boundary: Bytes, line: Line) {
    !IsStop(data, boundary, line) && !IsDelimiter(data, boundary, line)
  }

  /** The lines are a preamble, then delimiters with their parts, then nothing or a stop line and
      whatever follows it; neither preamble nor parts hold a delimiter or a stop line. */
  ghost predicate Divided(data: Bytes, boundary: Bytes, lines: seq<Line>, preamble: seq<Line>,
                          delimiters: seq<Line>, parts: seq<seq<Line>>, epilogue: seq<Line>)
  {
    && |delimiters| == |parts|
    && lines == preamble + Interleave(delimiters, parts) + epilogue
    && (forall i :: 0 <= i < |preamble| ==> Ordinary(data, boundary, preamble[i]))
    && (forall i :: 0 <= i < |delimiters| ==>
          IsDelimiter(data, boundary, delimiters[i]) && !IsStop(data, boundary, delimiters[i]))
    && (forall i, j :: 0 <= i < |parts| && 0 <= j < |parts[i]| ==> Ordinary(data, boundary, parts[i][j]))
    && (epilogue != [] ==> IsStop(data, boundary, epilogue[0]))
  }

  /** The lines between the parts are two dashes and the boundary, a stop line has two more dashes, and no
      line of a part or of the preamble is either. */
  lemma DelimitersAre(data: Bytes, boundary: Bytes, lines: seq<Line>, preamble: seq<Line>,
                      delimiters: seq<Line>, parts: seq<seq<Line>>, epilogue: seq<Line>, line: Line)
    requires Divided(data, boundary, lines, preamble, delimiters, parts, epilogue)
    requires line.start <= line.end <= |data|
    ensures var text := data[line.start..line.end];
            var opening, closing := [0x2d, 0x2d] + boundary, [0x2d, 0x2d] + boundary + [0x2d, 0x2d];
            && (line in delimiters ==> text == opening)
            && (epilogue != [] && line == epilogue[0] ==> text == closing)
            && (line in preamble || (exists i :: 0 <= i < |parts| && line in parts[i]) ==>
              text != opening && text != closing)
  {
    if line in preamble || (exists i :: 0 <= i < |parts| && line in parts[i]) {
      assert Ordinary(data, boundary, line);
    }
  }

  lemma {:induction false} InterleaveSnoc(delimiters: seq<Line>, parts: seq<seq<Line>>, delimiter: Line)
    requires |delimiters| == |parts|
    ensures Interleave(delimiters + [delimiter], parts + [[]]) == Interleave(delimiters, parts) + [delimiter]
  {
    if parts == [] {
      assert Interleave([delimiter][1..], [[]][1..]) == [];
      assert delimiters + [delimiter] == [delimiter] && parts + [[]] == [[]];
    } else {
      assert (delimiters + [delimiter])[1..] == delimiters[1..] + [delimiter];
      assert (parts + [[]])[1..] == parts[1..] + [[]];
      InterleaveSnoc(delimiters[1..], parts[1..], delimiter);
    }
  }

  lemma {:induction false} InterleaveAppend(delimiters: seq<Line>, parts: seq<seq<Line>>, line: Line)
    requires |delimiters| == |parts| > 0
    ensures |Append(parts, line)| == |parts|
    ensures Interleave(delimiters, Append(parts, line)) == Interleave(delimiters, parts) + [line]
  {
    var more := Append(parts, line);
    if |parts| == 1 {
      assert more[1..] == [] && parts[1..] == [];
    } else {
      assert more[1..] == Append(parts[1..], line) && more[0] == parts[0];
      InterleaveAppend(delimiters[1..], parts[1..], line);
    }
  }

  /** Reading on: `parts` have been found in the lines so far, and `rest` is to come. */
  lemma {:induction false} PartsDivide(data: Bytes, boundary: Bytes, preamble: seq<Line>, delimiters: seq<Line>,
                                       parts: seq<seq<Line>>, rest: seq<Line>, all: seq<Line>)
    returns (preamble': seq<Line>, delimiters': seq<Line>, epilogue: seq<Line>)
    requires |delimiters| == |parts| && all == preamble + Interleave(delimiters, parts) + rest
    requires Divided(data, boundary, preamble + Interleave(delimiters, parts), preamble, delimiters, parts, [])
    ensures Divided(data, boundary, all, preamble', delimiters', PartsAfter(data, boundary, rest, parts), epilogue)
    decreases |rest|
  {
    if rest == [] || IsStop(data, boundary, rest[0]) {
      preamble', delimiters', epilogue := preamble, delimiters, rest;
    } else {
      var line := rest[0];
      FirstToRest(preamble + Interleave(delimiters, parts), rest);
      if IsDelimiter(data, boundary, line) {
        DelimiterDivides(data, boundary, preamble, delimiters, parts, line);
        preamble', delimiters', epilogue :=
          PartsDivide(data, boundary, preamble, delimiters + [line], parts + [[]], rest[1..], all);
      } else if parts == [] {
        OrdinaryBefore(data, boundary, preamble, delimiters, line);
        preamble', delimiters', epilogue :=
          PartsDivide(data, boundary, preamble + [line], delimiters, parts, rest[1..], all);
      } else {
        OrdinaryInPart(data, boundary, preamble, delimiters, parts, line);
        preamble', delimiters', epilogue :=
          PartsDivide(data, boundary, preamble, delimiters, Append(parts, line), rest[1..], all);
      }
    }
  }

  lemma FirstToRest(before: seq<Line>, rest: seq<Line>)
    requires rest != []
    ensures before + rest == before + [rest[0]] + rest[1..]
  {
  }

  lemma DelimiterDivides(data: Bytes, boundary: Bytes, preamble: seq<Line>, delimiters: seq<Line>,
                         parts: seq<seq<Line>>, line: Line)
    requires |delimiters| == |parts|
    requires Divided(data, boundary, preamble + Interleave(delimiters, parts), preamble, delimiters, parts, [])
    requires IsDelimiter(data, boundary, line) && !IsStop(data, boundary, line)
    ensures preamble + Interleave(delimiters + [line], parts + [[]]) ==
            preamble + Interleave(delimiters, parts) + [line]
    ensures Divided(data, boundary, preamble + Interleave(delimiters + [line], parts + [[]]),
                    preamble, delimiters + [line], parts + [[]], [])
  {
    InterleaveSnoc(delimiters, parts, line);
  }

  lemma OrdinaryBefore(data: Bytes, boundary: Bytes, preamble: seq<Line>, delimiters: seq<Line>, line: Line)
    requires delimiters == [] && Ordinary(data, boundary, line)
    requires Divided(data, boundary, preamble + Interleave(delimiters, []), preamble, delimiters, [], [])
    ensures preamble + [line] + Interleave(delimiters, []) == preamble + Interleave(delimiters, []) + [line]
    ensures Divided(data, boundary, preamble + [line] + Interleave(delimiters, []),
                    preamble + [line], delimiters, [], [])
  {
  }

  lemma OrdinaryInPart(data: Bytes, boundary: Bytes, preamble: seq<Line>, delimiters: seq<Line>,
                       parts: seq<seq<Line>>, line: Line)
    requires |delimiters| == |parts| > 0 && Ordinary(data, boundary, line)
    requires Divided(data, boundary, preamble + Interleave(delimiters, parts), preamble, delimiters, parts, [])
    ensures |Append(parts, line)| == |delimiters|
    ensures preamble + Interleave(delimiters, Append(parts, line)) == preamble + Interleave(delimiters, parts) + [line]
    ensures Divided(data, boundary, preamble + Interleave(delimiters, Append(parts, line)),
                    preamble, delimiters, Append(parts, line), [])
  {
    InterleaveAppend(delimiters, parts, line);
    AppendOrdinary(data, boundary, parts, line);
  }

  lemma AppendOrdinary(data: Bytes, boundary: Bytes, parts: seq<seq<Line>>, line: Line)
    requires parts != [] && Ordinary(data, boundary, line)
    requires forall i, j :: 0 <= i < |parts| && 0 <= j < |parts[i]| ==> Ordinary(data, boundary, parts[i][j])
    ensures forall i, j :: 0 <= i < |Append(parts, line)| && 0 <= j < |Append(parts, line)[i]| ==>
              Ordinary(data, boundary, Append(parts, line)[i][j])
  {
    var more := Append(parts, line);
    forall i, j | 0 <= i < |more| && 0 <= j < |more[i]|
      ensures Ordinary(data, boundary, more[i][j])
    {
      if i == |parts| - 1 && j == |parts[i]| {
        assert more[i][j] == line;
      } else {
        assert more[i][j] == parts[i][j];
      }
    }
  }

  lemma DividedPreamble(data: Bytes, boundary: Bytes, lines: seq<Line>, preamble: seq<Line>,
                        delimiters: seq<Line>, parts: seq<seq<Line>>, epilogue: seq<Line>)
    requires Divided(data, boundary, lines, preamble, delimiters, parts, epilogue) && preamble != []
    ensures lines != [] && Ordinary(data, boundary, lines[0])
    ensures Divided(data, boundary, lines[1..], preamble[1..], delimiters, parts, epilogue)
  {
    DropFirst(preamble, Interleave(delimiters, parts), epilogue);
  }

  lemma DropFirst(a: seq<Line>, b: seq<Line>, c: seq<Line>)
    requires a != []
    ensures (a + b + c)[0] == a[0] && (a + b + c)[1..] == a[1..] + b + c
  {
  }

  lemma PartThenRest(delimiter: Line, part: seq<Line>, b: seq<Line>, c: seq<Line>)
    ensures [] + ([delimiter] + part + b) + c == [delimiter] + (part + ([] + b + c))
  {
  }

  lemma DividedPart(data: Bytes, boundary: Bytes, lines: seq<Line>, delimiters: seq<Line>,
                    parts: seq<seq<Line>>, epilogue: seq<Line>) returns (rest: seq<Line>)
    requires Divided(data, boundary, lines, [], delimiters, parts, epilogue) && parts != []
    ensures lines == [delimiters[0]] + (parts[0] + rest)
    ensures IsDelimiter(data, boundary, delimiters[0]) && !IsStop(data, boundary, delimiters[0])
    ensures forall i :: 0 <= i < |parts[0]| ==> Ordinary(data, boundary, parts[0][i])
    ensures Divided(data, boundary, rest, [], delimiters[1..], parts[1..], epilogue)
  {
    rest := [] + Interleave(delimiters[1..], parts[1..]) + epilogue;
    PartThenRest(delimiters[0], parts[0], Interleave(delimiters[1..], parts[1..]), epilogue);
  }

  lemma PartsAfterDelimiter(data: Bytes, boundary: Bytes, line: Line, rest: seq<Line>, ret: seq<seq<Line>>)
    requires !IsStop(data, boundary, line) && IsDelimiter(data, boundary, line)
    ensures PartsAfter(data, boundary, [line] + rest, ret) == PartsAfter(data, boundary, rest, ret + [[]])
  {
    assert ([line] + rest)[1..] == rest;
  }

  lemma PartsAfterLine(data: Bytes, boundary: Bytes, line: Line, rest: seq<Line>, ret: seq<seq<Line>>, grown: seq<Line>)
    requires Ordinary(data, boundary, line)
    ensures PartsAfter(data, boundary, [line] + rest, ret + [grown]) ==
            PartsAfter(data, boundary, rest, ret + [grown + [line]])
  {
    assert ([line] + rest)[1..] == rest;
    assert Append(ret + [grown], line) == ret + [grown + [line]];
  }

  /** The parts that are found are the only ones that divide the lines in this way. */
  lemma {:induction false} PartsUnique(data: Bytes, boundary: Bytes, lines: seq<Line>, preamble: seq<Line>,
                                       delimiters: seq<Line>, parts: seq<seq<Line>>, epilogue: seq<Line>,
                                       ret: seq<seq<Line>>)
    requires Divided(data, boundary, lines, preamble, delimiters, parts, epilogue) && (ret == [] || preamble == [])
    ensures PartsAfter(data, boundary, lines, ret) == ret + parts
    decreases |lines|
  {
    if preamble != [] {
      DividedPreamble(data, boundary, lines, preamble, delimiters, parts, epilogue);
      PartsUnique(data, boundary, lines[1..], preamble[1..], delimiters, parts, epilogue, ret);
    } else if parts == [] {
      assert lines == epilogue && ret + parts == ret;
    } else {
      var rest := DividedPart(data, boundary, lines, delimiters, parts, epilogue);
      PartsUnique(data, boundary, rest, [], delimiters[1..], parts[1..], epilogue, ret + [parts[0]]);
      PartsAfterDelimiter(data, boundary, delimiters[0], parts[0] + rest, ret);
      PartGrows(data, boundary, parts[0], rest, ret, []);
      FirstThenRest(ret, parts);
    }
  }

  lemma FirstThenRest(ret: seq<seq<Line>>, parts: seq<seq<Line>>)
    requires parts != []
    ensures ret + [parts[0]] + parts[1..] == ret + parts && [] + parts[0] == parts[0]
  {
  }

  lemma {:induction false} PartGrows(data: Bytes, boundary: Bytes, part: seq<Line>, rest: seq<Line>,
                                     ret: seq<seq<Line>>, grown: seq<Line>)
    requires forall i :: 0 <= i < |part| ==> Ordinary(data, boundary, part[i])
    ensures PartsAfter(data, boundary, part + rest, ret + [grown]) ==
            PartsAfter(data, boundary, rest, ret + [grown + part])
    decreases |part|
  {
    if part == [] {
      assert part + rest == rest && grown + part == grown;
    } else {
      PartsAfterLine(data, boundary, part[0], part[1..] + rest, ret, grown);
      PartGrows(data, boundary, part[1..], rest, ret, grown + [part[0]]);
      FirstLine(part, rest, grown);
    }
  }

  lemma FirstLine(part: seq<Line>, rest: seq<Line>, grown: seq<Line>)
    requires part != []
    ensures [part[0]] + (part[1..] + rest) == part + rest && grown + [part[0]] + part[1..] == grown + part
  {
  }

  /** The parts found in a whole body divide it. */
  lemma PartsDivideBody(data: Bytes, boundary: Bytes, lines: seq<Line>)
    returns (preamble: seq<Line>, delimiters: seq<Line>, epilogue: seq<Line>)
    ensures Divided(data, boundary, lines, preamble, delimiters, PartsAfter(data, boundary, lines, []), epilogue)
  {
    assert [] + Interleave([], []) == [];
    assert [] + lines == lines;
    preamble, delimiters, epilogue := PartsDivide(data, boundary, [], [], [], lines, lines);
  }

  lemma {:induction false} InterleaveLong(delimiters: seq<Line>, parts: seq<seq<Line>>, i: nat)
    requires |delimiters| == |parts| && i < |parts|
    ensures |parts[i]| < |Interleave(delimiters, parts)|
    decreases i
  {
    if i > 0 {
      InterleaveLong(delimiters[1..], parts[1..], i - 1);
    }
  }

  /** Every part is shorter than the body, because a delimiter comes before it. */
  lemma PartsShorter(data: Bytes, boundary: Bytes, lines: seq<Line>)
    ensures forall i :: 0 <= i < |PartsAfter(data, boundary, lines, [])| ==>
              |PartsAfter(data, boundary, lines, [])[i]| < |lines|
  {
    var preamble, delimiters, epilogue := PartsDivideBody(data, boundary, lines);
    var parts := PartsAfter(data, boundary, lines, []);
    forall i | 0 <= i < |parts|
      ensures |parts[i]| < |lines|
    {
      InterleaveLong(delimiters, parts, i);
    }
  }
}
