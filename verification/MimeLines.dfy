/** Cutting a message into lines, and the lines into header and body. */
module MimeLines {
  import opened Collections
  import opened Wire

  const LF: Byte := 0x0a
  const CR: Byte := 0x0d

  /** A line: its first byte, the end of its text, and the first byte of the next line. */
  datatype Line = Line(start: nat, end: nat, next: nat)

  predicate Whitespace(b: Byte) {
    b == 0x20 || 0x09 <= b <= 0x0d
  }

  /** The first line feed at or after `start`, or the length. */
  function FindLF(data: Bytes, start: nat): (at: nat)
    requires start <= |data|
    ensures start <= at <= |data|
    ensures at < |data| ==> data[at] == LF
    ensures forall i :: start <= i < at ==> data[i] != LF
    decreases |data| - start
  {
    if start == |data| || data[start] == LF then start else FindLF(data, start + 1)
  }

  /** The line at `start` that the line feed at `feed` ends. */
  function LineTo(data: Bytes, start: nat, feed: nat): Line
    requires start <= feed < |data|
  {
    Line(start, if feed > start && data[feed - 1] == CR then feed - 1 else feed, feed + 1)
  }

  function LinesFrom(data: Bytes, start: nat): seq<Line>
    requires start <= |data|
    decreases |data| - start
  {
    var feed := FindLF(data, start);
    if feed == |data| then [Line(start, feed, feed)]
    else [LineTo(data, start, feed)] + LinesFrom(data, feed + 1)
  }

  /** The lines so far, and those of the rest. */
  ghost function AllFound(data: Bytes, ret: seq<Line>, start: nat): seq<Line>
    requires start <= |data|
  {
    ret + LinesFrom(data, start)
  }

  lemma FoundLine(data: Bytes, ret: seq<Line>, start: nat, feed: nat)
    requires start <= feed < |data| && feed == FindLF(data, start)
    ensures AllFound(data, ret + [LineTo(data, start, feed)], feed + 1) == AllFound(data, ret, start)
  {
    var rest := LinesFrom(data, feed + 1);
    assert ret + [LineTo(data, start, feed)] + rest == ret + ([LineTo(data, start, feed)] + rest);
  }

  lemma FoundLast(data: Bytes, ret: seq<Line>, start: nat)
    requires start <= |data| == FindLF(data, start)
    ensures AllFound(data, ret, start) == ret + [Line(start, |data|, |data|)]
  {
  }

  method FindLines(data: Bytes) returns (ret: seq<Line>)
    ensures ret == LinesFrom(data, 0)
  {
    var start := 0;
    ret := [];
    ghost var all := AllFound(data, [], 0);
    while true
      invariant start <= |data| && AllFound(data, ret, start) == all
      decreases |data| - start
    {
      var idx := FindLF(data, start);
      if idx == |data| {
        FoundLast(data, ret, start);
        ret := ret + [Line(start, idx, idx)];
        break;
      }
      FoundLine(data, ret, start, idx);
      var nextStart := idx + 1;
      if idx > start && data[idx - 1] == CR {
        idx := idx - 1;
      }
      ret := ret + [Line(start, idx, nextStart)];
      start := nextStart;
    }
  }

  /** Each line starts where the one before ends. */
  ghost predicate Contiguous(lines: seq<Line>) {
    && (forall i :: 0 <= i < |lines| ==> lines[i].start <= lines[i].end <= lines[i].next)
    && (forall i :: 0 < i < |lines| ==> lines[i - 1].next == lines[i].start)
  }

  ghost predicate Within(data: Bytes, lines: seq<Line>) {
    forall i :: 0 <= i < |lines| ==> lines[i].next <= |data|
  }

  /** What ends a line: nothing at the end of the data, else a line feed with the CR before it. */
  predicate Terminated(data: Bytes, line: Line)
    requires line.start <= line.end <= line.next <= |data|
  {
    && (forall i :: line.start <= i < line.end ==> data[i] != LF)
    && (if line.next == line.end then line.next == |data|
        else data[line.end..line.next] == [CR, LF]
             || (data[line.end..line.next] == [LF] && (line.end > line.start ==> data[line.end - 1] != CR)))
  }

  /** The lines tile the data from `start` to its end, and each is ended properly. */
  ghost predicate Tiles(data: Bytes, lines: seq<Line>, start: nat) {
    && lines != [] && Contiguous(lines) && Within(data, lines)
    && lines[0].start == start && lines[|lines| - 1].next == |data|
    && lines[|lines| - 1].end == |data|
    && (forall i :: 0 <= i < |lines| ==> Terminated(data, lines[i]))
    && (forall i :: 0 <= i < |lines| - 1 ==> lines[i].end < lines[i].next)
  }

  lemma {:induction false} LinesTile(data: Bytes, start: nat)
    requires start <= |data|
    ensures Tiles(data, LinesFrom(data, start), start)
    decreases |data| - start
  {
    var feed := FindLF(data, start);
    if feed == |data| {
      TilesLast(data, Line(start, feed, feed));
    } else {
      LinesTile(data, feed + 1);
      TilesFrom(data, start, feed, LinesFrom(data, feed + 1), LinesFrom(data, start));
    }
  }

  lemma TilesFrom(data: Bytes, start: nat, feed: nat, rest: seq<Line>, all: seq<Line>)
    requires start <= feed < |data| && feed == FindLF(data, start)
    requires Tiles(data, rest, feed + 1) && all == [LineTo(data, start, feed)] + rest
    ensures Tiles(data, all, start)
  {
    LineEnds(data, start, feed);
    TilesMore(data, LineTo(data, start, feed), rest, start);
  }

  lemma TilesLast(data: Bytes, line: Line)
    requires line.start <= line.end == line.next == |data| && forall i :: line.start <= i < |data| ==> data[i] != LF
    ensures Tiles(data, [line], line.start)
  {
  }

  lemma LineEnds(data: Bytes, start: nat, feed: nat)
    requires start <= feed < |data| && feed == FindLF(data, start)
    ensures Terminated(data, LineTo(data, start, feed))
  {
  }

  lemma ContiguousCons(line: Line, lines: seq<Line>)
    requires Contiguous(lines) && line.start <= line.end <= line.next
    requires lines != [] ==> line.next == lines[0].start
    ensures Contiguous([line] + lines)
  {
  }

  lemma TilesMore(data: Bytes, line: Line, lines: seq<Line>, start: nat)
    requires Tiles(data, lines, line.next) && line.start == start <= line.end < line.next <= |data|
    requires Terminated(data, line)
    ensures Tiles(data, [line] + lines, start)
  {
    var all := [line] + lines;
    ContiguousCons(line, lines);
    forall i | 0 <= i < |all| ensures all[i] == if i == 0 then line else lines[i - 1] {
    }
    assert all[|all| - 1] == lines[|lines| - 1];
    EachCons(data, line, lines, all);
  }

  lemma EachCons(data: Bytes, line: Line, lines: seq<Line>, all: seq<Line>)
    requires Contiguous(lines) && Within(data, lines) && all == [line] + lines
    requires line.start <= line.end < line.next <= |data| && Terminated(data, line)
    requires forall i :: 0 <= i < |lines| ==> Terminated(data, lines[i])
    requires forall i :: 0 <= i < |lines| - 1 ==> lines[i].end < lines[i].next
    ensures Within(data, all) && (forall i :: 0 <= i < |all| ==> all[i].start <= all[i].end <= all[i].next)
    ensures forall i :: 0 <= i < |all| ==> Terminated(data, all[i])
    ensures forall i :: 0 <= i < |all| - 1 ==> all[i].end < all[i].next
  {
    forall i | 0 <= i < |all| ensures all[i] == if i == 0 then line else lines[i - 1] {
    }
  }

  /** The bytes that a stretch of lines covers. */
  function Span(data: Bytes, lines: seq<Line>): Bytes {
    if lines == [] || !(lines[0].start <= lines[|lines| - 1].next <= |data|) then []
    else data[lines[0].start..lines[|lines| - 1].next]
  }

  lemma {:induction false} ContiguousOrder(lines: seq<Line>, i: nat, j: nat)
    requires Contiguous(lines) && i <= j < |lines|
    ensures lines[i].start <= lines[j].start && lines[i].next <= lines[j].next
    decreases j - i
  {
    if i < j {
      ContiguousOrder(lines, i, j - 1);
    }
  }

  lemma SpanConcat(data: Bytes, first: seq<Line>, second: seq<Line>)
    requires Contiguous(first + second) && Within(data, first + second)
    ensures Span(data, first + second) == Span(data, first) + Span(data, second)
  {
    var all := first + second;
    if first == [] {
      assert all == second;
    } else if second == [] {
      assert all == first;
    } else {
      var n := |first|;
      ContiguousOrder(all, 0, n - 1);
      ContiguousOrder(all, n, |all| - 1);
      assert all[n - 1] == first[n - 1] && all[n] == second[0] && all[|all| - 1] == second[|second| - 1];
      assert all[n - 1].next == all[n].start;
    }
  }

  // ----- Header and body

  predicate IsBlank(data: Bytes, line: Line) {
    forall i :: line.start <= i < line.end && i < |data| ==> Whitespace(data[i])
  }

  /** The index of the first blank line, or the number of lines. */
  function FirstBlank(data: Bytes, lines: seq<Line>): (n: nat)
    ensures n <= |lines|
    ensures n < |lines| ==> IsBlank(data, lines[n])
    ensures forall i :: 0 <= i < n ==> !IsBlank(data, lines[i])
  {
    if lines == [] || IsBlank(data, lines[0]) then 0 else 1 + FirstBlank(data, lines[1..])
  }

  /** The header ends with the first blank line; without one, all lines are the body. */
  function SplitLines(data: Bytes, lines: seq<Line>): (r: (seq<Line>, seq<Line>))
    ensures r.0 + r.1 == lines
    ensures r.0 == [] <==> forall i :: 0 <= i < |lines| ==> !IsBlank(data, lines[i])
    ensures r.0 != [] ==> IsBlank(data, r.0[|r.0| - 1])
    ensures forall i :: 0 <= i < |r.0| - 1 ==> !IsBlank(data, r.0[i])
  {
    var n := FirstBlank(data, lines);
    if n < |lines| then (lines[..n + 1], lines[n + 1..]) else ([], lines)
  }

  /** A line is blank if it holds nothing but spaces, tabs, CR, LF, vertical tabs and form feeds. */
  lemma BlankExactly(data: Bytes, line: Line)
    requires line.start <= line.end <= |data|
    ensures IsBlank(data, line) <==>
            forall i :: line.start <= i < line.end ==>
              data[i] == 0x20 || data[i] == 0x09 || data[i] == CR || data[i] == LF || data[i] == 0x0b || data[i] == 0x0c
  {
  }

  // ----- Raw bytes

  /** The bytes from the first line of the first list to the last line of the last: where a list
      is empty, the code starts at the beginning of the data, or ends before its last byte. */
  function GetRaw(data: Bytes, first: seq<Line>, last: seq<Line>): Bytes {
    var start := if first == [] then 0 else first[0].start;
    var end := if last != [] then last[|last| - 1].next else if data == [] then 0 else |data| - 1;
    if start <= end <= |data| then data[start..end] else []
  }
}
