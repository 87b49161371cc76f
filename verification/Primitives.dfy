/** Nested values on the wire: NIL, numbers, atoms, quoted strings and lists of them. */
module Primitives {
  import opened Collections
  import opened Wire

  datatype Value = Nil | Number(n: int) | Atom(text: Bytes) | Quoted(text: Bytes) | List(items: seq<Value>)

  const QUOTE: Byte := 0x22
  const BACKSLASH: Byte := 0x5c
  const OPEN: Byte := 0x28
  const CLOSE: Byte := 0x29
  const CR: Byte := 0x0d
  const LF: Byte := 0x0a
  const MINUS: Byte := 0x2d
  const NIL: Bytes := [0x4e, 0x49, 0x4c]

  // ----- Printing

  function Escape(text: Bytes): Bytes {
    if text == [] then []
    else (if text[0] == QUOTE || text[0] == BACKSLASH then [BACKSLASH, text[0]] else [text[0]]) + Escape(text[1..])
  }

  function Print(v: Value): Bytes
    decreases v
  {
    match v
    case Nil => NIL
    case Number(n) => if n < 0 then [MINUS] + Decimal(-n) else Decimal(n)
    case Atom(text) => text
    case Quoted(text) => [QUOTE] + Escape(text) + [QUOTE]
    case List(items) => [OPEN] + (if items == [] then [] else Print(items[0]) + Spaced(items[1..])) + [CLOSE]
  }

  /** The items of a list after the first, each after a space. */
  function Spaced(items: seq<Value>): Bytes
    decreases items
  {
    if items == [] then [] else [SPACE] + Print(items[0]) + Spaced(items[1..])
  }

  // ----- Reading

  predicate IsAtomByte(b: Byte) {
    b in {0x21, 0x23, 0x24, 0x26, 0x27, 0x7c, 0x7e} || 0x2b <= b <= 0x5b || 0x5e <= b <= 0x7a
  }

  predicate AllAtomBytes(w: Bytes) {
    forall i :: 0 <= i < |w| ==> IsAtomByte(w[i])
  }

  /** How many bytes of an atom the buffer begins with. */
  function AtomRun(buf: Bytes): (n: nat)
    ensures n <= |buf|
    ensures forall i :: 0 <= i < n ==> IsAtomByte(buf[i])
    ensures n < |buf| ==> !IsAtomByte(buf[n])
  {
    if buf == [] || !IsAtomByte(buf[0]) then 0 else 1 + AtomRun(buf[1..])
  }

  function Upper(b: Byte): Byte {
    if 0x61 <= b <= 0x7a then b - 0x20 else b
  }

  predicate IsNil(token: Bytes) {
    |token| == 3 && Upper(token[0]) == NIL[0] && Upper(token[1]) == NIL[1] && Upper(token[2]) == NIL[2]
  }

  /** The value of a token: the expected types NIL, number and atom are tried in this order. */
  function TokenValue(token: Bytes): Value {
    if IsNil(token) then Nil else if AllDigits(token) then Number(DecimalValue(token)) else Atom(token)
  }

  /** The text of a quoted string up to its closing quote, and what follows. */
  function Unquote(buf: Bytes): (r: Parsed<Bytes>)
    ensures r.Success? ==> |r.value.1| < |buf|
  {
    if buf == [] || buf[0] == CR || buf[0] == LF then Failure(NotParseable)
    else if buf[0] == QUOTE then Success(([], buf[1..]))
    else if buf[0] == BACKSLASH then
      if |buf| > 1 && (buf[1] == BACKSLASH || buf[1] == QUOTE) then Prepend([buf[1]], Unquote(buf[2..]))
      else Failure(NotParseable)
    else Prepend([buf[0]], Unquote(buf[1..]))
  }

  function Prepend(prefix: Bytes, r: Parsed<Bytes>): Parsed<Bytes> {
    match r
    case Failure(e) => Failure(e)
    case Success((text, rest)) => Success((prefix + text, rest))
  }

  function Spaces(buf: Bytes): (n: nat)
    ensures n <= |buf|
    ensures forall i :: 0 <= i < n ==> buf[i] == SPACE
    ensures n < |buf| ==> buf[n] != SPACE
  {
    if buf == [] || buf[0] != SPACE then 0 else 1 + Spaces(buf[1..])
  }

  /** Tries the expected types in order: NIL, number, atom, string, list. */
  function ParseValue(buf: Bytes, limit: Option<nat>): (r: Parsed<Value>)
    ensures r.Success? ==> |r.value.1| < |buf|
    decreases |buf|, 1
  {
    var start := buf[Spaces(buf)..];
    var n := AtomRun(start);
    if n > 0 then Success((TokenValue(start[..n]), start[n..]))
    else if start != [] && start[0] == QUOTE then
      match Unquote(start[1..])
      case Failure(e) => Failure(e)
      case Success((text, rest)) => Success((Quoted(text), rest))
    else if start != [] && start[0] == OPEN then ParseItems(start[1..], [], limit)
    else Failure(NotParseable)
  }

  /** The items of a list after those read already, up to its closing parenthesis. */
  function ParseItems(buf: Bytes, items: seq<Value>, limit: Option<nat>): (r: Parsed<Value>)
    ensures r.Success? ==> |r.value.1| < |buf|
    decreases |buf|, 2
  {
    var spaces := Spaces(buf);
    if spaces < |buf| && buf[spaces] == CLOSE then Success((List(items), buf[spaces + 1..]))
    else if items != [] && spaces == 0 then Failure(NotParseable)
    else
      match ParseValue(buf, limit)
      case Failure(e) => Failure(e)
      case Success((item, after)) =>
        if limit == Some(|items|) then Failure(NotParseable) else ParseItems(after, items + [item], limit)
  }

  /** The next byte at or after `marker` that the pattern of a quoted string looks for. */
  function FindSpecial(buf: Bytes, marker: nat): (at: nat)
    requires marker <= |buf|
    ensures marker <= at <= |buf|
    ensures forall i :: marker <= i < at ==> !IsSpecial(buf, i)
    ensures at < |buf| ==> IsSpecial(buf, at)
    decreases |buf| - marker
  {
    if marker == |buf| || IsSpecial(buf, marker) then marker else FindSpecial(buf, marker + 1)
  }

  /** A line end, a quote, or a backslash with any byte but a line feed after it. */
  predicate IsSpecial(buf: Bytes, i: nat)
    requires i < |buf|
  {
    buf[i] == CR || buf[i] == LF || buf[i] == QUOTE || (buf[i] == BACKSLASH && i + 1 < |buf| && buf[i + 1] != LF)
  }

  method ParseQuoted(buf: Bytes) returns (r: Parsed<Bytes>)
    requires buf != [] && buf[0] == QUOTE
    ensures r == Unquote(buf[1..])
  {
    var marker := 1;
    var unquoted: Bytes := [];
    PrependNothing(Unquote(buf[1..]));
    while true
      invariant 1 <= marker <= |buf| && Prepend(unquoted, Unquote(buf[marker..])) == Unquote(buf[1..])
      decreases |buf| - marker
    {
      var at := FindSpecial(buf, marker);
      UnquotePlain(buf, marker, at);
      PrependTwice(unquoted, buf[marker..at], Unquote(buf[at..]));
      unquoted := unquoted + buf[marker..at];
      if at == |buf| || buf[at] == CR || buf[at] == LF {
        return Failure(NotParseable);
      } else if buf[at] == BACKSLASH {
        if buf[at + 1] != BACKSLASH && buf[at + 1] != QUOTE {
          return Failure(NotParseable);
        }
        assert buf[at..][2..] == buf[at + 2..];
        PrependTwice(unquoted, [buf[at + 1]], Unquote(buf[at + 2..]));
        unquoted := unquoted + [buf[at + 1]];
        marker := at + 2;
      } else {
        assert buf[at..][1..] == buf[at + 1..] && unquoted + [] == unquoted;
        return Success((unquoted, buf[at + 1..]));
      }
    }
  }

  lemma PrependNothing(r: Parsed<Bytes>)
    ensures Prepend([], r) == r
  {
    if r.Success? {
      assert [] + r.value.0 == r.value.0;
    }
  }

  lemma PrependTwice(a: Bytes, b: Bytes, r: Parsed<Bytes>)
    ensures Prepend(a, Prepend(b, r)) == Prepend(a + b, r)
  {
    if r.Success? {
      assert a + (b + r.value.0) == a + b + r.value.0;
    }
  }

  /** Bytes that are not special are copied, unless a backslash among them makes reading fail. */
  lemma {:induction false} UnquotePlain(buf: Bytes, marker: nat, at: nat)
    requires marker <= at <= |buf| && at == FindSpecial(buf, marker)
    ensures Unquote(buf[marker..]) == Prepend(buf[marker..at], Unquote(buf[at..]))
    decreases at - marker
  {
    if marker == at {
      PrependNothing(Unquote(buf[at..]));
      assert buf[marker..at] == [];
    } else {
      UnquotePlain(buf, marker + 1, at);
      assert buf[marker..][1..] == buf[marker + 1..];
      assert buf[marker..at] == [buf[marker]] + buf[marker + 1..at];
      PrependTwice([buf[marker]], buf[marker + 1..at], Unquote(buf[at..]));
    }
  }

  method ParseList(buf: Bytes, limit: Option<nat>) returns (r: Parsed<Value>)
    requires buf != [] && buf[0] == OPEN
    ensures r == ParseItems(buf[1..], [], limit)
  {
    var items: seq<Value> := [];
    var rest := buf[1..];
    while true
      invariant ParseItems(rest, items, limit) == ParseItems(buf[1..], [], limit)
      decreases |rest|
    {
      var spaces := Spaces(rest);
      if spaces < |rest| && rest[spaces] == CLOSE {
        return Success((List(items), rest[spaces + 1..]));
      } else if items != [] && spaces == 0 {
        return Failure(NotParseable);
      }
      var item := ParseValue(rest, limit);
      if item.Failure? {
        return Failure(item.error);
      }
      if limit == Some(|items|) {
        return Failure(NotParseable);
      }
      items := items + [item.value.0];
      rest := item.value.1;
    }
  }

  /** The bytes of an atom are those of section 9 of RFC 3501: no control, no space and no special one. The
      code takes `}` for special too. */
  lemma AtomBytesExactly(b: Byte)
    ensures IsAtomByte(b) <==>
            && 0x20 < b < 0x7f && b != '(' as int && b != ')' as int && b != '{' as int && b != '%' as int
            && b != '*' as int && b != '"' as int && b != '\\' as int && b != ']' as int && b != '}' as int
  {
  }

  /** The text in bytes: lists in parentheses with a space between items, quoted strings in double quotes. */
  lemma PrintedAs(items: seq<Value>, text: Bytes)
    ensures Print(Nil) == [0x4e, 0x49, 0x4c]
    ensures Print(Quoted(text)) == [0x22] + Escape(text) + [0x22]
    ensures Print(List(items)) ==
            [0x28] + (if items == [] then [] else Print(items[0]) + Spaced(items[1..])) + [0x29]
    ensures items != [] ==> Spaced(items) == [0x20] + Print(items[0]) + Spaced(items[1..])
    ensures text != [] ==>
              Escape(text) ==
              (if text[0] == 0x22 || text[0] == 0x5c then [0x5c] else []) + [text[0]] + Escape(text[1..])
  {
  }
}
