/** When a value that is printed is read back. */
module ValueRoundTrip {
  import opened Collections
  import opened Wire
  import opened Primitives

  /** The values that have a text of their own. */
  predicate Readable(v: Value)
    decreases v
  {
    match v
    case Nil => true
    case Number(n) => n >= 0
    case Atom(text) => text != [] && AllAtomBytes(text) && !IsNil(text) && !AllDigits(text)
    case Quoted(text) => forall i :: 0 <= i < |text| ==> text[i] != CR && text[i] != LF
    case List(items) => forall i :: 0 <= i < |items| ==> Readable(items[i])
  }

  /** No list in the value is longer than the limit. */
  predicate Fits(v: Value, limit: Option<nat>)
    decreases v
  {
    v.List? ==> InLimit(|v.items|, limit) && forall i :: 0 <= i < |v.items| ==> Fits(v.items[i], limit)
  }

  predicate InLimit(n: nat, limit: Option<nat>) {
    limit.Some? ==> n <= limit.value
  }

  /** What follows does not run into the value. */
  predicate Ends(v: Value, rest: Bytes) {
    v.Quoted? || v.List? || rest == [] || !IsAtomByte(rest[0])
  }

  lemma {:induction false} AtomRunOf(token: Bytes, rest: Bytes)
    requires AllAtomBytes(token)
    ensures AtomRun(token + rest) == |token| + AtomRun(rest)
  {
    if token == [] {
      assert token + rest == rest;
    } else {
      assert (token + rest)[1..] == token[1..] + rest;
      AtomRunOf(token[1..], rest);
    }
  }

  lemma ParseToken(token: Bytes, rest: Bytes, limit: Option<nat>)
    requires token != [] && AllAtomBytes(token)
    ensures ParseValue(token + rest, limit).Success?
    ensures rest == [] || !IsAtomByte(rest[0]) ==>
            ParseValue(token + rest, limit) == Success((TokenValue(token), rest))
    ensures rest != [] && IsAtomByte(rest[0]) ==> |ParseValue(token + rest, limit).value.1| < |rest|
  {
    var buf := token + rest;
    AtomRunOf(token, rest);
    assert buf[0] == token[0];
    assert Spaces(buf) == 0 && buf[0..] == buf;
    if AtomRun(rest) == 0 {
      assert buf[..|token|] == token && buf[|token|..] == rest;
    }
  }

  lemma {:induction false} UnquoteEscape(text: Bytes, rest: Bytes)
    requires forall i :: 0 <= i < |text| ==> text[i] != CR && text[i] != LF
    ensures Unquote(Escape(text) + [QUOTE] + rest) == Success((text, rest))
  {
    var buf := Escape(text) + [QUOTE] + rest;
    if text == [] {
      assert buf[1..] == rest;
    } else {
      UnquoteEscape(text[1..], rest);
      var after := Escape(text[1..]) + [QUOTE] + rest;
      assert [text[0]] + text[1..] == text;
      if text[0] == QUOTE || text[0] == BACKSLASH {
        assert buf[2..] == after;
      } else {
        assert buf[1..] == after;
      }
    }
  }

  lemma ParseQuotedValue(text: Bytes, rest: Bytes, limit: Option<nat>)
    requires forall i :: 0 <= i < |text| ==> text[i] != CR && text[i] != LF
    ensures ParseValue(Print(Quoted(text)) + rest, limit) == Success((Quoted(text), rest))
  {
    var buf := Print(Quoted(text)) + rest;
    UnquoteEscape(text, rest);
    assert buf[1..] == Escape(text) + [QUOTE] + rest;
    assert Spaces(buf) == 0 && buf[0..] == buf && AtomRun(buf) == 0;
  }

  /** The text of a value that is one token. */
  lemma TokenOf(v: Value)
    requires Readable(v) && (v.Nil? || v.Number? || v.Atom?)
    ensures Print(v) != [] && AllAtomBytes(Print(v)) && TokenValue(Print(v)) == v
  {
    if v.Number? {
      DecimalDigits(v.n);
      assert forall i :: 0 <= i < |Decimal(v.n)| ==> IsDigit(Decimal(v.n)[i]) && IsAtomByte(Decimal(v.n)[i]);
      assert !IsNil(Decimal(v.n));
    }
  }

  /** A printed value begins with neither a space nor a closing parenthesis. */
  lemma PrintStarts(v: Value)
    requires Readable(v)
    ensures Print(v) != [] && Print(v)[0] != SPACE && Print(v)[0] != CLOSE
  {
    if v.Nil? || v.Number? || v.Atom? {
      TokenOf(v);
      assert IsAtomByte(Print(v)[0]);
    }
  }

  lemma {:induction false} ValueReadsBack(v: Value, rest: Bytes, limit: Option<nat>)
    requires Readable(v) && Fits(v, limit) && Ends(v, rest)
    ensures ParseValue(Print(v) + rest, limit) == Success((v, rest))
    decreases v, 1
  {
    match v
    case Quoted(text) => ParseQuotedValue(text, rest, limit);
    case List(items) =>
      ListReadsBack(items, rest, limit);
      ParseOpen(v, rest, limit);
    case _ =>
      TokenOf(v);
      ParseToken(Print(v), rest, limit);
  }

  lemma ParseOpen(v: Value, rest: Bytes, limit: Option<nat>)
    requires v.List?
    ensures ParseValue(Print(v) + rest, limit) == ParseItems(Inside(v.items) + [CLOSE] + rest, [], limit)
  {
    var buf := Print(v) + rest;
    assert buf[1..] == Inside(v.items) + [CLOSE] + rest;
    assert Spaces(buf) == 0 && buf[0..] == buf && AtomRun(buf) == 0;
  }

  function Inside(items: seq<Value>): Bytes {
    if items == [] then [] else Print(items[0]) + Spaced(items[1..])
  }

  lemma {:induction false} ListReadsBack(items: seq<Value>, rest: Bytes, limit: Option<nat>)
    requires InLimit(|items|, limit)
    requires forall i :: 0 <= i < |items| ==> Readable(items[i]) && Fits(items[i], limit)
    ensures ParseItems(Inside(items) + [CLOSE] + rest, [], limit) == Success((List(items), rest))
    decreases items, 0
  {
    if items == [] {
      var buf := Inside(items) + [CLOSE] + rest;
      assert Spaces(buf) == 0 && buf[1..] == rest;
    } else {
      var after := Spaced(items[1..]) + [CLOSE] + rest;
      PrintStarts(items[0]);
      SpacedStarts(items[1..], [CLOSE] + rest);
      InsideSplits(items, rest, after);
      ValueReadsBack(items[0], after, limit);
      ItemsReadBack(items[1..], [items[0]], rest, limit);
      ParseFirst(items[0], after, limit);
    }
  }

  lemma InsideSplits(items: seq<Value>, rest: Bytes, after: Bytes)
    requires items != [] && after == Spaced(items[1..]) + [CLOSE] + rest
    ensures Inside(items) + [CLOSE] + rest == Print(items[0]) + after
    ensures [items[0]] + items[1..] == items
  {
    ConcatAssoc(Print(items[0]), Spaced(items[1..]), [CLOSE]);
    ConcatAssoc(Print(items[0]), Spaced(items[1..]) + [CLOSE], rest);
  }

  lemma ParseFirst(item: Value, after: Bytes, limit: Option<nat>)
    requires Readable(item) && ParseValue(Print(item) + after, limit) == Success((item, after)) && InLimit(1, limit)
    ensures ParseItems(Print(item) + after, [], limit) == ParseItems(after, [item], limit)
  {
    var buf := Print(item) + after;
    PrintStarts(item);
    assert buf[0] == Print(item)[0];
    assert Spaces(buf) == 0;
    assert [] + [item] == [item];
  }

  /** What follows an item is a space or the closing parenthesis, so the item ends there. */
  lemma SpacedStarts(items: seq<Value>, rest: Bytes)
    requires rest != [] && !IsAtomByte(rest[0])
    ensures Spaced(items) + rest != [] && !IsAtomByte((Spaced(items) + rest)[0])
  {
    if items == [] {
      assert Spaced(items) + rest == rest;
    }
  }

  lemma {:induction false} ItemsReadBack(items: seq<Value>, done: seq<Value>, rest: Bytes, limit: Option<nat>)
    requires done != [] && InLimit(|done| + |items|, limit)
    requires forall i :: 0 <= i < |items| ==> Readable(items[i]) && Fits(items[i], limit)
    ensures ParseItems(Spaced(items) + [CLOSE] + rest, done, limit) == Success((List(done + items), rest))
    decreases items, 0
  {
    if items == [] {
      var buf := Spaced(items) + [CLOSE] + rest;
      assert Spaces(buf) == 0 && buf[1..] == rest && done + items == done;
    } else {
      var after := Spaced(items[1..]) + [CLOSE] + rest;
      SpacedEnds(items[0], items[1..], rest);
      ValueReadsBack(items[0], after, limit);
      ItemsReadBack(items[1..], done + [items[0]], rest, limit);
      ItemsNext(items, done, rest, limit, after);
    }
  }

  lemma SpacedEnds(item: Value, items: seq<Value>, rest: Bytes)
    ensures Ends(item, Spaced(items) + [CLOSE] + rest)
  {
    SpacedStarts(items, [CLOSE] + rest);
    assert Spaced(items) + [CLOSE] + rest == Spaced(items) + ([CLOSE] + rest);
  }

  lemma ItemsNext(items: seq<Value>, done: seq<Value>, rest: Bytes, limit: Option<nat>, after: Bytes)
    requires items != [] && done != [] && Readable(items[0]) && InLimit(|done| + 1, limit)
    requires after == Spaced(items[1..]) + [CLOSE] + rest
    requires ParseValue(Print(items[0]) + after, limit) == Success((items[0], after))
    requires ParseItems(after, done + [items[0]], limit) == Success((List(done + [items[0]] + items[1..]), rest))
    ensures ParseItems(Spaced(items) + [CLOSE] + rest, done, limit) == Success((List(done + items), rest))
  {
    SpacedGroups(Print(items[0]), Spaced(items[1..]), rest);
    ParseNext(items[0], done, after, limit);
    FirstItem(items, done);
  }

  lemma FirstItem(items: seq<Value>, done: seq<Value>)
    requires items != []
    ensures done + [items[0]] + items[1..] == done + items
  {
  }

  lemma SpacedGroups(a: Bytes, b: Bytes, rest: Bytes)
    ensures [SPACE] + a + b + [CLOSE] + rest == [SPACE] + (a + (b + [CLOSE] + rest))
  {
  }

  lemma ParseNext(item: Value, done: seq<Value>, after: Bytes, limit: Option<nat>)
    requires Readable(item) && done != [] && InLimit(|done| + 1, limit)
    requires ParseValue(Print(item) + after, limit) == Success((item, after))
    ensures ParseItems([SPACE] + (Print(item) + after), done, limit) == ParseItems(after, done + [item], limit)
  {
    PrintStarts(item);
    assert (Print(item) + after)[0] == Print(item)[0];
    ItemAfterSpace(Print(item) + after, item, done, after, limit);
  }

  lemma SpaceSkipped(inner: Bytes, limit: Option<nat>)
    requires inner != [] && inner[0] != SPACE
    ensures Spaces([SPACE] + inner) == 1 && ParseValue([SPACE] + inner, limit) == ParseValue(inner, limit)
  {
    var buf := [SPACE] + inner;
    assert buf[1..] == inner && inner[0..] == inner;
    assert Spaces(inner) == 0;
  }

  lemma ItemAfterSpace(inner: Bytes, item: Value, done: seq<Value>, after: Bytes, limit: Option<nat>)
    requires inner != [] && inner[0] != SPACE && inner[0] != CLOSE
    requires done != [] && InLimit(|done| + 1, limit) && ParseValue(inner, limit) == Success((item, after))
    ensures ParseItems([SPACE] + inner, done, limit) == ParseItems(after, done + [item], limit)
  {
    SpaceSkipped(inner, limit);
    assert ([SPACE] + inner)[1] == inner[0];
  }

  /** Whatever is read is readable and within the limit. */
  lemma {:induction false} ReadIsReadable(buf: Bytes, limit: Option<nat>)
    ensures ParseValue(buf, limit).Success? ==>
            Readable(ParseValue(buf, limit).value.0) && Fits(ParseValue(buf, limit).value.0, limit)
    decreases |buf|, 1
  {
    var start := buf[Spaces(buf)..];
    var n := AtomRun(start);
    if n > 0 {
      TokenReadable(start[..n]);
    } else if start != [] && start[0] == QUOTE {
      UnquoteReadable(start[1..]);
    } else if start != [] && start[0] == OPEN {
      ItemsReadable(start[1..], [], limit);
    }
  }

  lemma TokenReadable(token: Bytes)
    requires token != [] && AllAtomBytes(token)
    ensures Readable(TokenValue(token)) && !TokenValue(token).List?
  {
  }

  lemma {:induction false} UnquoteReadable(buf: Bytes)
    ensures Unquote(buf).Success? ==> Readable(Quoted(Unquote(buf).value.0))
  {
    if buf != [] && Unquote(buf).Success? && buf[0] != QUOTE {
      if buf[0] == BACKSLASH {
        UnquoteReadable(buf[2..]);
      } else {
        UnquoteReadable(buf[1..]);
      }
    }
  }

  lemma {:induction false} ItemsReadable(buf: Bytes, items: seq<Value>, limit: Option<nat>)
    requires InLimit(|items|, limit)
    requires forall i :: 0 <= i < |items| ==> Readable(items[i]) && Fits(items[i], limit)
    ensures ParseItems(buf, items, limit).Success? ==>
            Readable(ParseItems(buf, items, limit).value.0) && Fits(ParseItems(buf, items, limit).value.0, limit)
    decreases |buf|, 2
  {
    var spaces := Spaces(buf);
    if !(spaces < |buf| && buf[spaces] == CLOSE) && (items == [] || spaces > 0) {
      ReadIsReadable(buf, limit);
      var r := ParseValue(buf, limit);
      if r.Success? && limit != Some(|items|) {
        ItemsReadable(r.value.1, items + [r.value.0], limit);
      }
    }
  }

  /** A value is read back, and what follows it left alone, exactly if it has a text of its own, its
      lists are within the limit, and what follows does not run into it. */
  lemma RoundTrip(v: Value, rest: Bytes, limit: Option<nat>)
    ensures ParseValue(Print(v) + rest, limit) == Success((v, rest)) <==>
            Readable(v) && Fits(v, limit) && Ends(v, rest)
  {
    if Readable(v) && Fits(v, limit) && Ends(v, rest) {
      ValueReadsBack(v, rest, limit);
    } else {
      ReadIsReadable(Print(v) + rest, limit);
      if Readable(v) && !Ends(v, rest) {
        TokenOf(v);
        ParseToken(Print(v), rest, limit);
      }
    }
  }
}
