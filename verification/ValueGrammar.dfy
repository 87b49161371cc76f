/** Exactly which bytes are read as which nested value: a grammar that does not know the parser. */
module ValueGrammar {
  import opened Collections
  import opened Wire
  import opened Primitives
  import opened ValueRoundTrip

  predicate AllSpaces(w: Bytes) {
    forall i :: 0 <= i < |w| ==> w[i] == 0x20
  }

  predicate NilText(w: Bytes) {
    && |w| == 3 && (w[0] == 'N' as int || w[0] == 'n' as int)
    && (w[1] == 'I' as int || w[1] == 'i' as int) && (w[2] == 'L' as int || w[2] == 'l' as int)
  }

  /** The texts of a value: NIL in any case, digits, an atom that is neither, a quoted string with every quote
      and backslash escaped, or a list. */
  ghost predicate Spells(w: Bytes, v: Value)
    decreases v
  {
    match v
    case Nil => NilText(w)
    case Number(n) => w != [] && AllDigits(w) && DecimalValue(w) == n
    case Atom(text) => w == text != [] && AllAtomBytes(w) && !NilText(w) && !AllDigits(w)
    case Quoted(text) =>
      w == [0x22] + Escape(text) + [0x22] && forall i :: 0 <= i < |text| ==> text[i] != 0x0d && text[i] != 0x0a
    case List(items) => w != [] && w[0] == '(' as int && SpellsItems(w[1..], items, true)
  }

  /** Items with spaces between them and perhaps around them, and the closing parenthesis. */
  ghost predicate SpellsItems(w: Bytes, items: seq<Value>, first: bool)
    decreases items
  {
    if items == [] then w != [] && AllSpaces(w[..|w| - 1]) && w[|w| - 1] == ')' as int
    else
      exists n: nat, k: nat ::
        Splits(w, n, k, first) && Spells(w[n..k], items[0]) && SpellsItems(w[k..], items[1..], false)
  }

  predicate Splits(w: Bytes, n: nat, k: nat, first: bool) {
    n <= k <= |w| && (first || n > 0) && AllSpaces(w[..n])
  }

  // ----- Tokens and quoted strings

  lemma NilExactly(w: Bytes)
    ensures NilText(w) <==> IsNil(w)
  {
  }

  lemma TokenSpells(w: Bytes)
    requires w != [] && AllAtomBytes(w)
    ensures Spells(w, TokenValue(w)) && !TokenValue(w).List? && !TokenValue(w).Quoted?
  {
    NilExactly(w);
  }

  lemma SpelledToken(w: Bytes, v: Value)
    requires Spells(w, v) && (v.Nil? || v.Number? || v.Atom?)
    ensures w != [] && AllAtomBytes(w) && TokenValue(w) == v
  {
    NilExactly(w);
  }

  lemma SpelledStart(w: Bytes, v: Value)
    requires Spells(w, v)
    ensures w != [] && w[0] != SPACE && w[0] != CLOSE
  {
    if v.Nil? || v.Number? || v.Atom? {
      SpelledToken(w, v);
      assert IsAtomByte(w[0]);
    }
  }

  /** A string is read up to its closing quote only if all quotes and backslashes in it are escaped. */
  lemma {:induction false} UnquotedText(buf: Bytes)
    requires Unquote(buf).Success?
    ensures var (text, rest) := Unquote(buf).value; buf == Escape(text) + [QUOTE] + rest
  {
    var (text, rest) := Unquote(buf).value;
    if buf[0] == QUOTE {
      assert Escape([]) == [] && buf == [QUOTE] + buf[1..];
    } else if buf[0] == BACKSLASH {
      UnquotedText(buf[2..]);
      var (more, _) := Unquote(buf[2..]).value;
      EscapeFirst(buf[1], more);
      FirstTwo(buf, Escape(more), rest);
    } else {
      UnquotedText(buf[1..]);
      var (more, _) := Unquote(buf[1..]).value;
      EscapeFirst(buf[0], more);
      FirstOne(buf, Escape(more), rest);
    }
  }

  lemma EscapeFirst(b: Byte, more: Bytes)
    ensures Escape([b] + more) == (if b == QUOTE || b == BACKSLASH then [BACKSLASH, b] else [b]) + Escape(more)
  {
    assert ([b] + more)[1..] == more;
  }

  lemma FirstTwo(buf: Bytes, escaped: Bytes, rest: Bytes)
    requires |buf| >= 2 && buf[2..] == escaped + [QUOTE] + rest
    ensures buf == [buf[0], buf[1]] + escaped + [QUOTE] + rest
  {
    assert buf == [buf[0], buf[1]] + buf[2..];
  }

  lemma FirstOne(buf: Bytes, escaped: Bytes, rest: Bytes)
    requires buf != [] && buf[1..] == escaped + [QUOTE] + rest
    ensures buf == [buf[0]] + escaped + [QUOTE] + rest
  {
    assert buf == [buf[0]] + buf[1..];
  }

  // ----- What is read is spelled so

  lemma {:induction false} ReadSpells(buf: Bytes, limit: Option<nat>) returns (w: Bytes)
    requires ParseValue(buf, limit).Success?
    ensures var (v, rest) := ParseValue(buf, limit).value;
            buf == buf[..Spaces(buf)] + w + rest && Spells(w, v) && Ends(v, rest)
    decreases |buf|, 1
  {
    var start := buf[Spaces(buf)..];
    var n := AtomRun(start);
    var rest := ParseValue(buf, limit).value.1;
    if n > 0 {
      w := start[..n];
      TokenSpells(w);
    } else if start[0] == QUOTE {
      var text := Unquote(start[1..]).value.0;
      w := [0x22] + Escape(text) + [0x22];
      QuotedSpells(start, text, rest);
    } else {
      var inner, items := ItemsSpell(start[1..], [], limit);
      w := [OPEN] + inner;
      ListSpells(start, inner, items, rest);
    }
    SpacesThen(buf, Spaces(buf), w, rest);
  }

  lemma ListSpells(start: Bytes, inner: Bytes, items: seq<Value>, rest: Bytes)
    requires start != [] && start[0] == OPEN && start[1..] == inner + rest && SpellsItems(inner, items, true)
    ensures start == [OPEN] + inner + rest && Spells([OPEN] + inner, List([] + items))
  {
    assert ([OPEN] + inner)[1..] == inner && [] + items == items;
    assert start == [start[0]] + start[1..];
  }

  lemma QuotedSpells(start: Bytes, text: Bytes, rest: Bytes)
    requires start != [] && start[0] == QUOTE && Unquote(start[1..]) == Success((text, rest))
    ensures var w := [0x22] + Escape(text) + [0x22]; start == w + rest && Spells(w, Quoted(text))
  {
    UnquotedText(start[1..]);
    UnquoteReadable(start[1..]);
    FirstOne(start, Escape(text), rest);
  }

  lemma SpacesThen(buf: Bytes, n: nat, w: Bytes, rest: Bytes)
    requires n <= |buf| && buf[n..] == w + rest
    ensures buf == buf[..n] + w + rest
  {
    ConcatAssoc(buf[..n], w, rest);
    assert buf == buf[..n] + buf[n..];
  }

  lemma {:induction false} ItemsSpell(buf: Bytes, done: seq<Value>, limit: Option<nat>)
    returns (w: Bytes, items: seq<Value>)
    requires ParseItems(buf, done, limit).Success?
    ensures ParseItems(buf, done, limit).value.0 == List(done + items)
    ensures buf == w + ParseItems(buf, done, limit).value.1 && SpellsItems(w, items, done == [])
    decreases |buf|, 2
  {
    var n := Spaces(buf);
    if n < |buf| && buf[n] == CLOSE {
      w, items := buf[..n + 1], [];
      assert done + items == done && w[..n] == buf[..n];
    } else {
      var (item, after) := ParseValue(buf, limit).value;
      var t := ReadSpells(buf, limit);
      var w', items' := ItemsSpell(after, done + [item], limit);
      w, items := buf[..n] + t + w', [item] + items';
      ConcatAssoc(done, [item], items');
      ConcatAssoc(buf[..n] + t, w', ParseItems(buf, done, limit).value.1);
      ItemFirst(buf[..n], t, w', item, items', done == []);
    }
  }

  lemma ItemFirst(spaces: Bytes, t: Bytes, w': Bytes, item: Value, items: seq<Value>, first: bool)
    requires AllSpaces(spaces) && (first || spaces != []) && Spells(t, item) && SpellsItems(w', items, false)
    ensures SpellsItems(spaces + t + w', [item] + items, first)
  {
    var w, n, k := spaces + t + w', |spaces|, |spaces| + |t|;
    assert w[..n] == spaces && w[n..k] == t && w[k..] == w';
    assert ([item] + items)[1..] == items;
    assert Splits(w, n, k, first);
  }

  // ----- What is spelled so is read

  lemma {:induction false} SpacesBefore(spaces: Bytes, inner: Bytes, limit: Option<nat>)
    requires AllSpaces(spaces) && inner != [] && inner[0] != SPACE
    ensures Spaces(spaces + inner) == |spaces| && ParseValue(spaces + inner, limit) == ParseValue(inner, limit)
  {
    if spaces == [] {
      assert spaces + inner == inner;
      assert Spaces(inner) == 0;
    } else {
      SpacesBefore(spaces[1..], inner, limit);
      assert (spaces + inner)[1..] == spaces[1..] + inner;
      assert (spaces + inner)[|spaces|..] == inner && inner[0..] == inner;
      assert (spaces[1..] + inner)[|spaces| - 1..] == inner;
    }
  }

  lemma {:induction false} SpelledReads(w: Bytes, v: Value, rest: Bytes, limit: Option<nat>)
    requires Spells(w, v) && Fits(v, limit) && Ends(v, rest)
    ensures ParseValue(w + rest, limit) == Success((v, rest))
    decreases v, 1
  {
    match v
    case Quoted(text) =>
      assert w == Print(v);
      ParseQuotedValue(text, rest, limit);
    case List(items) =>
      ItemsRead(w[1..], items, [], rest, limit);
      assert [] + items == items;
      OpenList(w, rest, limit);
    case _ =>
      SpelledToken(w, v);
      ParseToken(w, rest, limit);
  }

  lemma OpenList(w: Bytes, rest: Bytes, limit: Option<nat>)
    requires w != [] && w[0] == OPEN
    ensures ParseValue(w + rest, limit) == ParseItems(w[1..] + rest, [], limit)
  {
    var buf := w + rest;
    assert buf[1..] == w[1..] + rest;
    assert Spaces(buf) == 0 && buf[0..] == buf && AtomRun(buf) == 0;
  }

  lemma {:induction false} ItemsRead(w: Bytes, items: seq<Value>, done: seq<Value>, rest: Bytes, limit: Option<nat>)
    requires SpellsItems(w, items, done == []) && InLimit(|done| + |items|, limit)
    requires forall i :: 0 <= i < |items| ==> Fits(items[i], limit)
    ensures ParseItems(w + rest, done, limit) == Success((List(done + items), rest))
    decreases items, 0
  {
    if items == [] {
      CloseList(w, done, rest, limit);
      assert done + items == done;
    } else {
      var n: nat, k: nat :|
        Splits(w, n, k, done == []) && Spells(w[n..k], items[0]) && SpellsItems(w[k..], items[1..], false);
      SpelledAfter(w[k..], items[1..], rest, items[0]);
      SpelledReads(w[n..k], items[0], w[k..] + rest, limit);
      ItemsRead(w[k..], items[1..], done + [items[0]], rest, limit);
      FirstItem(items, done);
      SpelledStart(w[n..k], items[0]);
      ItemRead(w[..n], w[n..k], w[k..], items[0], done, rest, limit);
      Pieces(w, n, k);
    }
  }

  lemma Pieces(w: Bytes, n: nat, k: nat)
    requires n <= k <= |w|
    ensures w[..n] + w[n..k] + w[k..] == w
  {
  }

  lemma CloseList(w: Bytes, done: seq<Value>, rest: Bytes, limit: Option<nat>)
    requires w != [] && AllSpaces(w[..|w| - 1]) && w[|w| - 1] == CLOSE
    ensures ParseItems(w + rest, done, limit) == Success((List(done), rest))
  {
    var spaces, inner := w[..|w| - 1], [CLOSE] + rest;
    assert w + rest == spaces + inner;
    SpacesBefore(spaces, inner, limit);
    assert (w + rest)[|w|..] == rest;
  }

  /** After an item comes a space or the closing parenthesis, so the item ends there. */
  lemma SpelledAfter(w: Bytes, items: seq<Value>, rest: Bytes, item: Value)
    requires SpellsItems(w, items, false)
    ensures Ends(item, w + rest)
  {
    if items == [] {
      assert (w + rest)[0] == w[0];
      assert |w| > 1 ==> w[0] == w[..|w| - 1][0];
    } else {
      var n: nat, k: nat :|
        Splits(w, n, k, false) && Spells(w[n..k], items[0]) && SpellsItems(w[k..], items[1..], false);
      assert (w + rest)[0] == w[..n][0];
    }
  }

  lemma ItemRead(
    spaces: Bytes, t: Bytes, tail: Bytes, item: Value, done: seq<Value>, rest: Bytes, limit: Option<nat>)
    requires AllSpaces(spaces) && (done == [] || spaces != []) && InLimit(|done| + 1, limit)
    requires t != [] && t[0] != SPACE && t[0] != CLOSE
    requires ParseValue(t + (tail + rest), limit) == Success((item, tail + rest))
    ensures ParseItems(spaces + t + tail + rest, done, limit) == ParseItems(tail + rest, done + [item], limit)
  {
    var inner := t + (tail + rest);
    assert inner[0] == t[0];
    assert spaces + t + tail + rest == spaces + inner;
    NextItem(spaces, inner, item, tail + rest, done, limit);
  }

  lemma NextItem(spaces: Bytes, inner: Bytes, item: Value, after: Bytes, done: seq<Value>, limit: Option<nat>)
    requires AllSpaces(spaces) && (done == [] || spaces != []) && InLimit(|done| + 1, limit)
    requires inner != [] && inner[0] != SPACE && inner[0] != CLOSE
    requires ParseValue(inner, limit) == Success((item, after))
    ensures ParseItems(spaces + inner, done, limit) == ParseItems(after, done + [item], limit)
  {
    SpacesBefore(spaces, inner, limit);
    assert (spaces + inner)[|spaces|] == inner[0];
  }

  /** The buffer is spaces, a text of the value, and the rest. */
  ghost predicate Derives(buf: Bytes, v: Value, rest: Bytes) {
    exists spaces, w :: buf == spaces + w + rest && AllSpaces(spaces) && Spells(w, v)
  }

  lemma ReadDerives(buf: Bytes, limit: Option<nat>)
    requires ParseValue(buf, limit).Success?
    ensures var (v, rest) := ParseValue(buf, limit).value; Derives(buf, v, rest) && Ends(v, rest) && Fits(v, limit)
  {
    ReadIsReadable(buf, limit);
    var w := ReadSpells(buf, limit);
    assert AllSpaces(buf[..Spaces(buf)]);
  }

  lemma DerivedReads(spaces: Bytes, w: Bytes, v: Value, rest: Bytes, limit: Option<nat>)
    requires AllSpaces(spaces) && Spells(w, v) && Fits(v, limit) && Ends(v, rest)
    ensures ParseValue(spaces + w + rest, limit) == Success((v, rest))
  {
    SpelledReads(w, v, rest, limit);
    SpelledStart(w, v);
    assert (w + rest)[0] == w[0];
    SpacesBefore(spaces, w + rest, limit);
    assert spaces + w + rest == spaces + (w + rest);
  }

  /** A value is read, with the rest left alone, exactly from its texts after any spaces, if its lists are
      within the limit and what follows does not run into it. */
  lemma ReadExactly(buf: Bytes, v: Value, rest: Bytes, limit: Option<nat>)
    ensures ParseValue(buf, limit) == Success((v, rest)) <==>
            Derives(buf, v, rest) && Fits(v, limit) && Ends(v, rest)
  {
    if ParseValue(buf, limit).Success? {
      ReadDerives(buf, limit);
    }
    if Derives(buf, v, rest) && Fits(v, limit) && Ends(v, rest) {
      var spaces, w :| buf == spaces + w + rest && AllSpaces(spaces) && Spells(w, v);
      DerivedReads(spaces, w, v, rest, limit);
    }
  }
}
