/** Modified UTF-7, the encoding of mailbox names in section 5.1.3 of RFC 3501. */
module ModUtf7 {
  import opened Collections
  import opened Wire
  import opened Utf7

  const AMPERSAND: Byte := 0x26
  const COMMA: Byte := 0x2c

  function Replace(w: Bytes, before: Byte, after: Byte): (r: Bytes)
    ensures |r| == |w|
    ensures forall i :: 0 <= i < |w| ==> r[i] == if w[i] == before then after else w[i]
  {
    seq(|w|, i requires 0 <= i < |w| => if w[i] == before then after else w[i])
  }

  /** Python's slice `[1:-1]`. */
  function Strip(w: Bytes): Bytes {
    if |w| < 2 then [] else w[1..|w| - 1]
  }

  function B64Encode(run: Text): Bytes {
    Replace(Strip(Encode(run)), SLASH, COMMA)
  }

  function B64Decode(w: Bytes): Option<Text> {
    Decode([PLUS] + Replace(w, COMMA, SLASH) + [DASH])
  }

  /** How many characters the text begins with before the first printable one. */
  function HiddenRun(s: Text): (n: nat)
    ensures n <= |s|
    ensures forall i :: 0 <= i < n ==> !Printable(s[i])
    ensures n < |s| ==> Printable(s[n])
  {
    if s == [] || Printable(s[0]) then 0 else 1 + HiddenRun(s[1..])
  }

  function Shifted(run: Text): Bytes {
    [AMPERSAND] + B64Encode(run) + [DASH]
  }

  function Direct(c: int): Bytes
    requires Printable(c)
  {
    if c == AMPERSAND then [AMPERSAND, DASH] else [c]
  }

  function ThenRaw(run: Text, c: int): Bytes
    requires Printable(c)
  {
    Shifted(run) + [c]
  }

  /** The encoded name. The character after a run is written as it is, even an ampersand. */
  function Encoded(s: Text): Bytes
    decreases |s|, 1
  {
    if s == [] then []
    else if Printable(s[0]) then Direct(s[0]) + Encoded(s[1..])
    else EncodedShift(s, HiddenRun(s))
  }

  function EncodedShift(s: Text, n: nat): Bytes
    requires 0 < n <= |s| && (n < |s| ==> Printable(s[n]))
    decreases |s|, 0
  {
    if n == |s| then Shifted(s) else ThenRaw(s[..n], s[n]) + Encoded(s[n + 1..])
  }

  /** What has been written, and what is to come for the text from `start` on. */
  ghost function Whole(data: Text, ret: Bytes, start: nat): Bytes
    requires start <= |data|
  {
    ret + Encoded(data[start..])
  }

  method Modutf7Encode(data: Text) returns (ret: Bytes)
    ensures ret == Encoded(data)
  {
    ret := [];
    var isUsascii, encodeStart := true, 0;
    ghost var start, all := 0, Whole(data, [], 0);
    for i := 0 to |data|
      invariant start == if isUsascii then i else encodeStart
      invariant !isUsascii ==> encodeStart < i && AllHidden(data, encodeStart, i)
      invariant Whole(data, ret, start) == all
    {
      var symbol := data[i];
      if isUsascii && Printable(symbol) {
        PrintableStep(data, ret, i);
        ret := ret + Direct(symbol);
        start := i + 1;
      } else if isUsascii {
        encodeStart, isUsascii := i, false;
      } else if Printable(symbol) {
        var piece := ThenRaw(data[encodeStart..i], symbol);
        RunStep(data, ret, encodeStart, i, piece);
        ret := ret + piece;
        isUsascii, start := true, i + 1;
      } else {
        AllHiddenMore(data, encodeStart, i);
      }
    }
    if !isUsascii {
      LastRunStep(data, ret, encodeStart);
      ret := ret + Shifted(data[encodeStart..]);
    }
    WholeStart(data);
    WholeEnd(data, ret);
  }

  predicate AllHidden(s: Text, start: nat, end: nat)
    requires start <= end <= |s|
  {
    forall k :: start <= k < end ==> !Printable(s[k])
  }

  lemma AllHiddenMore(s: Text, start: nat, end: nat)
    requires start <= end < |s| && AllHidden(s, start, end) && !Printable(s[end])
    ensures AllHidden(s, start, end + 1)
  {
  }

  lemma WholeStart(data: Text)
    ensures Whole(data, [], 0) == Encoded(data)
  {
    assert data[0..] == data;
  }

  lemma WholeEnd(data: Text, ret: Bytes)
    ensures Whole(data, ret, |data|) == ret
  {
    assert data[|data|..] == [];
    assert ret + [] == ret;
  }

  lemma WholeStep(data: Text, ret: Bytes, start: nat, piece: Bytes, end: nat)
    requires start <= |data| && end <= |data|
    requires Encoded(data[start..]) == piece + Encoded(data[end..])
    ensures Whole(data, ret + piece, end) == Whole(data, ret, start)
  {
    ConcatAssoc(ret, piece, Encoded(data[end..]));
  }

  lemma PrintableStep(data: Text, ret: Bytes, i: nat)
    requires i < |data| && Printable(data[i])
    ensures Whole(data, ret + Direct(data[i]), i + 1) == Whole(data, ret, i)
  {
    EncodedPrintable(data, i);
    WholeStep(data, ret, i, Direct(data[i]), i + 1);
  }

  lemma RunStep(data: Text, ret: Bytes, start: nat, i: nat, piece: Bytes)
    requires start < i < |data| && AllHidden(data, start, i)
    requires Printable(data[i]) && piece == ThenRaw(data[start..i], data[i])
    ensures Whole(data, ret + piece, i + 1) == Whole(data, ret, start)
  {
    var total, rest := Encoded(data[start..]), Encoded(data[i + 1..]);
    EncodedRun(data, start, i, piece, total, rest);
    ConcatAssoc(ret, piece, rest);
  }

  lemma LastRunStep(data: Text, ret: Bytes, start: nat)
    requires start < |data| && AllHidden(data, start, |data|)
    ensures Whole(data, ret + Shifted(data[start..]), |data|) == Whole(data, ret, start)
  {
    HiddenRunIs(data[start..], |data| - start);
    assert data[|data|..] == [];
    assert Shifted(data[start..]) + [] == Shifted(data[start..]);
    WholeStep(data, ret, start, Shifted(data[start..]), |data|);
  }

  lemma EncodedPrintable(s: Text, i: nat)
    requires i < |s| && Printable(s[i])
    ensures Encoded(s[i..]) == Direct(s[i]) + Encoded(s[i + 1..])
  {
    assert s[i..][1..] == s[i + 1..];
  }

  lemma {:induction false} HiddenRunIs(s: Text, n: nat)
    requires n <= |s| && (forall k :: 0 <= k < n ==> !Printable(s[k])) && (n < |s| ==> Printable(s[n]))
    ensures HiddenRun(s) == n
  {
    if n > 0 {
      HiddenRunIs(s[1..], n - 1);
    }
  }

  lemma EncodedRun(s: Text, start: nat, i: nat, piece: Bytes, total: Bytes, rest: Bytes)
    requires start < i < |s| && AllHidden(s, start, i)
    requires Printable(s[i]) && piece == ThenRaw(s[start..i], s[i])
    requires total == Encoded(s[start..]) && rest == Encoded(s[i + 1..])
    ensures total == piece + rest
  {
    var run, n := s[start..], i - start;
    HiddenRunIs(run, n);
    assert run[..n] == s[start..i] && run[n + 1..] == s[i + 1..];
  }

  // ----- Reading

  /** A text, the decoding error, or a loop that makes no progress. */
  datatype Reading = Read(text: Text) | Invalid | Diverges

  function After(prefix: Text, rest: Reading): Reading {
    match rest
    case Read(text) => Read(prefix + text)
    case _ => rest
  }

  /** Where the first dash is, or the length. */
  function DashAt(w: Bytes): (n: nat)
    ensures n <= |w|
    ensures forall i :: 0 <= i < n ==> w[i] != DASH
    ensures n < |w| ==> w[n] == DASH
  {
    if w == [] || w[0] == DASH then 0 else 1 + DashAt(w[1..])
  }

  function Decoded(w: Bytes): Reading
    decreases |w|
  {
    if w == [] then Read([])
    else if w[0] == AMPERSAND then
      if |w| > 1 && w[1] == DASH then After([AMPERSAND], Decoded(w[2..])) else DecodedShift(w[1..])
    else After([w[0]], Decoded(w[1..]))
  }

  /** The reading after an ampersand: up to the next dash, which has to be there unless nothing is. */
  function DecodedShift(w: Bytes): Reading
    decreases |w|
  {
    var n := DashAt(w);
    if w != [] && n == |w| then Diverges
    else
      match B64Decode(w[..n])
      case None => Invalid
      case Some(text) => if w == [] then Read(text) else After(text, Decoded(w[n + 1..]))
  }

  /** `parts` has been read, and the rest is in `buf`. */
  ghost predicate Remains(data: Bytes, parts: Text, isUsascii: bool, buf: Bytes) {
    Decoded(data) == After(parts, if isUsascii then Decoded(buf) else DecodedShift(buf))
  }

  method Modutf7Decode(data: Bytes) returns (r: Reading)
    ensures r == Decoded(data)
  {
    var parts: Text := [];
    var isUsascii, buf := true, data;
    AfterNothing(Decoded(data));
    while buf != []
      invariant Remains(data, parts, isUsascii, buf)
      decreases |buf|
    {
      if isUsascii {
        ReadAscii(data, parts, buf);
        if |buf| > 1 && buf[0] == AMPERSAND && buf[1] == DASH {
          parts := parts + [AMPERSAND];
          buf := buf[2..];
        } else if buf[0] == AMPERSAND {
          isUsascii := false;
          buf := buf[1..];
        } else {
          parts := parts + [buf[0]];
          buf := buf[1..];
        }
      } else {
        var i := 0;
        while i < |buf| && buf[i] != DASH
          invariant 0 <= i <= |buf| && forall k :: 0 <= k < i ==> buf[k] != DASH
        {
          i := i + 1;
        }
        DashIs(buf, i);
        ReadShift(data, parts, buf);
        if i == |buf| {
          return Diverges;
        }
        var decoded := B64Decode(buf[..i]);
        if decoded.None? {
          return Invalid;
        }
        parts := parts + decoded.value;
        buf := buf[i + 1..];
        isUsascii := true;
      }
    }
    ReadEnd(data, parts, isUsascii);
    if !isUsascii {
      var decoded := B64Decode([]);
      if decoded.None? {
        return Invalid;
      }
      parts := parts + decoded.value;
    }
    r := Read(parts);
  }

  lemma ReadEnd(data: Bytes, parts: Text, isUsascii: bool)
    requires Remains(data, parts, isUsascii, [])
    ensures isUsascii ==> Decoded(data) == Read(parts)
    ensures !isUsascii && B64Decode([]).None? ==> Decoded(data) == Invalid
    ensures !isUsascii && B64Decode([]).Some? ==> Decoded(data) == Read(parts + B64Decode([]).value)
  {
    assert parts + [] == parts;
    var none: Bytes := [];
    assert none[..DashAt(none)] == none;
  }

  lemma ReadAscii(data: Bytes, parts: Text, buf: Bytes)
    requires buf != [] && Remains(data, parts, true, buf)
    ensures if |buf| > 1 && buf[0] == AMPERSAND && buf[1] == DASH then
              Remains(data, parts + [AMPERSAND], true, buf[2..])
            else if buf[0] == AMPERSAND then Remains(data, parts, false, buf[1..])
            else Remains(data, parts + [buf[0]], true, buf[1..])
  {
    if |buf| > 1 {
      AfterAfter(parts, [AMPERSAND], Decoded(buf[2..]));
    }
    AfterAfter(parts, [buf[0]], Decoded(buf[1..]));
  }

  lemma ReadShift(data: Bytes, parts: Text, buf: Bytes)
    requires buf != [] && Remains(data, parts, false, buf)
    ensures var n := DashAt(buf);
            if n == |buf| then Decoded(data) == Diverges
            else if B64Decode(buf[..n]).None? then Decoded(data) == Invalid
            else Remains(data, parts + B64Decode(buf[..n]).value, true, buf[n + 1..])
  {
    var n := DashAt(buf);
    if n < |buf| && B64Decode(buf[..n]).Some? {
      AfterAfter(parts, B64Decode(buf[..n]).value, Decoded(buf[n + 1..]));
    }
  }

  lemma AfterNothing(rest: Reading)
    ensures After([], rest) == rest
  {
    if rest.Read? {
      assert [] + rest.text == rest.text;
    }
  }

  lemma AfterAfter(a: Text, b: Text, rest: Reading)
    ensures After(a, After(b, rest)) == After(a + b, rest)
  {
    if rest.Read? {
      assert a + (b + rest.text) == a + b + rest.text;
    }
  }

  lemma {:induction false} DashIs(w: Bytes, n: nat)
    requires n <= |w| && (forall k :: 0 <= k < n ==> w[k] != DASH) && (n < |w| ==> w[n] == DASH)
    ensures DashAt(w) == n
  {
    if n > 0 {
      DashIs(w[1..], n - 1);
    }
  }
}
