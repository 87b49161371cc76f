/** When the decoder of mailbox names makes no progress. */
module NameProgress {
  import opened Collections
  import opened Wire
  import opened Utf7
  import opened ModUtf7
  import NameBlanks
  import NameRoundTrip

  /** An ampersand that something follows, but no dash. */
  predicate Unclosed(w: Bytes, i: nat) {
    i + 1 < |w| && w[i] == AMPERSAND && forall k :: i < k < |w| ==> w[k] != DASH
  }

  lemma UnclosedMore(w: Bytes, rest: Bytes, n: nat, i: nat)
    requires n <= |w| && rest == w[n..]
    ensures Unclosed(rest, i) <==> Unclosed(w, n + i)
  {
    assert forall k :: n <= k < |w| ==> w[k] == rest[k - n];
  }

  // ----- The first step of the decoder

  /** A lone ampersand at the end, or one that no dash follows. */
  predicate Stuck(w: Bytes) {
    w != [] && w[0] == AMPERSAND && DashAt(w[1..]) == |w| - 1
  }

  /** How many bytes the first step takes. */
  function StepSize(w: Bytes): nat
    requires w != [] && !Stuck(w)
  {
    if w[0] != AMPERSAND then 1 else DashAt(w[1..]) + 2
  }

  /** What the first step reads, unless it fails. */
  function StepText(w: Bytes): Option<Text>
    requires w != [] && !Stuck(w)
  {
    if w[0] != AMPERSAND then Some([w[0]])
    else if w[1] == DASH then Some([AMPERSAND])
    else B64Decode(w[1..][..DashAt(w[1..])])
  }

  lemma StepWithin(w: Bytes)
    requires w != [] && !Stuck(w)
    ensures 0 < StepSize(w) <= |w|
    ensures StepSize(w) == 1 ==> w[0] != AMPERSAND
    ensures StepSize(w) > 1 ==> w[0] == AMPERSAND && w[StepSize(w) - 1] == DASH
  {
  }

  lemma StepReads(w: Bytes)
    requires w != [] && !Stuck(w)
    ensures StepSize(w) <= |w|
    ensures Decoded(w) == if StepText(w).None? then Invalid else After(StepText(w).value, Decoded(w[StepSize(w)..]))
  {
    if w[0] == AMPERSAND && w[1] != DASH {
      var n := DashAt(w[1..]);
      assert w[1..][n + 1..] == w[n + 2..];
    }
  }

  /** The bytes after the first step do not matter to it. */
  lemma StepOfPrefix(w: Bytes, k: nat)
    requires w != [] && !Stuck(w) && StepSize(w) <= k <= |w|
    ensures w[..k] != [] && !Stuck(w[..k]) && StepSize(w[..k]) == StepSize(w) && StepText(w[..k]) == StepText(w)
    ensures w[..k][StepSize(w)..] == w[StepSize(w)..][..k - StepSize(w)]
  {
    if w[0] == AMPERSAND {
      var n := DashAt(w[1..]);
      assert w[..k][1..] == w[1..][..k - 1];
      DashIs(w[..k][1..], n);
      assert w[..k][1..][..n] == w[1..][..n];
    }
  }

  lemma StuckReads(w: Bytes)
    requires Stuck(w)
    ensures if |w| == 1 then Decoded(w) != Diverges else Decoded(w) == Diverges && Unclosed(w, 0)
  {
    assert forall k :: 0 < k < |w| ==> w[k] == w[1..][k - 1];
  }

  // ----- Exactly when

  /** An unclosed ampersand that the decoder comes to. */
  predicate StopsAt(w: Bytes, i: nat) {
    Unclosed(w, i) && Decoded(w[..i]).Read?
  }

  lemma StopsLater(w: Bytes, i: nat)
    requires w != [] && !Stuck(w) && StepText(w).Some? && StepSize(w) <= |w|
    requires StepSize(w) <= i <= |w|
    ensures StopsAt(w, i) <==> StopsAt(w[StepSize(w)..], i - StepSize(w))
  {
    var n := StepSize(w);
    UnclosedMore(w, w[n..], n, i - n);
    StepOfPrefix(w, i);
    StepReads(w[..i]);
  }

  lemma {:induction false} DivergesAt(w: Bytes) returns (i: nat)
    requires Decoded(w) == Diverges
    ensures StopsAt(w, i)
    decreases |w|
  {
    if Stuck(w) {
      StuckReads(w);
      assert w[..0] == [];
      i := 0;
    } else {
      StepWithin(w);
      StepReads(w);
      i := DivergesAt(w[StepSize(w)..]);
      StopsLater(w, i + StepSize(w));
      i := i + StepSize(w);
    }
  }

  lemma {:induction false} StopDiverges(w: Bytes, i: nat)
    requires StopsAt(w, i)
    ensures Decoded(w) == Diverges
    decreases |w|
  {
    if Stuck(w) {
      StuckReads(w);
    } else {
      StepWithin(w);
      assert StepSize(w) <= i;
      StepOfPrefix(w, i);
      StepReads(w[..i]);
      StopsLater(w, i);
      StopDiverges(w[StepSize(w)..], i - StepSize(w));
      StepReads(w);
    }
  }

  /** The decoder makes no progress exactly if it reads everything before some ampersand that
      something follows, but no dash. */
  lemma DivergesExactly(w: Bytes)
    ensures Decoded(w) == Diverges <==> exists i: nat :: StopsAt(w, i)
  {
    if Decoded(w) == Diverges {
      var i := DivergesAt(w);
    }
    if i: nat :| StopsAt(w, i) {
      StopDiverges(w, i);
    }
  }

  /** One letter is no UTF-16 unit. */
  lemma LoneLetter()
    ensures B64Decode([0x61]) == None
  {
    var w: Bytes := [0x61];
    NameRoundTrip.B64DecodeIs(w);
    assert Replace(w, COMMA, SLASH) == w;
    NameBlanks.TooLong(w);
    DecodeSection(w, [DASH]);
  }

  /** The loop never ends on `&a`; after bytes that are not decoded it is not reached. */
  lemma Hangs()
    ensures Decoded([AMPERSAND, 0x61]) == Diverges
    ensures Decoded([AMPERSAND, 0x61, DASH] + [AMPERSAND, 0x61]) == Invalid
  {
    var w: Bytes := [AMPERSAND, 0x61];
    assert w[..0] == [];
    assert StopsAt(w, 0);
    StopDiverges(w, 0);
    var v: Bytes := [AMPERSAND, 0x61, DASH] + [AMPERSAND, 0x61];
    DashIs(v[1..], 1);
    assert v[1..][..1] == [0x61];
    LoneLetter();
    StepReads(v);
  }

  /** With an unclosed ampersand, nothing is ever read. */
  lemma {:induction false} UnclosedNotRead(w: Bytes, i: nat)
    requires Unclosed(w, i)
    ensures !Decoded(w).Read?
    decreases |w|
  {
    if Stuck(w) {
      StuckReads(w);
    } else {
      StepWithin(w);
      StepReads(w);
      var n := StepSize(w);
      UnclosedMore(w, w[n..], n, i - n);
      UnclosedNotRead(w[n..], i - n);
    }
  }
}
