/** Exactly when the FETCH responses of an answer may be merged, whatever they report. */
module MergeExact {
  import opened Collections
  import opened ResponseMerge

  /** The same responses for the same numbers; only what the FETCH responses report may differ. */
  ghost predicate SameNumbers(list: seq<Untagged>, other: seq<Untagged>) {
    |list| == |other| && forall i :: 0 <= i < |list| ==> SameNumber(list[i], other[i])
  }

  ghost predicate SameNumber(r: Untagged, other: Untagged) {
    if r.Fetch? then IsFetch(other, r.number) else other == r
  }

  /** Merging makes no difference to any client. */
  ghost predicate MergesWell(list: seq<Untagged>) {
    forall initial: nat -> Attributes, n: nat :: Held(initial, MergeAll([], list), n) == Held(initial, list, n)
  }

  /** Once a FETCH has followed an EXPUNGE, no other EXPUNGE comes. */
  ghost predicate ExpungesTogether(list: seq<Untagged>) {
    forall i, j, k :: 0 <= i < j < k < |list| && list[i].Expunge? && list[j].Fetch? ==> !list[k].Expunge?
  }

  lemma SafeByNumbers(list: seq<Untagged>, other: seq<Untagged>)
    requires Safe(list) && SameNumbers(list, other)
    ensures Safe(other)
  {
    forall i, k, j |
        0 <= i < k < j < |other| && other[i].Fetch? && IsFetch(other[j], other[i].number) && other[k].Expunge?
      ensures other[k].number > other[i].number
    {
      assert SameNumber(list[i], other[i]) && SameNumber(list[k], other[k]) && SameNumber(list[j], other[j]);
    }
  }

  lemma SafeMergesWell(list: seq<Untagged>)
    requires Safe(list)
    ensures MergesWell(list)
  {
    forall initial: nat -> Attributes, n: nat
      ensures Held(initial, MergeAll([], list), n) == Held(initial, list, n)
    {
      MergingIsSound(initial, list, n);
    }
  }

  // ----- Following one attribute

  const MARK: Attributes := map[0 := 1]

  /** The list with every FETCH reporting nothing, but the one at `j`. */
  ghost function Muted(list: seq<Untagged>, j: nat): seq<Untagged> {
    seq(|list|, i requires 0 <= i < |list| =>
      if list[i].Fetch? then Fetch(list[i].number, if i == j then MARK else map[]) else list[i])
  }

  ghost predicate Silent(list: seq<Untagged>) {
    forall i :: 0 <= i < |list| && list[i].Fetch? ==> list[i].data == map[]
  }

  /** Only FETCH responses for `number` report anything. */
  ghost predicate SilentBut(list: seq<Untagged>, number: nat) {
    forall i :: 0 <= i < |list| && list[i].Fetch? && list[i].number != number ==> list[i].data == map[]
  }

  lemma {:induction false} SilentHolds(list: seq<Untagged>, n: nat)
    requires Silent(list)
    ensures Held(Nothing, list, n) == map[]
    decreases |list|
  {
    if list != [] {
      var before, last := list[..|list| - 1], list[|list| - 1];
      SilentHolds(before, n);
      if last.Expunge? {
        SilentHolds(before, if n < last.number then n else n + 1);
      }
    }
  }

  lemma SilentParts(list: seq<Untagged>, r: Untagged)
    requires Silent(list + [r])
    ensures Silent(list) && (r.Fetch? ==> r.data == map[])
  {
    assert (list + [r])[|list|] == r;
    assert forall i :: 0 <= i < |list| ==> (list + [r])[i] == list[i];
  }

  /** Without a later EXPUNGE, the attribute reported at `j` is held for its number. */
  lemma {:induction false} MarkHeld(list: seq<Untagged>, j: nat)
    requires j < |list| && list[j].Fetch? && list[j].data == MARK && Silent(list[..j]) && Silent(list[j + 1..])
    requires forall k :: j < k < |list| ==> !list[k].Expunge?
    ensures Held(Nothing, list, list[j].number) == MARK
    decreases |list|
  {
    var before, last := list[..|list| - 1], list[|list| - 1];
    if j == |list| - 1 {
      SilentHolds(before, last.number);
    } else {
      assert before[..j] == list[..j];
      assert list[j + 1..] == before[j + 1..] + [last];
      SilentParts(before[j + 1..], last);
      MarkHeld(before, j);
    }
  }

  /** A number above the only one that is reported for is held nothing for: going back in time
      numbers only grow. */
  lemma {:induction false} NothingAbove(list: seq<Untagged>, number: nat, n: nat)
    requires SilentBut(list, number) && number < n
    ensures Held(Nothing, list, n) == map[]
    decreases |list|
  {
    if list != [] {
      var before, last := list[..|list| - 1], list[|list| - 1];
      NothingAbove(before, number, if last.Expunge? && last.number <= n then n + 1 else n);
    }
  }

  /** The only FETCH for the number came before an EXPUNGE that took its line away. */
  lemma {:induction false} PassedHoldsNothing(list: seq<Untagged>, number: nat, expunged: nat, n: nat)
    requires SilentBut(list, number) && OneFetchEach(list) && Passed(list, number, expunged)
    requires expunged <= number <= n
    ensures Held(Nothing, list, n) == map[]
    decreases |list|
  {
    var i, k :| 0 <= i < k < |list| && IsFetch(list[i], number) && list[k] == Expunge(expunged);
    var before, last := list[..|list| - 1], list[|list| - 1];
    var earlier := if last.Expunge? && last.number <= n then n + 1 else n;
    if k == |list| - 1 {
      NothingAbove(before, number, earlier);
    } else {
      assert IsFetch(before[i], number) && before[k] == Expunge(expunged);
      assert !IsFetch(last, number);
      PassedHoldsNothing(before, number, expunged, earlier);
    }
  }

  // ----- The merge keeps both

  lemma {:induction false} StillSilent(list: seq<Untagged>, number: nat)
    requires SilentBut(list, number)
    ensures SilentBut(MergeAll([], list), number)
    decreases |list|
  {
    if list != [] {
      StillSilent(list[..|list| - 1], number);
      MergeLast(list);
      AddOneSilent(MergeAll([], list[..|list| - 1]), list[|list| - 1], number);
    }
  }

  lemma AddOneSilent(list: seq<Untagged>, r: Untagged, number: nat)
    requires SilentBut(list, number) && (r.Fetch? && r.number != number ==> r.data == map[])
    ensures SilentBut(AddOne(list, r), number)
  {
  }

  /** A FETCH that an EXPUNGE has passed stays passed. */
  lemma {:induction false} StillPassed(list: seq<Untagged>, number: nat, expunged: nat)
    requires Passed(list, number, expunged)
    ensures Passed(MergeAll([], list), number, expunged)
    decreases |list|
  {
    var before, last := list[..|list| - 1], list[|list| - 1];
    MergeLast(list);
    FetchKnown(before, number);
    LastPassed(list, number, expunged);
    if Passed(before, number, expunged) {
      StillPassed(before, number, expunged);
      AddOnePassed(MergeAll([], before), last, number, expunged);
    } else {
      ExpungePasses(MergeAll([], before), number, expunged);
    }
  }

  lemma LastPassed(list: seq<Untagged>, number: nat, expunged: nat)
    requires Passed(list, number, expunged)
    ensures Passed(list[..|list| - 1], number, expunged) ||
            (list[|list| - 1] == Expunge(expunged) && FetchIndex(list[..|list| - 1], number).Some?)
  {
    var before := list[..|list| - 1];
    var i, k :| 0 <= i < k < |list| && IsFetch(list[i], number) && list[k] == Expunge(expunged);
    assert IsFetch(before[i], number) && (k < |before| ==> before[k] == Expunge(expunged));
  }

  lemma ExpungePasses(list: seq<Untagged>, number: nat, expunged: nat)
    requires FetchIndex(list, number).Some?
    ensures Passed(AddOne(list, Expunge(expunged)), number, expunged)
  {
    var more := AddOne(list, Expunge(expunged));
    assert IsFetch(more[FetchIndex(list, number).value], number) && more[|list|] == Expunge(expunged);
  }

  lemma AddOnePassed(list: seq<Untagged>, r: Untagged, number: nat, expunged: nat)
    requires Passed(list, number, expunged)
    ensures Passed(AddOne(list, r), number, expunged)
  {
    var i, k :| 0 <= i < k < |list| && IsFetch(list[i], number) && list[k] == Expunge(expunged);
    assert IsFetch(AddOne(list, r)[i], number) && AddOne(list, r)[k] == Expunge(expunged);
  }

  /** An EXPUNGE between two FETCH responses that moves their number makes a client that gets them
      merged miss what the second one reports. */
  lemma UnsafeLoses(list: seq<Untagged>, i: nat, k: nat, j: nat)
    requires i < k < j < |list| && list[i].Fetch? && IsFetch(list[j], list[i].number)
    requires list[k].Expunge? && list[k].number <= list[i].number
    requires forall l :: j < l < |list| ==> !list[l].Expunge?
    ensures SameNumbers(list, Muted(list, j))
    ensures var n, other := list[j].number, Muted(list, j);
            Held(Nothing, other, n) == MARK && Held(Nothing, MergeAll([], other), n) == map[]
  {
    var n, other := list[j].number, Muted(list, j);
    MarkHeld(other, j);
    assert IsFetch(other[i], n) && other[k] == Expunge(list[k].number);
    StillPassed(other, n, list[k].number);
    StillSilent(other, n);
    FetchKnown(other, n);
    PassedHoldsNothing(MergeAll([], other), n, list[k].number, n);
  }

  lemma UnsafeFails(list: seq<Untagged>) returns (other: seq<Untagged>)
    requires ExpungesTogether(list) && !Safe(list)
    ensures SameNumbers(list, other) && !MergesWell(other)
  {
    var i, k, j :| 0 <= i < k < j < |list| && list[i].Fetch? && IsFetch(list[j], list[i].number) && list[k].Expunge?
                   && list[k].number <= list[i].number;
    other := Muted(list, j);
    UnsafeLoses(list, i, k, j);
    LosesNotWell(other, list[j].number);
  }

  lemma LosesNotWell(list: seq<Untagged>, n: nat)
    requires Held(Nothing, list, n) == MARK && Held(Nothing, MergeAll([], list), n) == map[]
    ensures !MergesWell(list)
  {
    assert 0 in MARK;
    assert Held(Nothing, MergeAll([], list), n) != Held(Nothing, list, n);
  }

  /** Merging is sound for these numbers, whatever is reported, exactly if no EXPUNGE moves a number
      between two FETCH responses for it. */
  lemma MergingExact(list: seq<Untagged>)
    requires ExpungesTogether(list)
    ensures Safe(list) <==> forall other :: SameNumbers(list, other) ==> MergesWell(other)
  {
    if Safe(list) {
      forall other | SameNumbers(list, other) ensures MergesWell(other) {
        SafeByNumbers(list, other);
        SafeMergesWell(other);
      }
    } else {
      var other := UnsafeFails(list);
    }
  }
}
