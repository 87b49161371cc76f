/** Untagged responses before the end of a command: FETCH responses for the same number are merged. */
module ResponseMerge {
  import opened Collections

  type Attributes = map<int, int>

  datatype Untagged = Fetch(number: nat, data: Attributes) | Expunge(number: nat) | Other(text: int)

  predicate IsFetch(r: Untagged, number: nat) {
    r.Fetch? && r.number == number
  }

  /** Where the first FETCH for the number is. */
  function FetchIndex(list: seq<Untagged>, number: nat): (i: Option<nat>)
    ensures i.Some? ==> i.value < |list| && IsFetch(list[i.value], number)
    ensures i.Some? ==> forall k :: 0 <= k < i.value ==> !IsFetch(list[k], number)
    ensures i.None? ==> forall k :: 0 <= k < |list| ==> !IsFetch(list[k], number)
  {
    if list == [] then None
    else if IsFetch(list[0], number) then Some(0)
    else
      match FetchIndex(list[1..], number)
      case None => None
      case Some(i) =>
        assert list[1..][i] == list[i + 1];
        Some(i + 1)
  }

  /** Later attributes take the place of earlier ones of the same name. */
  function MergeFetch(r: Untagged, other: Untagged): Untagged
    requires r.Fetch? && other.Fetch? && r.number == other.number
  {
    Fetch(r.number, r.data + other.data)
  }

  function AddOne(list: seq<Untagged>, r: Untagged): seq<Untagged> {
    if r.Fetch? && FetchIndex(list, r.number).Some? then
      var i := FetchIndex(list, r.number).value;
      list[i := MergeFetch(list[i], r)]
    else list + [r]
  }

  function MergeAll(list: seq<Untagged>, responses: seq<Untagged>): seq<Untagged>
    decreases |responses|
  {
    if responses == [] then list else MergeAll(AddOne(list, responses[0]), responses[1..])
  }

  class CommandResponse {
    var untagged: seq<Untagged>
    var mergeable: map<nat, nat>

    /** The index knows the only FETCH for each number. */
    ghost predicate Valid()
      reads this
    {
      && OneFetchEach(untagged)
      && (forall n :: n in mergeable <==> FetchIndex(untagged, n).Some?)
      && (forall n :: n in mergeable ==> mergeable[n] < |untagged| && IsFetch(untagged[mergeable[n]], n))
    }

    constructor ()
      ensures Valid() && untagged == []
    {
      untagged, mergeable := [], map[];
    }

    method AddUntagged(responses: seq<Untagged>)
      requires Valid()
      modifies this
      ensures Valid() && untagged == MergeAll(old(untagged), responses)
    {
      assert responses[0..] == responses;
      for i := 0 to |responses|
        invariant Valid() && MergeAll(untagged, responses[i..]) == MergeAll(old(untagged), responses)
      {
        assert responses[i..][1..] == responses[i + 1..];
        AddResponse(responses[i]);
      }
    }

    method AddResponse(resp: Untagged)
      requires Valid()
      modifies this
      ensures Valid() && untagged == AddOne(old(untagged), resp)
    {
      AddOneKeepsFetches(untagged, resp);
      if resp.Fetch? {
        if resp.number in mergeable {
          var untaggedIdx := mergeable[resp.number];
          untagged := untagged[untaggedIdx := MergeFetch(untagged[untaggedIdx], resp)];
        } else {
          mergeable := mergeable[resp.number := |untagged|];
          untagged := untagged + [resp];
        }
      } else {
        untagged := untagged + [resp];
      }
    }
  }

  ghost predicate OneFetchEach(list: seq<Untagged>) {
    forall i, j :: 0 <= i < j < |list| && list[i].Fetch? ==> !IsFetch(list[j], list[i].number)
  }

  lemma AddOneKeepsFetches(list: seq<Untagged>, r: Untagged)
    requires OneFetchEach(list)
    ensures OneFetchEach(AddOne(list, r))
    ensures forall n :: FetchIndex(AddOne(list, r), n).Some? <==> FetchIndex(list, n).Some? || IsFetch(r, n)
  {
    var more := AddOne(list, r);
    forall n ensures FetchIndex(more, n).Some? <==> FetchIndex(list, n).Some? || IsFetch(r, n) {
      if FetchIndex(list, n).Some? {
        assert IsFetch(more[FetchIndex(list, n).value], n);
      }
      if IsFetch(r, n) && FetchIndex(list, n).None? {
        assert IsFetch(more[|list|], n);
      }
    }
  }

  lemma {:induction false} MergeAllSnoc(list: seq<Untagged>, responses: seq<Untagged>, r: Untagged)
    ensures MergeAll(list, responses + [r]) == AddOne(MergeAll(list, responses), r)
    decreases |responses|
  {
    if responses == [] {
      assert (responses + [r])[1..] == [];
    } else {
      assert (responses + [r])[1..] == responses[1..] + [r];
      MergeAllSnoc(AddOne(list, responses[0]), responses[1..], r);
    }
  }

  lemma MergeLast(list: seq<Untagged>)
    requires list != []
    ensures MergeAll([], list) == AddOne(MergeAll([], list[..|list| - 1]), list[|list| - 1])
  {
    SnocParts(list);
    MergeAllSnoc([], list[..|list| - 1], list[|list| - 1]);
  }

  lemma SnocParts(list: seq<Untagged>)
    requires list != []
    ensures list[..|list| - 1] + [list[|list| - 1]] == list
  {
  }

  // ----- What a client makes of the responses

  /** The attributes a client holds for a number after the responses: an EXPUNGE moves the numbers
      above it down by one. */
  ghost function Held(initial: nat -> Attributes, list: seq<Untagged>, number: nat): Attributes
    decreases |list|
  {
    if list == [] then initial(number)
    else
      var before := list[..|list| - 1];
      match list[|list| - 1]
      case Fetch(n, data) => Held(initial, before, number) + (if n == number then data else map[])
      case Expunge(n) => Held(initial, before, if number < n then number else number + 1)
      case Other(_) => Held(initial, before, number)
  }

  lemma HeldSnoc(initial: nat -> Attributes, list: seq<Untagged>, r: Untagged, number: nat)
    ensures Held(initial, list + [r], number) ==
            match r
            case Fetch(n, data) => Held(initial, list, number) + (if n == number then data else map[])
            case Expunge(n) => Held(initial, list, if number < n then number else number + 1)
            case Other(_) => Held(initial, list, number)
  {
    assert (list + [r])[..|list|] == list;
  }

  /** No EXPUNGE after the FETCH at `i` moves its number. */
  ghost predicate Undisturbed(list: seq<Untagged>, i: nat, number: nat) {
    forall k :: i < k < |list| && list[k].Expunge? ==> list[k].number > number
  }

  /** A FETCH may be moved to the only other one for its number, if no EXPUNGE disturbs it. */
  lemma {:induction false} MergeInPlace(
    initial: nat -> Attributes, list: seq<Untagged>, i: nat, r: Untagged, number: nat)
    requires OneFetchEach(list) && i < |list| && r.Fetch? && IsFetch(list[i], r.number)
    requires Undisturbed(list, i, r.number)
    ensures Held(initial, list[i := MergeFetch(list[i], r)], number) == Held(initial, list + [r], number)
    decreases |list|
  {
    var last, before := list[|list| - 1], list[..|list| - 1];
    assert before + [last] == list;
    if i == |list| - 1 {
      assert list[i := MergeFetch(last, r)] == before + [MergeFetch(last, r)];
      MergeWithLast(initial, before, last, r, number);
    } else {
      var earlier := NumberBefore(last, number);
      MergeInPlace(initial, before, i, r, earlier);
      assert list[i := MergeFetch(list[i], r)] == before[i := MergeFetch(list[i], r)] + [last];
      MergeBefore(initial, before, before[i := MergeFetch(list[i], r)], last, r, number, earlier);
    }
  }

  lemma MergeWithLast(initial: nat -> Attributes, before: seq<Untagged>, last: Untagged, r: Untagged, number: nat)
    requires r.Fetch? && IsFetch(last, r.number)
    ensures Held(initial, before + [MergeFetch(last, r)], number) == Held(initial, before + [last] + [r], number)
  {
    HeldSnoc(initial, before + [last], r, number);
    HeldSnoc(initial, before, last, number);
    HeldSnoc(initial, before, MergeFetch(last, r), number);
  }

  function Told(r: Untagged, number: nat): Attributes {
    if IsFetch(r, number) then r.data else map[]
  }

  function NumberBefore(r: Untagged, number: nat): nat {
    if r.Expunge? && number >= r.number then number + 1 else number
  }

  lemma HeldStep(initial: nat -> Attributes, list: seq<Untagged>, r: Untagged, number: nat, all: seq<Untagged>)
    requires all == list + [r]
    ensures Held(initial, all, number) == Held(initial, list, NumberBefore(r, number)) + Told(r, number)
  {
    HeldSnoc(initial, list, r, number);
  }

  lemma Swap(h: Attributes, a: Attributes, b: Attributes)
    requires a == map[] || b == map[]
    ensures h + a + b == h + b + a
  {
    assert h + map[] == h && h + b + map[] == h + b && h + a + map[] == h + a;
  }

  lemma MergeBefore(initial: nat -> Attributes, before: seq<Untagged>, merged: seq<Untagged>, last: Untagged,
                    r: Untagged, number: nat, earlier: nat)
    requires r.Fetch? && !IsFetch(last, r.number) && (last.Expunge? ==> last.number > r.number)
    requires earlier == NumberBefore(last, number)
    requires Held(initial, merged, earlier) == Held(initial, before + [r], earlier)
    ensures Held(initial, merged + [last], number) == Held(initial, before + [last] + [r], number)
  {
    HeldStep(initial, before + [last], r, number, before + [last] + [r]);
    HeldStep(initial, before, last, number, before + [last]);
    HeldStep(initial, merged, last, number, merged + [last]);
    HeldStep(initial, before, r, earlier, before + [r]);
    assert Told(r, earlier) == Told(r, number);
    Swap(Held(initial, before, earlier), Told(r, number), Told(last, number));
  }

  // ----- When merging is sound

  /** A FETCH for the number comes before an EXPUNGE of the other. */
  ghost predicate Passed(list: seq<Untagged>, number: nat, expunged: nat) {
    exists i, k :: 0 <= i < k < |list| && IsFetch(list[i], number) && list[k] == Expunge(expunged)
  }

  /** Between two FETCH responses for a number, no EXPUNGE moves or removes it. */
  ghost predicate Safe(list: seq<Untagged>) {
    forall i, k, j ::
      0 <= i < k < j < |list| && list[i].Fetch? && IsFetch(list[j], list[i].number) && list[k].Expunge? ==>
      list[k].number > list[i].number
  }

  lemma {:induction false} FetchKnown(list: seq<Untagged>, number: nat)
    ensures OneFetchEach(MergeAll([], list))
    ensures FetchIndex(MergeAll([], list), number).Some? <==> FetchIndex(list, number).Some?
    decreases |list|
  {
    if list != [] {
      var before, last := list[..|list| - 1], list[|list| - 1];
      FetchKnown(before, number);
      MergeLast(list);
      AddOneKeepsFetches(MergeAll([], before), last);
      FetchIndexLast(list, number);
    }
  }

  lemma FetchIndexLast(list: seq<Untagged>, number: nat)
    requires list != []
    ensures FetchIndex(list, number).Some? <==>
            FetchIndex(list[..|list| - 1], number).Some? || IsFetch(list[|list| - 1], number)
  {
    var before := list[..|list| - 1];
    if FetchIndex(before, number).Some? {
      assert IsFetch(list[FetchIndex(before, number).value], number);
    }
    if FetchIndex(list, number).Some? {
      var i := FetchIndex(list, number).value;
      assert i < |list| - 1 ==> IsFetch(before[i], number);
    }
  }

  /** Merging lets no FETCH pass an EXPUNGE that it did not pass before. */
  lemma {:induction false} PassedBefore(list: seq<Untagged>, number: nat, expunged: nat)
    requires Passed(MergeAll([], list), number, expunged)
    ensures Passed(list, number, expunged)
    decreases |list|
  {
    if list != [] {
      var before, last := list[..|list| - 1], list[|list| - 1];
      MergeLast(list);
      FetchKnown(before, number);
      PassedStep(MergeAll([], before), last, number, expunged);
      if Passed(MergeAll([], before), number, expunged) {
        PassedBefore(before, number, expunged);
        PassedMore(list, number, expunged);
      } else {
        var i := FetchIndex(before, number).value;
        assert IsFetch(list[i], number) && list[|list| - 1] == Expunge(expunged);
      }
    }
  }

  lemma PassedMore(list: seq<Untagged>, number: nat, expunged: nat)
    requires list != [] && Passed(list[..|list| - 1], number, expunged)
    ensures Passed(list, number, expunged)
  {
    var before := list[..|list| - 1];
    var i, k :| 0 <= i < k < |before| && IsFetch(before[i], number) && before[k] == Expunge(expunged);
    assert IsFetch(list[i], number) && list[k] == Expunge(expunged);
  }

  lemma PassedStep(list: seq<Untagged>, r: Untagged, number: nat, expunged: nat)
    requires Passed(AddOne(list, r), number, expunged)
    ensures Passed(list, number, expunged) || (r == Expunge(expunged) && FetchIndex(list, number).Some?)
  {
    var more := AddOne(list, r);
    var i, k :| 0 <= i < k < |more| && IsFetch(more[i], number) && more[k] == Expunge(expunged);
    assert k < |list| ==> IsFetch(list[i], number) && list[k] == Expunge(expunged);
    assert k == |list| ==> i < |list| && IsFetch(list[i], number);
  }

  /** Merging changes nothing for any client, if no EXPUNGE comes between. */
  lemma {:induction false} MergingIsSound(initial: nat -> Attributes, list: seq<Untagged>, number: nat)
    requires Safe(list)
    ensures Held(initial, MergeAll([], list), number) == Held(initial, list, number)
    decreases |list|
  {
    if list != [] {
      var before, last := list[..|list| - 1], list[|list| - 1];
      MergeLast(list);
      SnocParts(list);
      FetchKnown(before, number);
      if last.Fetch? && FetchIndex(MergeAll([], before), last.number).Some? {
        StaysUndisturbed(list, FetchIndex(MergeAll([], before), last.number).value);
      }
      var earlier := if last.Expunge? && number >= last.number then number + 1 else number;
      MergingIsSound(initial, before, earlier);
      AddOneIsSound(initial, MergeAll([], before), before, last, number, earlier);
    }
  }

  lemma AddOneIsSound(initial: nat -> Attributes, done: seq<Untagged>, before: seq<Untagged>, r: Untagged,
                      number: nat, earlier: nat)
    requires OneFetchEach(done)
    requires r.Fetch? && FetchIndex(done, r.number).Some? ==>
             Undisturbed(done, FetchIndex(done, r.number).value, r.number)
    requires earlier == if r.Expunge? && number >= r.number then number + 1 else number
    requires Held(initial, done, earlier) == Held(initial, before, earlier)
    ensures Held(initial, AddOne(done, r), number) == Held(initial, before + [r], number)
  {
    if r.Fetch? && FetchIndex(done, r.number).Some? {
      MergeInPlace(initial, done, FetchIndex(done, r.number).value, r, number);
    }
    HeldSnoc(initial, done, r, number);
    HeldSnoc(initial, before, r, number);
  }

  lemma StaysUndisturbed(list: seq<Untagged>, i: nat)
    requires Safe(list) && list != [] && list[|list| - 1].Fetch?
    requires FetchIndex(MergeAll([], list[..|list| - 1]), list[|list| - 1].number) == Some(i)
    ensures Undisturbed(MergeAll([], list[..|list| - 1]), i, list[|list| - 1].number)
  {
    var before, last := list[..|list| - 1], list[|list| - 1];
    var done := MergeAll([], before);
    forall k | i < k < |done| && done[k].Expunge?
      ensures done[k].number > last.number
    {
      assert done[k] == Expunge(done[k].number);
      PassedBefore(before, last.number, done[k].number);
      var a, b :| 0 <= a < b < |before| && IsFetch(before[a], last.number) && before[b] == Expunge(done[k].number);
      assert list[a] == before[a] && list[b] == before[b];
    }
  }

  /** Without EXPUNGE responses there is nothing to be careful about. */
  lemma WithoutExpunge(initial: nat -> Attributes, list: seq<Untagged>, number: nat)
    requires forall k :: 0 <= k < |list| ==> !list[k].Expunge?
    ensures Held(initial, MergeAll([], list), number) == Held(initial, list, number)
  {
    MergingIsSound(initial, list, number);
  }

  ghost function Nothing(number: nat): Attributes {
    map[]
  }

  /** A client that holds nothing ends with the same attributes for every number. */
  ghost predicate SameEffect(a: seq<Untagged>, b: seq<Untagged>) {
    forall n: nat :: Held(Nothing, a, n) == Held(Nothing, b, n)
  }

  lemma TwoHeld(a: Untagged, b: Untagged, n: nat)
    ensures Held(Nothing, [a, b], n) ==
            match b
            case Fetch(m, data) => Held(Nothing, [a], n) + (if m == n then data else map[])
            case Expunge(m) => Held(Nothing, [a], if n < m then n else n + 1)
            case Other(_) => Held(Nothing, [a], n)
  {
    assert [a] + [b] == [a, b];
    HeldSnoc(Nothing, [a], b, n);
  }

  lemma OneHeld(r: Untagged, n: nat)
    ensures Held(Nothing, [r], n) == if IsFetch(r, n) then r.data else map[]
  {
    assert [] + [r] == [r];
    HeldSnoc(Nothing, [], r, n);
  }

  lemma OvertakeHeld(number: nat, expunged: nat, data: Attributes, n: nat)
    ensures Held(Nothing, [Expunge(expunged), Fetch(number, data)], n) == if n == number then data else map[]
    ensures Held(Nothing, [Fetch(number, data), Expunge(expunged)], n) ==
            if (if n < expunged then n else n + 1) == number then data else map[]
  {
    var e, f := Expunge(expunged), Fetch(number, data);
    TwoHeld(e, f, n);
    OneHeld(e, n);
    TwoHeld(f, e, n);
    OneHeld(f, if n < expunged then n else n + 1);
  }

  /** A FETCH may be taken over an EXPUNGE exactly if its number is below the one expunged. */
  lemma OvertakeExact(number: nat, expunged: nat, data: Attributes)
    requires data != map[]
    ensures SameEffect([Expunge(expunged), Fetch(number, data)], [Fetch(number, data), Expunge(expunged)]) <==>
            number < expunged
  {
    OvertakeHeld(number, expunged, data, number);
    if number < expunged {
      forall n: nat
        ensures Held(Nothing, [Expunge(expunged), Fetch(number, data)], n) ==
                Held(Nothing, [Fetch(number, data), Expunge(expunged)], n)
      {
        OvertakeHeld(number, expunged, data, n);
      }
    }
  }

  // ----- What merging keeps

  function OtherIn(r: Untagged): seq<Untagged> {
    if r.Fetch? then [] else [r]
  }

  function Others(list: seq<Untagged>): seq<Untagged> {
    if list == [] then [] else OtherIn(list[0]) + Others(list[1..])
  }

  lemma {:induction false} OthersSnoc(list: seq<Untagged>, r: Untagged)
    ensures Others(list + [r]) == Others(list) + OtherIn(r)
  {
    if list == [] {
      assert list + [r] == [r] && [r][1..] == [] && Others([]) == [];
    } else {
      OthersSnoc(list[1..], r);
      assert (list + [r])[0] == list[0] && (list + [r])[1..] == list[1..] + [r];
      ConcatAssoc(OtherIn(list[0]), Others(list[1..]), OtherIn(r));
    }
  }

  lemma {:induction false} OthersPut(list: seq<Untagged>, i: nat, r: Untagged)
    requires i < |list| && list[i].Fetch? && r.Fetch?
    ensures Others(list[i := r]) == Others(list)
  {
    if i == 0 {
      assert list[i := r][1..] == list[1..];
    } else {
      assert list[i := r][1..] == list[1..][i - 1 := r];
      OthersPut(list[1..], i - 1, r);
    }
  }

  /** At most one FETCH for a number is left, the same numbers are fetched, and everything else
      stays in its order. */
  lemma {:induction false} MergingKeeps(list: seq<Untagged>)
    ensures OneFetchEach(MergeAll([], list))
    ensures forall n :: FetchIndex(MergeAll([], list), n).Some? <==> FetchIndex(list, n).Some?
    ensures Others(MergeAll([], list)) == Others(list)
    decreases |list|
  {
    forall n ensures FetchIndex(MergeAll([], list), n).Some? <==> FetchIndex(list, n).Some? {
      FetchKnown(list, n);
    }
    FetchKnown(list, 0);
    if list != [] {
      var before, last := list[..|list| - 1], list[|list| - 1];
      MergingKeeps(before);
      MergeLast(list);
      var done := MergeAll([], before);
      assert before + [last] == list;
      OthersSnoc(before, last);
      OthersSnoc(done, last);
      if last.Fetch? && FetchIndex(done, last.number).Some? {
        var i := FetchIndex(done, last.number).value;
        OthersPut(done, i, MergeFetch(done[i], last));
      }
    }
  }
}
