/** Sequence sets: what they contain for a given maximum, and building the shortest one
    for a set of numbers. */
module SequenceSets {
  import opened Collections

  datatype SeqIdx = Num(n: nat) | Star

  datatype SeqElem = Single(idx: SeqIdx) | Pair(left: SeqIdx, right: SeqIdx)

  /** The set of all messages has a form of its own: unlike `1:*` it is empty for maximum 0. */
  datatype SequenceSet = Listed(sequences: seq<SeqElem>, uid: bool) | AllSequences(uid: bool)

  datatype BuildError = NoValues

  function Resolve(idx: SeqIdx, maxValue: int): int {
    match idx
    case Num(n) => n
    case Star => maxValue
  }

  function Min(x: int, y: int): int { if x < y then x else y }

  function Max(x: int, y: int): int { if x < y then y else x }

  /** The half-open range of one element, empty when its start is not below its end. */
  function Bounds(elem: SeqElem, maxValue: int): (int, int) {
    match elem
    case Single(Num(n)) => if n <= maxValue then (n, n + 1) else (0, 0)
    case Single(Star) => (maxValue, maxValue + 1)
    case Pair(l, r) =>
      var left, right := Resolve(l, maxValue), Resolve(r, maxValue);
      var low := Min(left, right);
      if low <= maxValue then (low, Min(Max(left, right), maxValue) + 1) else (0, 0)
  }

  predicate InRange(elem: SeqElem, maxValue: int, x: int) {
    Bounds(elem, maxValue).0 <= x < Bounds(elem, maxValue).1
  }

  function RangeSet(start: int, stop: int): (r: set<int>)
    ensures forall x :: x in r <==> start <= x < stop
    decreases stop - start
  {
    if start >= stop then {} else RangeSet(start, stop - 1) + {stop - 1}
  }

  function FlattenElems(elems: seq<SeqElem>, maxValue: int): set<int> {
    if elems == [] then {}
    else
      var (start, stop) := Bounds(elems[0], maxValue);
      RangeSet(start, stop) + FlattenElems(elems[1..], maxValue)
  }

  function Flatten(s: SequenceSet, maxValue: int): set<int> {
    match s
    case Listed(elems, _) => FlattenElems(elems, maxValue)
    case AllSequences(_) => RangeSet(1, maxValue + 1)
  }

  lemma {:induction false} FlattenOwner(elems: seq<SeqElem>, maxValue: int, x: int) returns (owner: nat)
    requires x in FlattenElems(elems, maxValue)
    ensures owner < |elems| && InRange(elems[owner], maxValue, x)
  {
    if InRange(elems[0], maxValue, x) {
      owner := 0;
    } else {
      owner := FlattenOwner(elems[1..], maxValue, x);
      owner := owner + 1;
    }
  }

  lemma {:induction false} FlattenHas(elems: seq<SeqElem>, maxValue: int, i: nat, x: int)
    requires i < |elems| && InRange(elems[i], maxValue, x)
    ensures x in FlattenElems(elems, maxValue)
  {
    if i > 0 {
      FlattenHas(elems[1..], maxValue, i - 1, x);
    }
  }

  /** No sequence set contains a number above the maximum it is resolved with. */
  lemma FlattenBounded(s: SequenceSet, maxValue: int, x: int)
    requires x in Flatten(s, maxValue)
    ensures x <= maxValue
  {
    match s
    case Listed(elems, _) => var owner := FlattenOwner(elems, maxValue, x);
    case AllSequences(_) =>
  }

  /** A set contains what one of its elements contains. */
  lemma ListContains(elems: seq<SeqElem>, uid: bool, maxValue: int, x: int)
    ensures x in Flatten(Listed(elems, uid), maxValue) <==>
            exists i: nat :: i < |elems| && x in Flatten(Listed([elems[i]], uid), maxValue)
  {
    if x in FlattenElems(elems, maxValue) {
      var owner := FlattenOwner(elems, maxValue, x);
      FlattenHas([elems[owner]], maxValue, 0, x);
    }
    if i: nat :| i < |elems| && x in Flatten(Listed([elems[i]], uid), maxValue) {
      var only := FlattenOwner([elems[i]], maxValue, x);
      FlattenHas(elems, maxValue, i, x);
    }
  }

  lemma ElemContains(elem: SeqElem, uid: bool, maxValue: int, x: int)
    ensures x in Flatten(Listed([elem], uid), maxValue) <==> InRange(elem, maxValue, x)
  {
    if x in FlattenElems([elem], maxValue) {
      var owner := FlattenOwner([elem], maxValue, x);
    }
    if InRange(elem, maxValue, x) {
      FlattenHas([elem], maxValue, 0, x);
    }
  }

  /** One number is contained up to the maximum; two numbers, in either order, contain what lies between
      them up to the maximum. */
  lemma NumbersContain(a: nat, b: nat, uid: bool, maxValue: int, x: int)
    ensures x in Flatten(Listed([Single(Num(a))], uid), maxValue) <==> x == a && a <= maxValue
    ensures x in Flatten(Listed([Pair(Num(a), Num(b))], uid), maxValue) <==>
            (a <= x <= b || b <= x <= a) && x <= maxValue
  {
    ElemContains(Single(Num(a)), uid, maxValue, x);
    ElemContains(Pair(Num(a), Num(b)), uid, maxValue, x);
  }

  /** `*` is the maximum, at either end of a range: the numbers from the other end up to it, or the
      maximum alone if that end is above it. */
  lemma StarContains(a: nat, uid: bool, maxValue: int, x: int)
    ensures x in Flatten(Listed([Single(Star)], uid), maxValue) <==> x == maxValue
    ensures x in Flatten(Listed([Pair(Star, Star)], uid), maxValue) <==> x == maxValue
    ensures forall ends :: ends in [Pair(Num(a), Star), Pair(Star, Num(a))] ==>
              (x in Flatten(Listed([ends], uid), maxValue) <==>
                if a <= maxValue then a <= x <= maxValue else x == maxValue)
  {
    ElemContains(Single(Star), uid, maxValue, x);
    ElemContains(Pair(Star, Star), uid, maxValue, x);
    ElemContains(Pair(Num(a), Star), uid, maxValue, x);
    ElemContains(Pair(Star, Num(a)), uid, maxValue, x);
  }

  /** The set of all contains the numbers from 1 to the maximum, none if that is 0. */
  lemma AllContains(uid: bool, maxValue: int, x: int)
    ensures x in Flatten(AllSequences(uid), maxValue) <==> 1 <= x <= maxValue
  {
  }

  /** A group as `Build` makes them: one number, or two with the smaller first. */
  ghost predicate Group(elem: SeqElem) {
    match elem
    case Single(Num(_)) => true
    case Pair(Num(a), Num(b)) => a < b
    case _ => false
  }

  ghost function Low(elem: SeqElem): nat {
    match elem
    case Single(Num(n)) => n
    case Pair(Num(a), _) => a
    case _ => 0
  }

  ghost function High(elem: SeqElem): nat {
    match elem
    case Single(Num(n)) => n
    case Pair(_, Num(b)) => b
    case _ => 0
  }

  /** Ascending groups with at least one number missing between any two of them. */
  ghost predicate Separated(groups: seq<SeqElem>) {
    && (forall i :: 0 <= i < |groups| ==> Group(groups[i]))
    && (forall i, j :: 0 <= i < j < |groups| ==> High(groups[i]) + 1 < Low(groups[j]))
  }

  ghost predicate InGroup(groups: seq<SeqElem>, i: int, x: int) {
    0 <= i < |groups| && Low(groups[i]) <= x <= High(groups[i])
  }

  /** The groups are the maximal runs of consecutive numbers of `items`. */
  ghost predicate CoversExactly(groups: seq<SeqElem>, items: set<int>) {
    && Separated(groups)
    && (forall i, x :: InGroup(groups, i, x) ==> x in items)
    && (forall x :: x in items ==> exists i :: InGroup(groups, i, x))
  }

  method Build(seqs: seq<nat>, uid: bool) returns (r: Result<SequenceSet, BuildError>)
    ensures r.Failure? <==> seqs == []
    ensures r.Success? ==> r.value.Listed? && r.value.uid == uid
    ensures r.Success? ==> CoversExactly(r.value.sequences, set x | x in seqs)
  {
    var unique := set x: int | x in seqs;
    var seqsList := Sort(unique);
    NoneListed(seqs, unique);
    NoneListed(seqsList, unique);
    if seqsList == [] {
      return Failure(NoValues);
    }
    assert forall i :: 0 <= i < |seqsList| ==> seqsList[i] >= 0;
    var groups := BuildGroups(seqsList, unique);
    return Success(Listed(groups, uid));
  }

  method BuildGroups(seqsList: seq<nat>, ghost items: set<int>) returns (groups: seq<SeqElem>)
    requires seqsList != [] && Ascending(seqsList) && Lists(seqsList, items)
    ensures CoversExactly(groups, items)
  {
    groups := [];
    var group := Single(Num(seqsList[0]));
    ghost var done: set<int> := {seqsList[0]};
    CoverOne(seqsList[0]);
    assert groups + [group] == [group];
    for i := 1 to |seqsList|
      invariant High(group) == seqsList[i - 1]
      invariant CoversExactly(groups + [group], done)
      invariant Lists(seqsList[..i], done)
    {
      ListsNext(seqsList, i, done);
      groups, group := AddToGroups(groups, group, seqsList[i], done);
      done := done + {seqsList[i]};
    }
    assert seqsList[..|seqsList|] == seqsList;
    groups := groups + [group];
    ListsDetermines(seqsList, done, items);
  }

  /** One round of the loop in `BuildGroups`: extends the current group or starts the next one. */
  method AddToGroups(groups: seq<SeqElem>, group: SeqElem, next: nat, ghost done: set<int>)
    returns (groups': seq<SeqElem>, group': SeqElem)
    requires CoversExactly(groups + [group], done) && High(group) < next
    ensures CoversExactly(groups' + [group'], done + {next}) && High(group') == next
  {
    assert Group((groups + [group])[|groups|]);
    groups' := groups;
    match group
    case Single(Num(n)) =>
      if next == n + 1 {
        CoverExtend(groups, group, done);
        group' := Pair(Num(n), Num(next));
      } else {
        CoverStart(groups, group, next, done);
        groups' := groups + [group];
        group' := Single(Num(next));
      }
    case Pair(Num(a), Num(b)) =>
      if next == b + 1 {
        CoverExtend(groups, group, done);
        group' := Pair(Num(a), Num(next));
      } else {
        CoverStart(groups, group, next, done);
        groups' := groups + [group];
        group' := Single(Num(next));
      }
  }

  lemma ListsDetermines(s: seq<int>, a: set<int>, b: set<int>)
    requires Lists(s, a) && Lists(s, b)
    ensures a == b
  {
    forall x ensures x in a <==> x in b {
      if x in s {
        assert s[IndexOf(s, x)] == x;
      }
    }
  }

  lemma ListsNext(s: seq<int>, i: nat, done: set<int>)
    requires i < |s| && Lists(s[..i], done)
    ensures Lists(s[..i + 1], done + {s[i]})
  {
    assert s[..i + 1] == s[..i] + [s[i]];
  }

  lemma NoneListed(seqs: seq<nat>, items: set<int>)
    requires forall x :: x in items <==> x in seqs
    ensures seqs == [] <==> items == {}
  {
    if seqs != [] {
      assert seqs[0] in items;
    } else {
      assert forall x :: x !in items;
    }
  }

  lemma CoverOne(x: nat)
    ensures CoversExactly([Single(Num(x))], {x})
  {
    var groups := [Single(Num(x))];
    assert InGroup(groups, 0, x);
  }

  lemma SeparatedExtend(groups: seq<SeqElem>, group: SeqElem)
    requires Separated(groups + [group])
    ensures Separated(groups + [Pair(Num(Low(group)), Num(High(group) + 1))])
  {
    var before, after := groups + [group], groups + [Pair(Num(Low(group)), Num(High(group) + 1))];
    assert Group(before[|groups|]);
    forall i | 0 <= i < |after| ensures Group(after[i]) && Low(after[i]) == Low(before[i]) {
      assert i < |groups| ==> after[i] == before[i];
    }
    forall i, j | 0 <= i < j < |after| ensures High(after[i]) + 1 < Low(after[j]) {
      assert before[i] == after[i] && Low(before[j]) == Low(after[j]);
    }
  }

  lemma InGroupExtend(groups: seq<SeqElem>, group: SeqElem, i: nat, x: int)
    requires Group(group) && i <= |groups|
    ensures InGroup(groups + [Pair(Num(Low(group)), Num(High(group) + 1))], i, x) <==>
            InGroup(groups + [group], i, x) || (i == |groups| && x == High(group) + 1)
  {
  }

  /** Growing the last group by the next number. */
  lemma CoverExtend(groups: seq<SeqElem>, group: SeqElem, items: set<int>)
    requires Separated(groups + [group]) && CoversExactly(groups + [group], items)
    ensures CoversExactly(groups + [Pair(Num(Low(group)), Num(High(group) + 1))], items + {High(group) + 1})
  {
    var extra := High(group) + 1;
    var before, after := groups + [group], groups + [Pair(Num(Low(group)), Num(extra))];
    assert Group(before[|groups|]);
    SeparatedExtend(groups, group);
    forall i: nat, x | i < |after|
      ensures InGroup(after, i, x) <==> InGroup(before, i, x) || (i == |groups| && x == extra)
    {
      InGroupExtend(groups, group, i, x);
    }
    CoverMore(before, after, items, extra, |groups|);
  }

  lemma CoverMore(before: seq<SeqElem>, after: seq<SeqElem>, items: set<int>, extra: int, at: nat)
    requires Separated(after) && CoversExactly(before, items) && |before| == |after| && at < |after|
    requires forall i: nat, x :: i < |after| ==>
               (InGroup(after, i, x) <==> InGroup(before, i, x) || (i == at && x == extra))
    ensures CoversExactly(after, items + {extra})
  {
    forall x | x in items + {extra} ensures exists i :: InGroup(after, i, x) {
      if x in items {
        var i :| InGroup(before, i, x);
        assert InGroup(after, i, x);
      } else {
        assert InGroup(after, at, x);
      }
    }
  }

  /** Starting a new group with a number beyond the last one. */
  lemma CoverStart(groups: seq<SeqElem>, group: SeqElem, next: nat, items: set<int>)
    requires Separated(groups + [group]) && CoversExactly(groups + [group], items)
    requires High(group) + 1 < next
    ensures CoversExactly(groups + [group] + [Single(Num(next))], items + {next})
  {
    var before, after := groups + [group], groups + [group] + [Single(Num(next))];
    forall i | 0 <= i < |before| ensures High(before[i]) + 1 < next {
      assert before[|groups|] == group;
      if i < |groups| {
        assert High(before[i]) + 1 < Low(before[|groups|]) <= High(group);
      }
    }
    assert forall i :: 0 <= i < |before| ==> after[i] == before[i];
    forall i, x | InGroup(after, i, x) ensures x in items + {next} {
      assert InGroup(before, i, x) || x == next;
    }
    forall x | x in items + {next} ensures exists i :: InGroup(after, i, x) {
      if x in items {
        var i :| InGroup(before, i, x);
        assert InGroup(after, i, x);
      } else {
        assert InGroup(after, |before|, x);
      }
    }
  }

  lemma CoverReaches(groups: seq<SeqElem>, items: set<int>, maxValue: int, x: int)
    requires CoversExactly(groups, items) && x in items
    requires forall y :: y in items ==> y <= maxValue
    ensures x in FlattenElems(groups, maxValue)
  {
    var i :| InGroup(groups, i, x);
    assert Group(groups[i]);
    assert InGroup(groups, i, Low(groups[i])) && InGroup(groups, i, High(groups[i]));
    FlattenHas(groups, maxValue, i, x);
  }

  lemma CoverContains(groups: seq<SeqElem>, items: set<int>, maxValue: int, x: int)
    requires CoversExactly(groups, items) && x in FlattenElems(groups, maxValue)
    ensures x in items
  {
    var owner := FlattenOwner(groups, maxValue, x);
    assert InGroup(groups, owner, x);
  }

  /** Reading a built set back gives the numbers it was built from. */
  lemma FlattenCover(groups: seq<SeqElem>, items: set<int>, maxValue: int)
    requires CoversExactly(groups, items)
    requires forall x :: x in items ==> x <= maxValue
    ensures FlattenElems(groups, maxValue) == items
  {
    forall x ensures x in FlattenElems(groups, maxValue) <==> x in items {
      if x in FlattenElems(groups, maxValue) {
        CoverContains(groups, items, maxValue, x);
      }
      if x in items {
        CoverReaches(groups, items, maxValue, x);
      }
    }
  }

  /** Distinct numbers below `bound` are at most `bound` many. */
  lemma {:induction false} Pigeonhole(owners: seq<nat>, bound: nat)
    requires NoDuplicates(owners)
    requires forall i :: 0 <= i < |owners| ==> owners[i] < bound
    ensures |owners| <= bound
  {
    if owners != [] {
      assert owners[0] < bound;
      if k: nat :| k < |owners| && owners[k] == bound - 1 {
        var others := owners[..k] + owners[k + 1..];
        assert forall i :: 0 <= i < |others| ==> others[i] == owners[if i < k then i else i + 1];
        Pigeonhole(others, bound - 1);
      } else {
        Pigeonhole(owners, bound - 1);
      }
    }
  }

  lemma GapIsMissing(groups: seq<SeqElem>, items: set<int>, i: nat)
    requires CoversExactly(groups, items) && i < |groups|
    ensures High(groups[i]) + 1 !in items
  {
    var gap := High(groups[i]) + 1;
    forall j ensures !InGroup(groups, j, gap) {
      if 0 <= j < |groups| && j != i {
        assert j < i ==> High(groups[j]) + 1 < Low(groups[i]);
        assert j > i ==> High(groups[i]) + 1 < Low(groups[j]);
        assert Low(groups[i]) <= High(groups[i]);
      }
    }
  }

  /** One element of any other sequence set reaches into at most one group. */
  lemma OneGroupEach(groups: seq<SeqElem>, items: set<int>, elem: SeqElem, maxValue: int, i: nat, k: nat)
    requires CoversExactly(groups, items) && i < k < |groups|
    requires forall x :: InRange(elem, maxValue, x) ==> x in items
    requires InRange(elem, maxValue, Low(groups[i]))
    ensures !InRange(elem, maxValue, Low(groups[k]))
  {
    if InRange(elem, maxValue, Low(groups[k])) {
      assert Low(groups[i]) <= High(groups[i]) + 1 < Low(groups[k]);
      GapIsMissing(groups, items, i);
      assert false;
    }
  }

  lemma FindOwners(groups: seq<SeqElem>, items: set<int>, other: seq<SeqElem>, maxValue: int)
    returns (owners: seq<nat>)
    requires CoversExactly(groups, items)
    requires forall x :: x in items ==> x in FlattenElems(other, maxValue)
    ensures |owners| == |groups|
    ensures forall i :: 0 <= i < |owners| ==> owners[i] < |other| && InRange(other[owners[i]], maxValue, Low(groups[i]))
  {
    owners := [];
    while |owners| < |groups|
      invariant |owners| <= |groups|
      invariant forall i :: 0 <= i < |owners| ==>
                  owners[i] < |other| && InRange(other[owners[i]], maxValue, Low(groups[i]))
    {
      assert InGroup(groups, |owners|, Low(groups[|owners|]));
      var owner := FlattenOwner(other, maxValue, Low(groups[|owners|]));
      owners := owners + [owner];
    }
  }

  /** No sequence set with the same contents, with `*`, reversed or overlapping ranges or not,
      has fewer elements than the built one has groups. */
  lemma BuildIsMinimal(groups: seq<SeqElem>, items: set<int>, other: seq<SeqElem>, maxValue: int)
    requires CoversExactly(groups, items)
    requires FlattenElems(other, maxValue) == items
    ensures |groups| <= |other|
  {
    var owners := FindOwners(groups, items, other, maxValue);
    forall i, k | 0 <= i < k < |owners| ensures owners[i] != owners[k] {
      var elem := other[owners[i]];
      forall x | InRange(elem, maxValue, x) ensures x in items {
        FlattenHas(other, maxValue, owners[i], x);
      }
      OneGroupEach(groups, items, elem, maxValue, i, k);
    }
    Pigeonhole(owners, |other|);
  }
}
