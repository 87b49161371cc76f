/** A client that sees only positions: what it learns from the untagged responses of a fork. */
module Replay {
  import opened Collections
  import opened Flags
  import opened Synchronized
  import opened Selected

  /** One line of the client's list: what FETCH responses have told it of the message there. */
  datatype Slot = Slot(uid: Option<int>, flags: Option<set<Flag>>)

  const UNTOLD: Slot := Slot(None, None)

  function Tell(slot: Slot, flags: set<Flag>, uid: Option<int>): Slot {
    Slot(if uid.Some? then uid else slot.uid, Some(flags))
  }

  function Receive(view: seq<Slot>, r: Response): seq<Slot> {
    match r
    case Expunge(n) => if 1 <= n <= |view| then view[..n - 1] + view[n..] else view
    case Exists(n) => if n > |view| then view + seq(n - |view|, _ => UNTOLD) else view
    case Fetch(n, flags, uid) => if 1 <= n <= |view| then view[n - 1 := Tell(view[n - 1], flags, uid)] else view
    case _ => view
  }

  function ReceiveAll(view: seq<Slot>, responses: seq<Response>): seq<Slot>
    decreases |responses|
  {
    if responses == [] then view
    else ReceiveAll(Receive(view, responses[0]), responses[1..])
  }

  /** What the client believes is true: as many lines as messages, and no wrong UID. */
  ghost predicate Tracks(view: seq<Slot>, sorted: seq<int>) {
    |view| == |sorted| && forall i :: 0 <= i < |view| && view[i].uid.Some? ==> view[i].uid.value == sorted[i]
  }

  /** The line that the client has for a message, a fresh one for a new message. */
  function OldSlot(view: seq<Slot>, before: seq<int>, u: int): Slot
    requires |view| == |before|
  {
    if u in before then view[IndexOf(before, u)] else UNTOLD
  }

  /** What becomes of the line in a fork: it is told of exactly if the message is reported. */
  ghost function NewSlot(view: seq<Slot>, s: Session, before: Frozen, withUid: bool, u: int): Slot
    requires |view| == |Sorted(before.uids)|
  {
    var slot := OldSlot(view, Sorted(before.uids), u);
    if u in FetchUids(before, Freeze(s), s) then Tell(slot, AllFlags(s, u), if withUid then Some(u) else None) else slot
  }

  /** The client's list has moved along with the server's, line by line. */
  ghost predicate Follows(view': seq<Slot>, view: seq<Slot>, s: Session, before: Frozen, withUid: bool) {
    var after := Sorted(s.cache.Keys);
    && |view'| == |after| && |view| == |Sorted(before.uids)|
    && forall i :: 0 <= i < |after| ==> view'[i] == NewSlot(view, s, before, withUid, after[i])
  }

  lemma FollowsTracks(view': seq<Slot>, view: seq<Slot>, s: Session, before: Frozen, withUid: bool)
    requires Follows(view', view, s, before, withUid) && Tracks(view, Sorted(before.uids))
    ensures Tracks(view', Sorted(s.cache.Keys))
  {
  }

  lemma {:induction false} ReceiveConcat(view: seq<Slot>, first: seq<Response>, second: seq<Response>)
    ensures ReceiveAll(view, first + second) == ReceiveAll(ReceiveAll(view, first), second)
    decreases |first|
  {
    if first == [] {
      assert first + second == second;
    } else {
      assert (first + second)[1..] == first[1..] + second;
      ReceiveConcat(Receive(view, first[0]), first[1..], second);
    }
  }

  /** The lines whose message is not in `gone`. */
  ghost function Keep<T>(lines: seq<T>, sorted: seq<int>, gone: set<int>): seq<T>
    requires |lines| == |sorted|
  {
    if sorted == [] then []
    else if sorted[0] in gone then Keep(lines[1..], sorted[1..], gone)
    else [lines[0]] + Keep(lines[1..], sorted[1..], gone)
  }

  function CutOut<T>(s: seq<T>, k: nat): seq<T>
    requires k < |s|
  {
    s[..k] + s[k + 1..]
  }

  /** Cutting the line of one message that is gone first makes no difference. */
  lemma {:induction false} KeepCut<T>(lines: seq<T>, sorted: seq<int>, gone: set<int>, k: nat)
    requires |lines| == |sorted| && k < |sorted| && Ascending(sorted)
    ensures Keep(CutOut(lines, k), CutOut(sorted, k), gone) == Keep(lines, sorted, gone + {sorted[k]})
  {
    if k == 0 {
      KeepOthers(lines[1..], sorted[1..], gone, sorted[0]);
      assert CutOut(lines, 0) == lines[1..] && CutOut(sorted, 0) == sorted[1..];
    } else {
      KeepCut(lines[1..], sorted[1..], gone, k - 1);
      KeepFirst(lines, sorted, gone + {sorted[k]});
      CutParts(lines, k);
      CutParts(sorted, k);
      KeepFirst(CutOut(lines, k), CutOut(sorted, k), gone);
    }
  }

  lemma CutParts<T>(s: seq<T>, k: nat)
    requires 0 < k < |s|
    ensures |CutOut(s, k)| == |s| - 1 && CutOut(s, k)[0] == s[0] && CutOut(s, k)[1..] == CutOut(s[1..], k - 1)
  {
  }

  lemma KeepFirst<T>(lines: seq<T>, sorted: seq<int>, gone: set<int>)
    requires |lines| == |sorted| > 0
    ensures Keep(lines, sorted, gone) ==
            (if sorted[0] in gone then [] else [lines[0]]) + Keep(lines[1..], sorted[1..], gone)
  {
  }

  lemma {:induction false} KeepOthers<T>(lines: seq<T>, sorted: seq<int>, gone: set<int>, u: int)
    requires |lines| == |sorted| && u !in sorted
    ensures Keep(lines, sorted, gone) == Keep(lines, sorted, gone + {u})
  {
    if sorted != [] {
      assert sorted[0] in sorted;
      KeepOthers(lines[1..], sorted[1..], gone, u);
    }
  }

  ghost predicate Within(gone: seq<int>, sorted: seq<int>) {
    forall i :: 0 <= i < |gone| ==> gone[i] in sorted
  }

  ghost function ExpungesOf(sorted: seq<int>, gone: seq<int>): seq<Response>
    requires Within(gone, sorted)
  {
    if gone == [] then []
    else [Expunge(IndexOf(sorted, gone[|gone| - 1]) + 1)] + ExpungesOf(sorted, gone[..|gone| - 1])
  }

  /** Numbers of earlier messages do not change when a later line is cut. */
  lemma IndexOfCut(sorted: seq<int>, k: nat, u: int)
    requires Ascending(sorted) && k < |sorted| && u in sorted && u < sorted[k]
    ensures u in CutOut(sorted, k) && IndexOf(CutOut(sorted, k), u) == IndexOf(sorted, u)
  {
    var j := IndexOf(sorted, u);
    assert j < k;
    assert CutOut(sorted, k)[j] == u;
    assert Ascending(CutOut(sorted, k));
    IndexOfAscending(CutOut(sorted, k), j);
  }

  lemma {:induction false} ExpungesOfCut(sorted: seq<int>, gone: seq<int>, k: nat)
    requires Ascending(sorted) && k < |sorted|
    requires Within(gone, sorted) && forall i :: 0 <= i < |gone| ==> gone[i] < sorted[k]
    ensures Within(gone, CutOut(sorted, k))
    ensures ExpungesOf(CutOut(sorted, k), gone) == ExpungesOf(sorted, gone)
  {
    forall i | 0 <= i < |gone| ensures gone[i] in CutOut(sorted, k) {
      IndexOfCut(sorted, k, gone[i]);
    }
    if gone != [] {
      IndexOfCut(sorted, k, gone[|gone| - 1]);
      ExpungesOfCut(sorted, gone[..|gone| - 1], k);
    }
  }

  lemma ReceiveFirst(view: seq<Slot>, first: Response, rest: seq<Response>)
    ensures ReceiveAll(view, [first] + rest) == ReceiveAll(Receive(view, first), rest)
  {
    assert ([first] + rest)[1..] == rest;
  }

  /** Deleting by position, from the last message to the first, leaves exactly the other lines. */
  lemma {:induction false} ReplayExpunges(view: seq<Slot>, sorted: seq<int>, gone: seq<int>, rs: seq<Response>)
    requires |view| == |sorted| && Ascending(sorted) && Ascending(gone) && Within(gone, sorted)
    requires rs == ExpungesOf(sorted, gone)
    ensures ReceiveAll(view, rs) == Keep(view, sorted, Elements(gone))
    decreases |gone|
  {
    if gone == [] {
      assert Elements(gone) == {};
      KeepAll(view, sorted);
    } else {
      var front := gone[..|gone| - 1];
      var k := IndexOf(sorted, gone[|gone| - 1]);
      var rest := ExpungesOf(sorted, front);
      assert rs == [Expunge(k + 1)] + rest;
      ReceiveFirst(view, Expunge(k + 1), rest);
      ExpungesOfCut(sorted, front, k);
      ReplayExpunges(CutOut(view, k), CutOut(sorted, k), front, rest);
      KeepCut(view, sorted, Elements(front), k);
      ElementsLast(gone);
    }
  }

  lemma ElementsLast(s: seq<int>)
    requires s != []
    ensures Elements(s) == Elements(s[..|s| - 1]) + {s[|s| - 1]}
  {
    assert s == s[..|s| - 1] + [s[|s| - 1]];
    ElementsConcat(s[..|s| - 1], [s[|s| - 1]]);
  }

  lemma {:induction false} KeepAll<T>(lines: seq<T>, sorted: seq<int>)
    requires |lines| == |sorted|
    ensures Keep(lines, sorted, {}) == lines
  {
    if sorted != [] {
      KeepAll(lines[1..], sorted[1..]);
      assert lines == [lines[0]] + lines[1..];
    }
  }

  lemma {:induction false} KeepSize(view: seq<Slot>, sorted: seq<int>, gone: set<int>)
    requires |view| == |sorted|
    ensures |Keep(view, sorted, gone)| == |Keep(sorted, sorted, gone)|
  {
    if sorted != [] {
      KeepSize(view[1..], sorted[1..], gone);
    }
  }

  lemma {:induction false} KeepHas(sorted: seq<int>, gone: set<int>, u: int)
    ensures u in Keep(sorted, sorted, gone) <==> u in sorted && u !in gone
  {
    if sorted != [] {
      KeepHas(sorted[1..], gone, u);
      assert u in sorted <==> u == sorted[0] || u in sorted[1..];
    }
  }

  lemma {:induction false} KeepAscends(sorted: seq<int>, gone: set<int>)
    requires Ascending(sorted)
    ensures Ascending(Keep(sorted, sorted, gone))
  {
    if sorted != [] {
      KeepAscends(sorted[1..], gone);
      var rest := Keep(sorted[1..], sorted[1..], gone);
      forall j | 0 <= j < |rest| ensures sorted[0] < rest[j] {
        KeepHas(sorted[1..], gone, rest[j]);
        assert sorted[1..][IndexOf(sorted[1..], rest[j])] == rest[j];
      }
    }
  }

  /** Each line that is kept is the old line of the message now in its place. */
  lemma {:induction false} KeepAt(view: seq<Slot>, sorted: seq<int>, gone: set<int>, j: nat) returns (i: nat)
    requires |view| == |sorted| && j < |Keep(sorted, sorted, gone)|
    ensures |Keep(view, sorted, gone)| == |Keep(sorted, sorted, gone)|
    ensures i < |sorted| && Keep(sorted, sorted, gone)[j] == sorted[i] && Keep(view, sorted, gone)[j] == view[i]
  {
    KeepSize(view, sorted, gone);
    if sorted[0] !in gone && j == 0 {
      i := 0;
    } else {
      i := KeepAt(view[1..], sorted[1..], gone, if sorted[0] in gone then j else j - 1);
      i := i + 1;
    }
  }

  lemma KeepSorted(uids: set<int>, gone: set<int>)
    ensures Keep(Sorted(uids), Sorted(uids), gone) == Sorted(uids - gone)
  {
    var sorted := Sorted(uids);
    var kept := Keep(sorted, sorted, gone);
    KeepAscends(sorted, gone);
    forall u ensures u in kept <==> u in Sorted(uids - gone) {
      KeepHas(sorted, gone, u);
      InSorted(uids, u);
      InSorted(uids - gone, u);
    }
    AscendingUnique(kept, Sorted(uids - gone));
  }

  lemma {:induction false} ExpungesOfAt(sorted: seq<int>, gone: seq<int>, i: nat)
    requires Within(gone, sorted) && i < |gone|
    ensures |ExpungesOf(sorted, gone)| == |gone|
    ensures ExpungesOf(sorted, gone)[i] == Expunge(IndexOf(sorted, gone[|gone| - 1 - i]) + 1)
  {
    if |gone| > 1 {
      ExpungesOfAt(sorted, gone[..|gone| - 1], if i > 0 then i - 1 else 0);
    }
  }

  lemma ExpungesAre(before: Frozen, gone: seq<int>)
    requires Within(gone, Sorted(before.uids))
    ensures Expunges(before, gone) == ExpungesOf(Sorted(before.uids), gone)
  {
    forall i | 0 <= i < |gone| ensures |ExpungesOf(Sorted(before.uids), gone)| == |gone|
      && Expunges(before, gone)[i] == ExpungesOf(Sorted(before.uids), gone)[i]
    {
      ExpungesOfAt(Sorted(before.uids), gone, i);
    }
  }

  lemma ReplayGone(view: seq<Slot>, before: Frozen, gone: set<int>)
    requires |view| == |Sorted(before.uids)| && gone <= before.uids
    ensures ReceiveAll(view, Expunges(before, Sorted(gone))) == Keep(view, Sorted(before.uids), gone)
  {
    var gs := Sorted(gone);
    forall i | 0 <= i < |gs| ensures gs[i] in Sorted(before.uids) {
      assert gs[i] in gone;
      InSorted(before.uids, gs[i]);
    }
    ExpungesAre(before, gs);
    ReplayExpunges(view, Sorted(before.uids), gs, ExpungesOf(Sorted(before.uids), gs));
    forall u ensures u in Elements(gs) <==> u in gone {
      InSorted(gone, u);
    }
    assert Elements(gs) == gone;
  }

  lemma UnionSize(a: set<int>, b: set<int>)
    requires a !! b
    ensures |a + b| == |a| + |b|
  {
  }

  /** EXISTS adds the lines of the new messages at the end, and RECENT changes nothing. */
  lemma ReplayCounts(view: seq<Slot>, before: Frozen, after: Frozen)
    requires |view| == |before.uids * after.uids|
    ensures ReceiveAll(view, Counts(before, after)) ==
            view + seq(|after.uids - before.uids|, _ => UNTOLD)
  {
    var new' := after.uids - before.uids;
    assert after.uids == before.uids * after.uids + new';
    UnionSize(before.uids * after.uids, new');
    var exists', recent :=
      (if new' != {} then [Exists(|after.uids|)] else []),
      (if |after.recent| != |before.recent| then [RecentCount(|after.recent|)] else []);
    ReceiveConcat(view, exists', recent);
    var longer := ReceiveAll(view, exists');
    if new' != {} {
      HasElement(new');
      ReceiveFirst(view, Exists(|after.uids|), []);
      assert exists' == [Exists(|after.uids|)] + [];
    }
    assert longer == view + seq(|new'|, _ => UNTOLD);
    ReceiveRecent(longer, recent);
  }

  lemma ReceiveRecent(view: seq<Slot>, recent: seq<Response>)
    requires |recent| <= 1 && forall i :: 0 <= i < |recent| ==> recent[i].RecentCount?
    ensures ReceiveAll(view, recent) == view
  {
    if recent != [] {
      assert recent[1..] == [];
    }
  }

  /** A FETCH response whose number stands for the message it speaks of. */
  ghost predicate Names(r: Response, sorted: seq<int>, s: Session) {
    && r.Fetch? && 1 <= r.seqNum <= |sorted|
    && r.flags == AllFlags(s, sorted[r.seqNum - 1])
    && (r.uid.Some? ==> r.uid.value == sorted[r.seqNum - 1])
  }

  lemma FetchesFirst(after: Frozen, s: Session, uids: seq<int>, withUid: bool)
    requires uids != []
    ensures Fetches(after, s, uids, withUid) ==
            [Fetch(NumberOf(after.uids, uids[0]), AllFlags(s, uids[0]), if withUid then Some(uids[0]) else None)]
            + Fetches(after, s, uids[1..], withUid)
  {
  }

  /** Each FETCH tells the line of its own message. */
  lemma {:induction false} ReplayFetches(
    view: seq<Slot>, after: Frozen, s: Session, uids: seq<int>, withUid: bool, i: nat)
    requires |view| == |Sorted(after.uids)| && i < |view|
    requires Ascending(uids) && forall k :: 0 <= k < |uids| ==> uids[k] in after.uids
    ensures var u, told := Sorted(after.uids)[i], ReceiveAll(view, Fetches(after, s, uids, withUid));
            && |told| == |view|
            && told[i] ==
               if u in uids then Tell(view[i], AllFlags(s, u), if withUid then Some(u) else None) else view[i]
    decreases |uids|
  {
    if uids != [] {
      var u := uids[0];
      var r := Fetch(NumberOf(after.uids, u), AllFlags(s, u), if withUid then Some(u) else None);
      FetchesFirst(after, s, uids, withUid);
      ReceiveFirst(view, r, Fetches(after, s, uids[1..], withUid));
      NumberOfAt(after.uids, u);
      ReplayFetches(Receive(view, r), after, s, uids[1..], withUid, i);
      FetchedOnce(after.uids, uids, i);
    }
  }

  lemma FetchedOnce(listed: set<int>, uids: seq<int>, i: nat)
    requires uids != [] && Ascending(uids) && uids[0] in listed && i < |Sorted(listed)|
    ensures NumberOf(listed, uids[0]) - 1 == i <==> Sorted(listed)[i] == uids[0]
    ensures uids[0] !in uids[1..]
    ensures forall u :: u in uids <==> u == uids[0] || u in uids[1..]
  {
    NumberOfAt(listed, uids[0]);
  }

  lemma NumberOfAt(uids: set<int>, u: int)
    requires u in uids
    ensures 1 <= NumberOf(uids, u) <= |Sorted(uids)| && Sorted(uids)[NumberOf(uids, u) - 1] == u
  {
    InSorted(uids, u);
  }

  /** Every FETCH of a fork names its message in the list after the fork. */
  lemma FetchesName(before: Frozen, after: Frozen, s: Session, withUid: bool)
    requires after.uids == s.cache.Keys && FetchUids(before, after, s) <= after.uids
    ensures var fetches := Fetches(after, s, Sorted(FetchUids(before, after, s)), withUid);
            forall i :: 0 <= i < |fetches| ==> Names(fetches[i], Sorted(after.uids), s)
  {
    var sorted := Sorted(FetchUids(before, after, s));
    forall i | 0 <= i < |sorted| ensures Names(Fetches(after, s, sorted, withUid)[i], Sorted(after.uids), s) {
      assert sorted[i] in FetchUids(before, after, s);
      NumberOfAt(after.uids, sorted[i]);
    }
  }

  /** New messages have higher UIDs than the ones the client was last told about. */
  ghost predicate NewAbove(before: set<int>, after: set<int>) {
    forall x, y :: x in before && y in after - before ==> x < y
  }

  /** The list after a fork: the messages that stayed, then the new ones. */
  lemma AfterIs(view: seq<Slot>, before: Frozen, after: Frozen)
    requires |view| == |Sorted(before.uids)| && NewAbove(before.uids, after.uids)
    ensures var kept, gone, new' := before.uids * after.uids, before.uids - after.uids, after.uids - before.uids;
            && Sorted(after.uids) == Sorted(kept) + Sorted(new')
            && Keep(Sorted(before.uids), Sorted(before.uids), gone) == Sorted(kept)
            && |Keep(view, Sorted(before.uids), gone)| == |Sorted(kept)| == |kept|
            && |Sorted(new')| == |new'|
  {
    var kept, gone, new' := before.uids * after.uids, before.uids - after.uids, after.uids - before.uids;
    assert before.uids - gone == kept && kept + new' == after.uids;
    KeepSorted(before.uids, gone);
    KeepSize(view, Sorted(before.uids), gone);
    AscendingSize(Sorted(kept), kept);
    AscendingSize(Sorted(new'), new');
    SortedAppend(kept, new');
  }

  lemma SlotAfter(view: seq<Slot>, before: Frozen, after: Frozen, v: seq<Slot>, i: nat)
    requires |view| == |Sorted(before.uids)| && NewAbove(before.uids, after.uids)
    requires v == Keep(view, Sorted(before.uids), before.uids - after.uids)
                  + seq(|after.uids - before.uids|, _ => UNTOLD)
    requires i < |v| == |Sorted(after.uids)|
    ensures v[i] == OldSlot(view, Sorted(before.uids), Sorted(after.uids)[i])
  {
    AfterIs(view, before, after);
    var b, a, new' := Sorted(before.uids), Sorted(after.uids), after.uids - before.uids;
    var first := |before.uids * after.uids|;
    if i < first {
      var k := KeepAt(view, b, before.uids - after.uids, i);
      IndexOfAscending(b, k);
    } else {
      assert a[i] == Sorted(new')[i - first] && Sorted(new')[i - first] in new';
      InSorted(before.uids, a[i]);
    }
  }

  /** After EXPUNGE and EXISTS the client's list has moved along with the server's. */
  lemma ReplayNumbers(view: seq<Slot>, before: Frozen, after: Frozen)
    requires |view| == |Sorted(before.uids)| && NewAbove(before.uids, after.uids)
    ensures var v := ReceiveAll(Keep(view, Sorted(before.uids), before.uids - after.uids), Counts(before, after));
            && |v| == |Sorted(after.uids)|
            && forall i :: 0 <= i < |v| ==> v[i] == OldSlot(view, Sorted(before.uids), Sorted(after.uids)[i])
  {
    AfterIs(view, before, after);
    var kept := Keep(view, Sorted(before.uids), before.uids - after.uids);
    ReplayCounts(kept, before, after);
    var v := kept + seq(|after.uids - before.uids|, _ => UNTOLD);
    forall i | 0 <= i < |v| ensures v[i] == OldSlot(view, Sorted(before.uids), Sorted(after.uids)[i]) {
      SlotAfter(view, before, after, v, i);
    }
  }

  /** A client that applies the responses of a fork by position ends up with the server's list, told
      of exactly the messages that the fork reports. */
  lemma ReplayFork(view: seq<Slot>, s: Session, before: Frozen, withUid: bool)
    requires s.prev == Some(before) && !s.isDeleted && |view| == |Sorted(before.uids)|
    requires FetchUids(before, Freeze(s), s) <= s.cache.Keys
    requires NewAbove(before.uids, s.cache.Keys)
    requires s.hideExpunged ==> before.uids <= s.cache.Keys
    ensures Follows(ReceiveAll(view, Responses(s, withUid)), view, s, before, withUid)
  {
    var after := Freeze(s);
    var expunges := if s.hideExpunged then [] else Expunges(before, Sorted(before.uids - after.uids));
    var counts := Counts(before, after);
    var fetches := Fetches(after, s, Sorted(FetchUids(before, after, s)), withUid);
    ReplayLost(view, s, before, expunges);
    ReceiveConcat(view, expunges, counts);
    ReceiveConcat(view, expunges + counts, fetches);
    ReplayNumbers(view, before, after);
    ReplayTold(view, s, before, withUid, ReceiveAll(view, expunges + counts));
  }

  lemma ReplayLost(view: seq<Slot>, s: Session, before: Frozen, expunges: seq<Response>)
    requires |view| == |Sorted(before.uids)| && (s.hideExpunged ==> before.uids <= s.cache.Keys)
    requires expunges == if s.hideExpunged then [] else Expunges(before, Sorted(before.uids - s.cache.Keys))
    ensures ReceiveAll(view, expunges) == Keep(view, Sorted(before.uids), before.uids - s.cache.Keys)
  {
    if s.hideExpunged {
      assert before.uids - s.cache.Keys == {};
      KeepAll(view, Sorted(before.uids));
    } else {
      ReplayGone(view, before, before.uids - s.cache.Keys);
    }
  }

  lemma ReplayTold(view: seq<Slot>, s: Session, before: Frozen, withUid: bool, v: seq<Slot>)
    requires |view| == |Sorted(before.uids)| && FetchUids(before, Freeze(s), s) <= s.cache.Keys
    requires |v| == |Sorted(s.cache.Keys)|
    requires forall i :: 0 <= i < |v| ==> v[i] == OldSlot(view, Sorted(before.uids), Sorted(s.cache.Keys)[i])
    ensures var fetches := Fetches(Freeze(s), s, Sorted(FetchUids(before, Freeze(s), s)), withUid);
            Follows(ReceiveAll(v, fetches), view, s, before, withUid)
  {
    var after, uids := Freeze(s), FetchUids(before, Freeze(s), s);
    var told := ReceiveAll(v, Fetches(after, s, Sorted(uids), withUid));
    forall k | 0 <= k < |Sorted(uids)| ensures Sorted(uids)[k] in after.uids {
      assert Sorted(uids)[k] in uids;
    }
    SameSize(v, Fetches(after, s, Sorted(uids), withUid));
    forall i | 0 <= i < |v| ensures told[i] == NewSlot(view, s, before, withUid, Sorted(after.uids)[i]) {
      ReplayFetches(v, after, s, Sorted(uids), withUid, i);
      InSorted(uids, Sorted(after.uids)[i]);
    }
  }

  lemma {:induction false} SameSize(view: seq<Slot>, responses: seq<Response>)
    requires forall i :: 0 <= i < |responses| ==> responses[i].Fetch?
    ensures |ReceiveAll(view, responses)| == |view|
    decreases |responses|
  {
    if responses != [] {
      SameSize(Receive(view, responses[0]), responses[1..]);
    }
  }
}
