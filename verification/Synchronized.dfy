/** The messages a client has been told about: five structures kept in step. */
module Synchronized {
  import opened Collections
  import opened Flags
  import opened SequenceSets

  /** A message's flags key is its UID with its permanent flags. */
  type FlagsKey = (int, set<Flag>)

  datatype Message = Message(uid: int, flags: set<Flag>, recent: bool, expunged: bool, content: int) {
    function Key(): FlagsKey {
      (uid, flags)
    }
  }

  type Cache = map<int, Message>

  ghost predicate KeyedByUid(cache: Cache) {
    forall u :: u in cache ==> cache[u].uid == u
  }

  /** The messages by UID; of two with the same UID the later counts. */
  ghost function ByUid(messages: seq<Message>): Cache {
    if messages == [] then map[]
    else
      var last := messages[|messages| - 1];
      ByUid(messages[..|messages| - 1])[last.uid := last]
  }

  /** Every message numbered by its place in the ascending list, from 1. */
  function Numbering(sorted: seq<int>): map<int, int> {
    map u | u in sorted :: IndexOf(sorted, u) + 1
  }

  ghost function KeyMap(cache: Cache): map<int, FlagsKey> {
    map u | u in cache :: cache[u].Key()
  }

  ghost function FlagsKeys(cache: Cache): set<FlagsKey> {
    set u | u in cache :: cache[u].Key()
  }

  /** The numbered entries of an ascending list that a sequence set picks, by UID or by number. */
  function Select(sorted: seq<int>, byUid: bool, chosen: set<int>, first: int): seq<(int, int)> {
    if sorted == [] then []
    else
      var rest := Select(sorted[1..], byUid, chosen, first + 1);
      if (if byUid then sorted[0] else first) in chosen then [(first, sorted[0])] + rest else rest
  }

  ghost predicate Picks(sorted: seq<int>, byUid: bool, chosen: set<int>, first: int, n: int) {
    first <= n < first + |sorted| && (if byUid then sorted[n - first] else n) in chosen
  }

  lemma {:induction false} SelectSound(sorted: seq<int>, byUid: bool, chosen: set<int>, first: int, i: nat)
    requires i < |Select(sorted, byUid, chosen, first)|
    ensures var (n, u) := Select(sorted, byUid, chosen, first)[i];
            Picks(sorted, byUid, chosen, first, n) && u == sorted[n - first]
  {
    var here := (if byUid then sorted[0] else first) in chosen;
    if i > 0 || !here {
      SelectSound(sorted[1..], byUid, chosen, first + 1, if here then i - 1 else i);
    }
  }

  lemma {:induction false} SelectComplete(sorted: seq<int>, byUid: bool, chosen: set<int>, first: int, n: int)
    requires Picks(sorted, byUid, chosen, first, n)
    ensures (n, sorted[n - first]) in Select(sorted, byUid, chosen, first)
  {
    var r := Select(sorted, byUid, chosen, first);
    if n == first {
      assert r[0] == (n, sorted[0]);
    } else {
      SelectComplete(sorted[1..], byUid, chosen, first + 1, n);
      var rest := Select(sorted[1..], byUid, chosen, first + 1);
      assert (n, sorted[n - first]) in rest;
    }
  }

  lemma {:induction false} SelectAscends(sorted: seq<int>, byUid: bool, chosen: set<int>, first: int, i: nat, j: nat)
    requires i < j < |Select(sorted, byUid, chosen, first)|
    ensures Select(sorted, byUid, chosen, first)[i].0 < Select(sorted, byUid, chosen, first)[j].0
  {
    if (if byUid then sorted[0] else first) in chosen {
      if i == 0 {
        SelectSound(sorted[1..], byUid, chosen, first + 1, j - 1);
      } else {
        SelectAscends(sorted[1..], byUid, chosen, first + 1, i - 1, j - 1);
      }
    } else {
      SelectAscends(sorted[1..], byUid, chosen, first + 1, i, j);
    }
  }

  /** The selected messages with their numbers. */
  function Attach(picked: seq<(int, int)>, cache: Cache): seq<(int, Message)>
    requires forall i :: 0 <= i < |picked| ==> picked[i].1 in cache
  {
    if picked == [] then [] else [(picked[0].0, cache[picked[0].1])] + Attach(picked[1..], cache)
  }

  lemma {:induction false} AttachedAre(picked: seq<(int, int)>, cache: Cache)
    requires forall i :: 0 <= i < |picked| ==> picked[i].1 in cache
    ensures |Attach(picked, cache)| == |picked|
    ensures forall i :: 0 <= i < |picked| ==> Attach(picked, cache)[i] == (picked[i].0, cache[picked[i].1])
  {
    if picked != [] {
      AttachedAre(picked[1..], cache);
    }
  }

  /** A member's place in the ascending list is the number of members below it. */
  lemma PlaceIs(uids: set<int>, u: int)
    requires u in uids && u in Sorted(uids)
    ensures IndexOf(Sorted(uids), u) == |set v | v in uids && v < u|
  {
    var sorted, k := Sorted(uids), IndexOf(Sorted(uids), u);
    var below := set v | v in uids && v < u;
    forall v ensures v in below <==> v in sorted[..k] {
      InSorted(uids, v);
      if v in below {
        assert sorted[IndexOf(sorted, v)] == v;
        assert IndexOf(sorted, v) < k;
        assert v == sorted[..k][IndexOf(sorted, v)];
      }
    }
    AscendingSize(sorted[..k], below);
  }

  class SynchronizedMessages {
    var uids: set<int>
    var sorted: seq<int>
    var seqsCache: map<int, int>
    var cache: Cache
    var flagsKeyMap: map<int, FlagsKey>
    var flagsKeySet: set<FlagsKey>
    var pendingRemove: set<int>

    ghost predicate Valid()
      reads this
    {
      && KeyedByUid(cache)
      && uids == cache.Keys
      && sorted == Sorted(uids)
      && seqsCache == Numbering(sorted)
      && flagsKeyMap == KeyMap(cache)
      && flagsKeySet == FlagsKeys(cache)
    }

    constructor ()
      ensures Valid() && cache == map[] && pendingRemove == {}
    {
      uids, sorted, seqsCache, cache := {}, [], map[], map[];
      flagsKeyMap, flagsKeySet, pendingRemove := map[], {}, {};
      new;
      SortedIs([], {});
    }

    function Exists(): int
      reads this
    {
      |uids|
    }

    function MaxUid(): int
      reads this
    {
      if sorted == [] then 0 else sorted[|sorted| - 1]
    }

    function GetUids(seqSet: SequenceSet): seq<(int, int)>
      reads this
    {
      if seqSet.uid then
        Select(sorted, true, Flatten(seqSet, MaxUid()) * uids, 1)
      else
        Select(sorted, false, Flatten(seqSet, Exists()), 1)
    }

    function GetAll(seqSet: SequenceSet): seq<(int, Message)>
      requires Valid()
      reads this
    {
      PickedAreCached(seqSet);
      Attach(GetUids(seqSet), cache)
    }

    lemma PickedAreCached(seqSet: SequenceSet)
      requires Valid()
      ensures forall i :: 0 <= i < |GetUids(seqSet)| ==> GetUids(seqSet)[i].1 in cache
    {
      var chosen := if seqSet.uid then Flatten(seqSet, MaxUid()) * uids else Flatten(seqSet, Exists());
      forall i | 0 <= i < |GetUids(seqSet)| ensures GetUids(seqSet)[i].1 in cache {
        SelectSound(sorted, seqSet.uid, chosen, 1, i);
        assert sorted[GetUids(seqSet)[i].0 - 1] in uids;
      }
    }

    lemma PickedAscend(seqSet: SequenceSet)
      requires Valid()
      ensures forall i, j :: 0 <= i < j < |GetUids(seqSet)| ==> GetUids(seqSet)[i].1 < GetUids(seqSet)[j].1
    {
      var chosen := if seqSet.uid then Flatten(seqSet, MaxUid()) * uids else Flatten(seqSet, Exists());
      var r := GetUids(seqSet);
      forall i, j | 0 <= i < j < |r| ensures r[i].1 < r[j].1 {
        SelectAscends(sorted, seqSet.uid, chosen, 1, i, j);
        SelectSound(sorted, seqSet.uid, chosen, 1, i);
        SelectSound(sorted, seqSet.uid, chosen, 1, j);
      }
    }

    /** Exactly these pairs are picked: each cached message with its number, one more than there are
        cached UIDs below its own, if the set contains its UID, `*` being the greatest one, or its number,
        `*` being how many there are. */
    lemma PickedExactly(seqSet: SequenceSet, greatest: int, n: int, u: int)
      requires Valid() && (cache != map[] ==> greatest in cache && forall v :: v in cache ==> v <= greatest)
      ensures (n, u) in GetUids(seqSet) <==>
              && u in cache && n == 1 + |set v | v in cache && v < u|
              && (if seqSet.uid then u in Flatten(seqSet, greatest) else n in Flatten(seqSet, |cache|))
    {
      GreatestIsLast(greatest);
      if u in cache {
        PickedIf(seqSet, u);
      }
      if (n, u) in GetUids(seqSet) {
        PickedOnlyIf(seqSet, n, u);
      }
    }

    lemma PickedIf(seqSet: SequenceSet, u: int)
      requires Valid() && u in cache
      ensures var n := 1 + |set v | v in cache && v < u|;
              (if seqSet.uid then u in Flatten(seqSet, MaxUid()) else n in Flatten(seqSet, Exists())) ==>
                (n, u) in GetUids(seqSet)
    {
      var chosen := if seqSet.uid then Flatten(seqSet, MaxUid()) * uids else Flatten(seqSet, Exists());
      InSorted(uids, u);
      PlaceIs(uids, u);
      var k := IndexOf(sorted, u);
      assert (set v | v in uids && v < u) == set v | v in cache && v < u;
      if (if seqSet.uid then u else k + 1) in chosen {
        SelectComplete(sorted, seqSet.uid, chosen, 1, k + 1);
      }
    }

    lemma PickedOnlyIf(seqSet: SequenceSet, n: int, u: int)
      requires Valid() && (n, u) in GetUids(seqSet)
      ensures u in cache && n == 1 + |set v | v in cache && v < u|
      ensures if seqSet.uid then u in Flatten(seqSet, MaxUid()) else n in Flatten(seqSet, Exists())
    {
      var chosen := if seqSet.uid then Flatten(seqSet, MaxUid()) * uids else Flatten(seqSet, Exists());
      var i :| 0 <= i < |GetUids(seqSet)| && GetUids(seqSet)[i] == (n, u);
      SelectSound(sorted, seqSet.uid, chosen, 1, i);
      InSorted(uids, u);
      IndexOfAscending(sorted, n - 1);
      PlaceIs(uids, u);
      assert (set v | v in uids && v < u) == set v | v in cache && v < u;
    }

    lemma GreatestIsLast(greatest: int)
      requires Valid() && (cache != map[] ==> greatest in cache && forall v :: v in cache ==> v <= greatest)
      ensures |uids| == |cache| && (cache != map[] ==> MaxUid() == greatest)
    {
      if cache != map[] {
        InSorted(uids, greatest);
        var last := sorted[|sorted| - 1];
        assert last in sorted;
        InSorted(uids, last);
      }
    }

    /** Each picked pair comes with the message cached under its UID. */
    lemma AllPicked(seqSet: SequenceSet)
      requires Valid()
      ensures |GetAll(seqSet)| == |GetUids(seqSet)|
      ensures forall i :: 0 <= i < |GetAll(seqSet)| ==>
                && GetUids(seqSet)[i].1 in cache
                && GetAll(seqSet)[i] == (GetUids(seqSet)[i].0, cache[GetUids(seqSet)[i].1])
    {
      PickedAreCached(seqSet);
      AttachedAre(GetUids(seqSet), cache);
    }

    /** Everything in step but the sequence numbers. */
    ghost predicate Indexed()
      reads this
    {
      && KeyedByUid(cache)
      && uids == cache.Keys
      && sorted == Sorted(uids)
      && flagsKeyMap == KeyMap(cache)
      && flagsKeySet == FlagsKeys(cache)
      && seqsCache.Keys <= uids
    }

    /** The first `count` messages carry the right sequence numbers. */
    ghost predicate Numbered(count: nat)
      reads this
    {
      && count <= |sorted|
      && forall j :: 0 <= j < count ==> sorted[j] in seqsCache && seqsCache[sorted[j]] == j + 1
    }

    /** Takes in one message; gives the place of a UID that was not there before. */
    method UpdateOne(msg: Message, ghost count: nat) returns (place: Option<nat>)
      requires Indexed() && Numbered(count)
      modifies this
      ensures Indexed()
      ensures cache == old(cache)[msg.uid := msg]
      ensures pendingRemove == old(pendingRemove)
      ensures place.None? ==> sorted == old(sorted)
      ensures Numbered(if place.Some? && place.value < count then place.value else count)
      ensures place.Some? ==> place.value <= |old(sorted)| && |sorted| == |old(sorted)| + 1
    {
      place := None;
      if msg.uid !in uids {
        var idx := BisectRight(sorted, msg.uid);
        SortedInsert(uids, msg.uid);
        place := Some(idx);
        uids := uids + {msg.uid};
        sorted := sorted[..idx] + [msg.uid] + sorted[idx..];
      }
      PutKey(msg);
    }

    /** Replaces the message's flags key in the set and in the map. */
    method PutKey(msg: Message)
      requires KeyedByUid(cache) && flagsKeyMap == KeyMap(cache) && flagsKeySet == FlagsKeys(cache)
      modifies this`cache, this`flagsKeyMap, this`flagsKeySet
      ensures cache == old(cache)[msg.uid := msg]
      ensures flagsKeyMap == KeyMap(cache) && flagsKeySet == FlagsKeys(cache)
    {
      FlagsKeysPut(cache, msg);
      cache := cache[msg.uid := msg];
      if msg.uid in flagsKeyMap {
        flagsKeySet := flagsKeySet - {flagsKeyMap[msg.uid]};
      }
      flagsKeyMap := flagsKeyMap[msg.uid := msg.Key()];
      flagsKeySet := flagsKeySet + {msg.Key()};
    }

    method Update(messages: seq<Message>)
      requires Valid()
      modifies this
      ensures Valid()
      ensures cache == old(cache) + ByUid(messages)
      ensures pendingRemove == old(pendingRemove)
    {
      NumberingIs(sorted, seqsCache);
      var lowestIdx := UpdateAll(messages);
      if lowestIdx.Some? {
        Renumber(lowestIdx.value);
      }
      NumberingIs(sorted, seqsCache);
    }

    /** The loop of `Update`; gives the lowest place where a message was inserted. */
    method UpdateAll(messages: seq<Message>) returns (lowestIdx: Option<nat>)
      requires Indexed() && Numbered(|sorted|)
      modifies this
      ensures Indexed() && Numbered(if lowestIdx.Some? then lowestIdx.value else |sorted|)
      ensures cache == old(cache) + ByUid(messages)
      ensures pendingRemove == old(pendingRemove)
    {
      lowestIdx := None;
      ghost var count: nat := |sorted|;
      for i := 0 to |messages|
        invariant Indexed() && Numbered(count)
        invariant count == if lowestIdx.Some? then lowestIdx.value else |sorted|
        invariant cache == old(cache) + ByUid(messages[..i])
        invariant pendingRemove == old(pendingRemove)
      {
        ByUidNext(old(cache), messages, i);
        var place := UpdateOne(messages[i], count);
        count := if place.Some? && place.value < count then place.value else count;
        if place.Some? && (lowestIdx.None? || lowestIdx.value > place.value) {
          lowestIdx := place;
        }
      }
      assert messages[..|messages|] == messages;
    }

    method Remove(removed: seq<int>, pending: bool)
      requires Valid()
      modifies this
      ensures Valid()
      ensures pending ==> cache == old(cache) && pendingRemove == old(pendingRemove) + Elements(removed)
      ensures !pending ==> cache == old(cache) - (Elements(removed) + old(pendingRemove)) && pendingRemove == {}
    {
      if pending {
        pendingRemove := pendingRemove + Elements(removed);
      } else {
        var deferred := Iterate(pendingRemove);
        ElementsConcat(removed, deferred);
        var anyRemoved := RemoveAll(removed + deferred);
        pendingRemove := {};
        if anyRemoved {
          sorted := Sort(uids);
          seqsCache := Numbering(sorted);
        }
      }
    }

    /** All but the numbers, which the loop of `Remove` leaves for its end. */
    ghost predicate Keyed()
      reads this
    {
      && KeyedByUid(cache) && uids == cache.Keys
      && flagsKeyMap == KeyMap(cache) && flagsKeySet == FlagsKeys(cache)
    }

    /** The loop of `Remove`. */
    method RemoveAll(all: seq<int>) returns (anyRemoved: bool)
      requires Keyed()
      modifies this`uids, this`flagsKeySet, this`flagsKeyMap, this`cache
      ensures Keyed() && cache == old(cache) - Elements(all)
      ensures !anyRemoved ==> cache == old(cache)
    {
      anyRemoved := false;
      for i := 0 to |all|
        invariant Keyed() && cache == old(cache) - Elements(all[..i])
        invariant !anyRemoved ==> cache == old(cache)
      {
        CutNext(old(cache), all, i);
        if all[i] in uids {
          RemoveOne(all[i]);
          anyRemoved := true;
        }
      }
      assert all[..|all|] == all;
    }

    method RemoveOne(uid: int)
      requires Keyed() && uid in uids
      modifies this`uids, this`flagsKeySet, this`flagsKeyMap, this`cache
      ensures Keyed() && cache == old(cache) - {uid}
    {
      FlagsKeysDrop(cache, uid);
      uids := uids - {uid};
      var flagsKey := flagsKeyMap[uid];
      assert flagsKey in flagsKeySet;
      flagsKeySet := flagsKeySet - {flagsKey};
      flagsKeyMap := flagsKeyMap - {uid};
      cache := cache - {uid};
    }

    /** Numbers the messages from place `lowest` on. */
    method Renumber(lowest: nat)
      requires Indexed() && Numbered(lowest)
      modifies this`seqsCache
      ensures Indexed() && Numbered(|sorted|)
    {
      for i := lowest to |sorted|
        invariant Indexed() && Numbered(i)
      {
        seqsCache := seqsCache[sorted[i] := i + 1];
      }
    }
  }

  lemma CutNext(base: Cache, all: seq<int>, i: nat)
    requires i < |all|
    ensures base - Elements(all[..i + 1]) == base - Elements(all[..i]) - {all[i]}
    ensures all[i] !in base - Elements(all[..i]) ==> base - Elements(all[..i + 1]) == base - Elements(all[..i])
  {
    assert all[..i + 1] == all[..i] + [all[i]];
    ElementsConcat(all[..i], [all[i]]);
  }

  lemma ByUidNext(base: Cache, messages: seq<Message>, i: nat)
    requires i < |messages|
    ensures base + ByUid(messages[..i + 1]) == (base + ByUid(messages[..i]))[messages[i].uid := messages[i]]
  {
    assert messages[..i + 1][..i] == messages[..i];
  }

  lemma KeyOf(cache: Cache, u: int)
    requires u in cache
    ensures cache[u].Key() in FlagsKeys(cache)
  {
  }

  lemma KeyIn(cache: Cache, key: FlagsKey)
    requires KeyedByUid(cache)
    ensures key in FlagsKeys(cache) <==> key.0 in cache && cache[key.0].flags == key.1
  {
    if key.0 in cache {
      KeyOf(cache, key.0);
    }
  }

  lemma FlagsKeysPut(cache: Cache, msg: Message)
    requires KeyedByUid(cache)
    ensures FlagsKeys(cache[msg.uid := msg]) ==
            (if msg.uid in cache then FlagsKeys(cache) - {cache[msg.uid].Key()} else FlagsKeys(cache)) + {msg.Key()}
  {
    var after := FlagsKeys(cache[msg.uid := msg]);
    var expected :=
      (if msg.uid in cache then FlagsKeys(cache) - {cache[msg.uid].Key()} else FlagsKeys(cache)) + {msg.Key()};
    forall key: FlagsKey ensures key in after <==> key in expected {
      KeyIn(cache, key);
      KeyIn(cache[msg.uid := msg], key);
    }
  }

  lemma FlagsKeysDrop(cache: Cache, uid: int)
    requires KeyedByUid(cache) && uid in cache
    ensures cache[uid].Key() in FlagsKeys(cache)
    ensures FlagsKeys(cache - {uid}) == FlagsKeys(cache) - {cache[uid].Key()}
  {
    KeyOf(cache, uid);
    forall key: FlagsKey ensures key in FlagsKeys(cache - {uid}) <==> key in FlagsKeys(cache) - {cache[uid].Key()} {
      KeyIn(cache, key);
      KeyIn(cache - {uid}, key);
    }
  }

  /** A cache of sequence numbers is the numbering of the list as soon as it is right at each place. */
  lemma NumberingIs(sorted: seq<int>, numbers: map<int, int>)
    requires Ascending(sorted)
    requires forall u :: u in numbers ==> u in sorted
    ensures numbers == Numbering(sorted) <==>
            forall j :: 0 <= j < |sorted| ==> sorted[j] in numbers && numbers[sorted[j]] == j + 1
  {
    if numbers == Numbering(sorted) {
      forall j | 0 <= j < |sorted| ensures sorted[j] in numbers && numbers[sorted[j]] == j + 1 {
        IndexOfAscending(sorted, j);
      }
    }
    if forall j :: 0 <= j < |sorted| ==> sorted[j] in numbers && numbers[sorted[j]] == j + 1 {
      forall u | u in sorted ensures u in numbers && numbers[u] == IndexOf(sorted, u) + 1 {
        assert u == sorted[IndexOf(sorted, u)];
      }
      assert forall u :: u in numbers <==> u in Numbering(sorted);
    }
  }
}
