/** Searching a mailbox: only the messages of one sequence set are visited, and only as much of
    their content is loaded as the keys need. */
module Search {
  import opened Collections
  import opened SequenceSets
  import opened Synchronized
  import opened SearchCriteria
  import Flags

  /** The first criterion that is a sequence set itself, or all messages. */
  function SequenceSetOf(all: seq<Criteria>): SequenceSet {
    if all == [] then AllSequences(false)
    else if all[0].SequenceSetCriteria? then all[0].seqSet
    else SequenceSetOf(all[1..])
  }

  // ----- The search

  /** A mailbox gives the message that is asked for, or none. */
  type Getter = Message -> Option<Stored>

  ghost predicate GetsByUid(get: Getter) {
    forall m :: get(m).Some? ==> get(m).value.uid == m.uid
  }

  /** What a search is given besides the messages and the keys. */
  datatype Setting = Setting(
    disabled: set<KeyName>, sessionFlags: map<int, set<Flags.Flag>>, recent: set<int>, encode: string -> string,
    backend: Backend)

  function ParamsOf(messages: SynchronizedMessages, setting: Setting): Params
    requires messages.Valid()
    reads messages
  {
    Params(messages.Exists(), messages.MaxUid(), setting.disabled, setting.sessionFlags, setting.recent, setting.encode)
  }

  function Finding(entries: seq<(int, Message)>, get: Getter, all: seq<Criteria>, params: Params,
                   backend: Backend, requirement: Requirement): seq<(int, Stored)>
  {
    if entries == [] then []
    else
      var (seqNum, cached) := entries[0];
      var rest := Finding(entries[1..], get, all, params, backend, requirement);
      match get(cached)
      case None => rest
      case Some(msg) =>
        if MatchesAll(all, params, seqNum, msg, Load(backend, msg, requirement)) then [(seqNum, msg)] + rest else rest
  }

  function Searching(messages: SynchronizedMessages, get: Getter, keys: seq<SearchKey>, setting: Setting)
    : Result<seq<(int, Stored)>, SearchError>
    requires messages.Valid()
    reads messages
  {
    var params := ParamsOf(messages, setting);
    match OfAll(keys, params)
    case Failure(e) => Failure(e)
    case Success(all) =>
      Success(Finding(messages.GetAll(SequenceSetOf(all)), get, all, params, setting.backend, RequiredAll(keys)))
  }

  method SearchMailbox(messages: SynchronizedMessages, get: Getter, keys: seq<SearchKey>, setting: Setting)
    returns (r: Result<seq<(int, Stored)>, SearchError>)
    requires messages.Valid()
    ensures r == Searching(messages, get, keys, setting)
  {
    var requirement := RequiredAll(keys);
    var params := ParamsOf(messages, setting);
    var all := OfAll(keys, params);
    if all.Failure? {
      return Failure(all.error);
    }
    var ret := Visit(messages.GetAll(SequenceSetOf(all.value)), get, all.value, params, setting.backend, requirement);
    return Success(ret);
  }

  method Visit(entries: seq<(int, Message)>, get: Getter, all: seq<Criteria>, params: Params, backend: Backend,
               requirement: Requirement)
    returns (ret: seq<(int, Stored)>)
    ensures ret == Finding(entries, get, all, params, backend, requirement)
  {
    ret := [];
    ghost var expected := Finding(entries, get, all, params, backend, requirement);
    assert entries[0..] == entries;
    for i := 0 to |entries|
      invariant expected == ret + Finding(entries[i..], get, all, params, backend, requirement)
    {
      assert entries[i..][1..] == entries[i + 1..];
      var (seqNum, cached) := entries[i];
      var msg := get(cached);
      if msg.Some? {
        var content := Load(backend, msg.value, requirement);
        if MatchesAll(all, params, seqNum, msg.value, content) {
          ret := ret + [(seqNum, msg.value)];
        }
      }
    }
    assert entries[|entries|..] == [];
  }

  // ----- What a search means

  /** The messages found by testing every one with its whole content. */
  function Satisfying(entries: seq<(int, Message)>, get: Getter, keys: seq<SearchKey>, params: Params)
    : seq<(int, Stored)>
  {
    if entries == [] then []
    else
      var (seqNum, cached) := entries[0];
      var rest := Satisfying(entries[1..], get, keys, params);
      match get(cached)
      case None => rest
      case Some(msg) =>
        if HoldAll(keys, params, seqNum, msg) then [(seqNum, msg)] + rest else rest
  }

  /** Loading on demand does not change which of the visited messages are found. */
  lemma {:induction false} FindingSatisfies(entries: seq<(int, Message)>, get: Getter, keys: seq<SearchKey>,
                                            params: Params, all: seq<Criteria>, backend: Backend)
    requires OfAll(keys, params) == Success(all)
    ensures Finding(entries, get, all, params, backend, RequiredAll(keys)) == Satisfying(entries, get, keys, params)
  {
    if entries != [] {
      FindingSatisfies(entries[1..], get, keys, params, all, backend);
      var (seqNum, cached) := entries[0];
      var msg := get(cached);
      if msg.Some? {
        KeysMatchIsHold(keys, params, all, backend, seqNum, msg.value);
      }
    }
  }

  /** The sequence set to visit is one of the keys that must hold, or all messages. */
  lemma {:induction false} SequenceSetIsKey(keys: seq<SearchKey>, params: Params, all: seq<Criteria>)
    returns (i: nat)
    requires OfAll(keys, params) == Success(all)
    ensures SequenceSetOf(all) == AllSequences(false) ||
            (i < |keys| && keys[i] == SearchKey(SeqSet(SequenceSetOf(all)), false))
  {
    i := 0;
    if keys != [] {
      if all[0].SequenceSetCriteria? {
        SequenceSetOnly(keys[0], params, all[0]);
      } else {
        assert OfAll(keys[1..], params) == Success(all[1..]);
        i := SequenceSetIsKey(keys[1..], params, all[1..]);
        i := i + 1;
      }
    }
  }

  lemma SequenceSetOnly(key: SearchKey, params: Params, c: Criteria)
    requires Of(key, params) == Success(c) && c.SequenceSetCriteria?
    ensures key == SearchKey(SeqSet(c.seqSet), false)
  {
  }

  /** Every entry of the list with its number. */
  function Everything(sorted: seq<int>, cache: Cache, first: int): seq<(int, Message)>
    requires forall i :: 0 <= i < |sorted| ==> sorted[i] in cache
  {
    if sorted == [] then [] else [(first, cache[sorted[0]])] + Everything(sorted[1..], cache, first + 1)
  }

  /** An entry that is not chosen would not be found. */
  ghost predicate Skippable(sorted: seq<int>, cache: Cache, first: int, byUid: bool, chosen: set<int>, get: Getter,
                            keys: seq<SearchKey>, params: Params)
    requires forall i :: 0 <= i < |sorted| ==> sorted[i] in cache
  {
    forall i :: 0 <= i < |sorted| && (if byUid then sorted[i] else first + i) !in chosen ==>
      get(cache[sorted[i]]).None? || !HoldAll(keys, params, first + i, get(cache[sorted[i]]).value)
  }

  /** Leaving such entries out does not change what is found. */
  lemma {:induction false} SkippingIsSafe(sorted: seq<int>, cache: Cache, first: int, byUid: bool, chosen: set<int>,
                                          get: Getter, keys: seq<SearchKey>, params: Params)
    requires forall i :: 0 <= i < |sorted| ==> sorted[i] in cache
    requires Skippable(sorted, cache, first, byUid, chosen, get, keys, params)
    ensures forall i :: 0 <= i < |Select(sorted, byUid, chosen, first)| ==>
              Select(sorted, byUid, chosen, first)[i].1 in cache
    ensures Satisfying(Attach(Select(sorted, byUid, chosen, first), cache), get, keys, params) ==
            Satisfying(Everything(sorted, cache, first), get, keys, params)
    decreases |sorted|
  {
    if sorted != [] {
      SkippableRest(sorted, cache, first, byUid, chosen, get, keys, params);
      SkippingIsSafe(sorted[1..], cache, first + 1, byUid, chosen, get, keys, params);
      SkipOne(sorted, cache, first, byUid, chosen, get, keys, params,
              Select(sorted[1..], byUid, chosen, first + 1), Everything(sorted[1..], cache, first + 1));
    }
  }

  lemma SkippableRest(sorted: seq<int>, cache: Cache, first: int, byUid: bool, chosen: set<int>,
                      get: Getter, keys: seq<SearchKey>, params: Params)
    requires sorted != [] && forall i :: 0 <= i < |sorted| ==> sorted[i] in cache
    requires Skippable(sorted, cache, first, byUid, chosen, get, keys, params)
    ensures Skippable(sorted[1..], cache, first + 1, byUid, chosen, get, keys, params)
  {
    forall i | 0 <= i < |sorted[1..]| && (if byUid then sorted[1..][i] else first + 1 + i) !in chosen
      ensures get(cache[sorted[1..][i]]).None? ||
              !HoldAll(keys, params, first + 1 + i, get(cache[sorted[1..][i]]).value)
    {
      assert sorted[1..][i] == sorted[i + 1] && first + 1 + i == first + (i + 1);
    }
  }

  lemma SkipOne(sorted: seq<int>, cache: Cache, first: int, byUid: bool, chosen: set<int>, get: Getter,
                keys: seq<SearchKey>, params: Params, picked: seq<(int, int)>, rest: seq<(int, Message)>)
    requires sorted != [] && forall i :: 0 <= i < |sorted| ==> sorted[i] in cache
    requires Skippable(sorted, cache, first, byUid, chosen, get, keys, params)
    requires picked == Select(sorted[1..], byUid, chosen, first + 1)
    requires forall i :: 0 <= i < |picked| ==> picked[i].1 in cache
    requires Satisfying(Attach(picked, cache), get, keys, params) == Satisfying(rest, get, keys, params)
    ensures var all := Select(sorted, byUid, chosen, first);
            (forall i :: 0 <= i < |all| ==> all[i].1 in cache) &&
            Satisfying(Attach(all, cache), get, keys, params) ==
            Satisfying([(first, cache[sorted[0]])] + rest, get, keys, params)
  {
    var entry := (first, cache[sorted[0]]);
    assert ([entry] + rest)[1..] == rest;
    if (if byUid then sorted[0] else first) in chosen {
      var all := [(first, sorted[0])] + picked;
      assert all[1..] == picked;
      assert ([entry] + Attach(picked, cache))[1..] == Attach(picked, cache);
    } else {
      assert get(cache[sorted[0]]).None? || !HoldAll(keys, params, first + 0, get(cache[sorted[0]]).value);
    }
  }

  ghost predicate Listing(messages: SynchronizedMessages)
    reads messages
  {
    forall i :: 0 <= i < |messages.sorted| ==>
      messages.sorted[i] in messages.cache && messages.cache[messages.sorted[i]].uid == messages.sorted[i]
  }

  lemma ListingHolds(messages: SynchronizedMessages)
    requires messages.Valid()
    ensures Listing(messages) && messages.Exists() == |messages.sorted|
  {
    AscendingSize(messages.sorted, messages.uids);
  }

  /** The optimised search finds what testing every message with its whole content finds. */
  lemma SearchIsExhaustive(messages: SynchronizedMessages, get: Getter, keys: seq<SearchKey>, setting: Setting)
    requires messages.Valid() && GetsByUid(get)
    ensures Listing(messages)
    ensures var params := ParamsOf(messages, setting);
            var found := Searching(messages, get, keys, setting);
            found.Success? ==>
              found.value == Satisfying(Everything(messages.sorted, messages.cache, 1), get, keys, params)
  {
    ListingHolds(messages);
    var params := ParamsOf(messages, setting);
    if OfAll(keys, params).Success? {
      var all := OfAll(keys, params).value;
      var s := SequenceSetOf(all);
      FindingSatisfies(messages.GetAll(s), get, keys, params, all, setting.backend);
      var chosen := if s.uid then Flatten(s, messages.MaxUid()) * messages.uids else Flatten(s, messages.Exists());
      SearchSkips(messages, get, keys, params, all, chosen);
      SkippingIsSafe(messages.sorted, messages.cache, 1, s.uid, chosen, get, keys, params);
    }
  }

  lemma SearchSkips(messages: SynchronizedMessages, get: Getter, keys: seq<SearchKey>, params: Params,
                    all: seq<Criteria>, chosen: set<int>)
    requires messages.Valid() && GetsByUid(get) && Listing(messages)
    requires params.maxSeq == messages.Exists() == |messages.sorted| && params.maxUid == messages.MaxUid()
    requires OfAll(keys, params) == Success(all)
    requires var s := SequenceSetOf(all);
             chosen == if s.uid then Flatten(s, messages.MaxUid()) * messages.uids else Flatten(s, messages.Exists())
    ensures Skippable(messages.sorted, messages.cache, 1, SequenceSetOf(all).uid, chosen, get, keys, params)
  {
    var s := SequenceSetOf(all);
    var owner := SequenceSetIsKey(keys, params, all);
    forall i | 0 <= i < |messages.sorted| && (if s.uid then messages.sorted[i] else 1 + i) !in chosen
      ensures get(messages.cache[messages.sorted[i]]).None? ||
              !HoldAll(keys, params, 1 + i, get(messages.cache[messages.sorted[i]]).value)
    {
      var cached := messages.cache[messages.sorted[i]];
      if get(cached).Some? {
        assert HoldAll(keys, params, 1 + i, get(cached).value) && owner < |keys| ==>
                 Holds(keys[owner], params, 1 + i, get(cached).value);
      }
    }
  }

  lemma {:induction false} OfAllFails(keys: seq<SearchKey>, params: Params)
    ensures OfAll(keys, params).Failure? <==> exists i :: 0 <= i < |keys| && Of(keys[i], params).Failure?
  {
    if keys != [] {
      OfAllFails(keys[1..], params);
      assert forall i :: 0 < i < |keys| ==> keys[i] == keys[1..][i - 1];
    }
  }

  lemma {:induction false} EverythingAt(sorted: seq<int>, cache: Cache, first: int)
    requires forall i :: 0 <= i < |sorted| ==> sorted[i] in cache
    ensures |Everything(sorted, cache, first)| == |sorted|
    ensures forall i :: 0 <= i < |sorted| ==> Everything(sorted, cache, first)[i] == (first + i, cache[sorted[i]])
  {
    if sorted != [] {
      EverythingAt(sorted[1..], cache, first + 1);
    }
  }

  ghost predicate FoundAt(entries: seq<(int, Message)>, get: Getter, keys: seq<SearchKey>, params: Params,
                          i: int, n: int, msg: Stored)
  {
    0 <= i < |entries| && entries[i].0 == n && get(entries[i].1) == Some(msg) && HoldAll(keys, params, n, msg)
  }

  lemma {:induction false} SatisfyingHas(
    entries: seq<(int, Message)>, get: Getter, keys: seq<SearchKey>, params: Params, n: int, msg: Stored)
    ensures (n, msg) in Satisfying(entries, get, keys, params) <==>
            exists i :: FoundAt(entries, get, keys, params, i, n, msg)
  {
    if entries != [] {
      var rest := entries[1..];
      SatisfyingHas(rest, get, keys, params, n, msg);
      if i :| FoundAt(rest, get, keys, params, i, n, msg) {
        assert FoundAt(entries, get, keys, params, i + 1, n, msg);
      }
      if i :| FoundAt(entries, get, keys, params, i, n, msg) {
        assert i > 0 ==> FoundAt(rest, get, keys, params, i - 1, n, msg);
      }
      if FoundAt(entries, get, keys, params, 0, n, msg) {
        assert Satisfying(entries, get, keys, params)[0] == (n, msg);
      }
    }
  }

  ghost predicate AscendsFrom(found: seq<(int, Stored)>, least: int) {
    && (forall i, j :: 0 <= i < j < |found| ==> found[i].0 < found[j].0)
    && (forall i :: 0 <= i < |found| ==> least <= found[i].0)
  }

  lemma AscendsCons(first: (int, Stored), rest: seq<(int, Stored)>)
    requires AscendsFrom(rest, first.0 + 1)
    ensures AscendsFrom([first] + rest, first.0)
  {
  }

  lemma {:induction false} SatisfyingAscends(
    entries: seq<(int, Message)>, get: Getter, keys: seq<SearchKey>, params: Params, least: int)
    requires forall i, j :: 0 <= i < j < |entries| ==> entries[i].0 < entries[j].0
    requires forall i :: 0 <= i < |entries| ==> least <= entries[i].0
    ensures AscendsFrom(Satisfying(entries, get, keys, params), least)
  {
    if entries != [] {
      var (n, cached) := entries[0];
      var rest := Satisfying(entries[1..], get, keys, params);
      SatisfyingAscends(entries[1..], get, keys, params, n + 1);
      if get(cached).Some? {
        AscendsCons((n, get(cached).value), rest);
      }
    }
  }

  /** The message with this number and UID is there and satisfies the keys. */
  ghost predicate Answers(cache: Cache, get: Getter, keys: seq<SearchKey>, params: Params, u: int, n: int, msg: Stored)
  {
    && u in cache && n == 1 + |set v | v in cache && v < u|
    && get(cache[u]) == Some(msg) && HoldAll(keys, params, n, msg)
  }

  /** The parameters of a search in a session with these messages. */
  ghost function Settled(cache: Cache, setting: Setting, greatest: int): Params {
    Params(|cache|, if cache == map[] then 0 else greatest, setting.disabled, setting.sessionFlags, setting.recent,
           setting.encode)
  }

  ghost predicate Greatest(cache: Cache, greatest: int) {
    cache != map[] ==> greatest in cache && forall v :: v in cache ==> v <= greatest
  }

  lemma SettledIs(messages: SynchronizedMessages, setting: Setting, greatest: int)
    requires messages.Valid() && Greatest(messages.cache, greatest)
    ensures ParamsOf(messages, setting) == Settled(messages.cache, setting, greatest)
  {
    messages.GreatestIsLast(greatest);
    if messages.cache == map[] {
      assert messages.uids == {};
      NoneSorted();
    }
  }

  lemma NoneSorted()
    ensures Sorted({}) == []
  {
    SortedIs([], {});
  }

  /** A search is refused exactly if a key is not allowed. Otherwise it finds, by ascending numbers, exactly
      the messages that satisfy all keys on their whole content, `*` being the greatest cached UID, or the
      number of messages, and session flags and `\Recent` being those of the session. */
  lemma SearchExactly(messages: SynchronizedMessages, get: Getter, keys: seq<SearchKey>, setting: Setting,
                      greatest: int, n: int, msg: Stored)
    requires messages.Valid() && GetsByUid(get) && Greatest(messages.cache, greatest)
    ensures var r := Searching(messages, get, keys, setting);
            && (r.Success? <==> forall i :: 0 <= i < |keys| ==> Allowed(keys[i], setting.disabled))
            && (r.Success? ==>
              && (forall i, j :: 0 <= i < j < |r.value| ==> r.value[i].0 < r.value[j].0)
              && ((n, msg) in r.value <==> exists u ::
                Answers(messages.cache, get, keys, Settled(messages.cache, setting, greatest), u, n, msg)))
  {
    var params := ParamsOf(messages, setting);
    SettledIs(messages, setting, greatest);
    OfAllAllowed(keys, params);
    SearchIsExhaustive(messages, get, keys, setting);
    EverythingAt(messages.sorted, messages.cache, 1);
    FoundAnswer(messages, get, keys, params, Everything(messages.sorted, messages.cache, 1), n, msg);
  }

  lemma FoundAnswer(messages: SynchronizedMessages, get: Getter, keys: seq<SearchKey>, params: Params,
                    entries: seq<(int, Message)>, n: int, msg: Stored)
    requires messages.Valid() && |entries| == |messages.sorted| && Listing(messages)
    requires forall i :: 0 <= i < |entries| ==> entries[i] == (1 + i, messages.cache[messages.sorted[i]])
    ensures var found := Satisfying(entries, get, keys, params);
            && (forall i, j :: 0 <= i < j < |found| ==> found[i].0 < found[j].0)
            && ((n, msg) in found <==> exists u :: Answers(messages.cache, get, keys, params, u, n, msg))
  {
    SatisfyingHas(entries, get, keys, params, n, msg);
    SatisfyingAscends(entries, get, keys, params, 1);
    EntriesAnswer(messages, get, keys, params, entries, n, msg);
  }

  lemma EntriesAnswer(messages: SynchronizedMessages, get: Getter, keys: seq<SearchKey>, params: Params,
                      entries: seq<(int, Message)>, n: int, msg: Stored)
    requires messages.Valid() && |entries| == |messages.sorted| && Listing(messages)
    requires forall i :: 0 <= i < |entries| ==> entries[i] == (1 + i, messages.cache[messages.sorted[i]])
    ensures (exists i :: FoundAt(entries, get, keys, params, i, n, msg)) <==>
            exists u :: Answers(messages.cache, get, keys, params, u, n, msg)
  {
    var sorted := messages.sorted;
    if i :| FoundAt(entries, get, keys, params, i, n, msg) {
      IndexOfAscending(sorted, i);
      PlaceIs(messages.uids, sorted[i]);
      assert (set v | v in messages.uids && v < sorted[i]) == set v | v in messages.cache && v < sorted[i];
      assert Answers(messages.cache, get, keys, params, sorted[i], n, msg);
    }
    if u :| Answers(messages.cache, get, keys, params, u, n, msg) {
      InSorted(messages.uids, u);
      PlaceIs(messages.uids, u);
      assert (set v | v in messages.uids && v < u) == set v | v in messages.cache && v < u;
      assert FoundAt(entries, get, keys, params, IndexOf(sorted, u), n, msg);
    }
  }

  lemma {:induction false} SatisfyingSame(entries: seq<(int, Message)>, get: Getter, keys: seq<SearchKey>,
                                          others: seq<SearchKey>, params: Params)
    requires forall key :: key in keys <==> key in others
    ensures Satisfying(entries, get, keys, params) == Satisfying(entries, get, others, params)
  {
    if entries != [] {
      SatisfyingSame(entries[1..], get, keys, others, params);
      var (seqNum, cached) := entries[0];
      if get(cached).Some? {
        HoldAllSame(keys, others, params, seqNum, get(cached).value);
      }
    }
  }

  lemma HoldAllSame(keys: seq<SearchKey>, others: seq<SearchKey>, params: Params, seqNum: int, msg: Stored)
    requires forall key :: key in keys <==> key in others
    ensures HoldAll(keys, params, seqNum, msg) <==> HoldAll(others, params, seqNum, msg)
  {
    if HoldAll(others, params, seqNum, msg) {
      HoldsToo(keys, others, params, seqNum, msg);
    }
    if HoldAll(keys, params, seqNum, msg) {
      HoldsToo(others, keys, params, seqNum, msg);
    }
  }

  lemma HoldsToo(keys: seq<SearchKey>, others: seq<SearchKey>, params: Params, seqNum: int, msg: Stored)
    requires HoldAll(others, params, seqNum, msg) && forall key :: key in keys ==> key in others
    ensures HoldAll(keys, params, seqNum, msg)
  {
    forall i | 0 <= i < |keys|
      ensures Holds(keys[i], params, seqNum, msg)
    {
      assert keys[i] in keys;
      var j :| 0 <= j < |others| && others[j] == keys[i];
    }
  }

  /** The keys are a set: whichever sequence set comes first in it, the search finds the same. */
  lemma OrderIrrelevant(messages: SynchronizedMessages, get: Getter, keys: seq<SearchKey>, others: seq<SearchKey>,
                        setting: Setting)
    requires messages.Valid() && GetsByUid(get) && forall key :: key in keys <==> key in others
    ensures var found, again := Searching(messages, get, keys, setting), Searching(messages, get, others, setting);
            (found.Failure? <==> again.Failure?) && (found.Success? ==> found == again)
  {
    var params := ParamsOf(messages, setting);
    OfAllFails(keys, params);
    OfAllFails(others, params);
    FailuresSame(keys, others, params);
    SearchIsExhaustive(messages, get, keys, setting);
    SearchIsExhaustive(messages, get, others, setting);
    SatisfyingSame(Everything(messages.sorted, messages.cache, 1), get, keys, others, params);
  }

  lemma FailuresSame(keys: seq<SearchKey>, others: seq<SearchKey>, params: Params)
    requires forall key :: key in keys <==> key in others
    ensures (exists i :: 0 <= i < |keys| && Of(keys[i], params).Failure?) <==>
            (exists i :: 0 <= i < |others| && Of(others[i], params).Failure?)
  {
    if i :| 0 <= i < |keys| && Of(keys[i], params).Failure? {
      assert keys[i] in keys;
      var j :| 0 <= j < |others| && others[j] == keys[i];
    }
    if i :| 0 <= i < |others| && Of(others[i], params).Failure? {
      assert others[i] in others;
      var j :| 0 <= j < |keys| && keys[j] == others[i];
    }
  }
}
