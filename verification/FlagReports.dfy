/** Which messages a fork reports with FETCH, and what a silenced STORE keeps quiet. */
module FlagReports {
  import opened Collections
  import opened Flags
  import opened Synchronized
  import opened Selected
  import opened Replay

  ghost function ForkFetches(s: Session, withUid: bool): seq<Response>
    requires s.prev.Some?
  {
    Fetches(Freeze(s), s, Sorted(FetchUids(s.prev.value, Freeze(s), s)), withUid)
  }

  /** `\Recent` is new on the message since the last fork. */
  ghost predicate NewlyRecent(s: Session, u: int)
    requires s.prev.Some?
  {
    u in s.recent && u in s.cache && u !in s.prev.value.recent
  }

  /** The permanent flags are not what the last fork saw, nor what the client silenced. */
  ghost predicate FlagsChanged(s: Session, u: int)
    requires s.prev.Some?
  {
    && u in s.cache
    && (u, s.cache[u].flags) !in s.prev.value.flags
    && (u, s.cache[u].flags) !in s.silencedFlags
  }

  ghost predicate SflagsChanged(s: Session, u: int)
    requires s.prev.Some?
  {
    && u in s.sflags
    && (u, s.sflags[u]) !in s.prev.value.sflags
    && (u, s.sflags[u]) !in s.silencedSflags
  }

  lemma FirstHas(keys: set<FlagsKey>, key: FlagsKey)
    requires key in keys
    ensures key.0 in FirstOf(keys)
  {
  }

  lemma ItemOf(sflags: map<int, set<Flag>>, u: int)
    requires u in sflags
    ensures (u, sflags[u]) in FlagItems(sflags)
  {
  }

  lemma NewFlagsIff(s: Session, u: int)
    requires KeyedByUid(s.cache) && s.prev.Some?
    ensures u in FirstOf(NewFlags(s.prev.value, Freeze(s), s)) <==> FlagsChanged(s, u)
  {
    var fresh' := NewFlags(s.prev.value, Freeze(s), s);
    if u in FirstOf(fresh') {
      var key :| key in fresh' && key.0 == u;
      KeyIn(s.cache, key);
      assert key == (u, s.cache[u].flags);
    }
    if FlagsChanged(s, u) {
      KeyIn(s.cache, (u, s.cache[u].flags));
      FirstHas(fresh', (u, s.cache[u].flags));
    }
  }

  lemma NewSflagsIff(s: Session, u: int)
    requires s.prev.Some?
    ensures u in FirstOf(NewSflags(s.prev.value, Freeze(s), s)) <==> SflagsChanged(s, u)
  {
    var fresh' := NewSflags(s.prev.value, Freeze(s), s);
    if u in FirstOf(fresh') {
      var key :| key in fresh' && key.0 == u;
      assert key in FlagItems(s.sflags) && key == (u, s.sflags[u]);
    }
    if SflagsChanged(s, u) {
      ItemOf(s.sflags, u);
      FirstHas(fresh', (u, s.sflags[u]));
    }
  }

  /** A message is reported exactly when its flags changed in a way the client does not know:
      `\Recent` was added, or the permanent or session flags are neither those of the last fork
      nor those the client silenced. */
  lemma ReportedExactly(s: Session, u: int)
    requires KeyedByUid(s.cache) && s.prev.Some?
    ensures u in FetchUids(s.prev.value, Freeze(s), s) <==>
            NewlyRecent(s, u) || FlagsChanged(s, u) || SflagsChanged(s, u)
  {
    NewFlagsIff(s, u);
    NewSflagsIff(s, u);
  }

  /** One FETCH for each reported message, in ascending order, with its number and all its flags. */
  lemma FetchForEach(s: Session, withUid: bool, u: int)
    requires KeyedByUid(s.cache) && s.prev.Some? && SessionFlagsListed(s)
    ensures var fetches := ForkFetches(s, withUid);
            && (forall i, j :: 0 <= i < j < |fetches| ==> fetches[i].seqNum < fetches[j].seqNum)
            && (NewlyRecent(s, u) || FlagsChanged(s, u) || SflagsChanged(s, u) <==>
              Fetch(NumberOf(s.cache.Keys, u), AllFlags(s, u), if withUid then Some(u) else None) in fetches
              && u in s.cache)
  {
    var before, after := s.prev.value, Freeze(s);
    var uids := FetchUids(before, after, s);
    var fetches, sorted := ForkFetches(s, withUid), Sorted(uids);
    FetchedAreListed(s, before);
    forall i, j | 0 <= i < j < |fetches| ensures fetches[i].seqNum < fetches[j].seqNum {
      assert sorted[i] in uids && sorted[j] in uids;
      NumbersAscend(after.uids, sorted[i], sorted[j]);
    }
    ReportedExactly(s, u);
    if u in uids {
      InSorted(uids, u);
      assert fetches[IndexOf(sorted, u)].seqNum == NumberOf(after.uids, u);
    }
    var expected := Fetch(NumberOf(s.cache.Keys, u), AllFlags(s, u), if withUid then Some(u) else None);
    if expected in fetches && u in s.cache {
      var i :| 0 <= i < |fetches| && fetches[i] == expected;
      assert sorted[i] in uids;
      SameNumber(after.uids, sorted[i], u);
    }
  }

  lemma NumbersAscend(uids: set<int>, u: int, v: int)
    requires u in uids && v in uids && u < v
    ensures NumberOf(uids, u) < NumberOf(uids, v)
  {
    NumberOfAt(uids, u);
    NumberOfAt(uids, v);
  }

  lemma SameNumber(uids: set<int>, u: int, v: int)
    requires u in uids && v in uids && NumberOf(uids, u) == NumberOf(uids, v)
    ensures u == v
  {
    NumberOfAt(uids, u);
    NumberOfAt(uids, v);
  }

  /** What a client that was told of a message right makes of its own silent STORE. */
  ghost function Believed(fork: Session, uids: set<int>, flagSet: set<Flag>, op: FlagOp, u: int): set<Flag>
    requires u in fork.cache
  {
    var flags := fork.cache[u].flags;
    if u in uids then op.Apply(flags, Intersect(fork.permanent, flagSet)) else flags
  }

  /** A silenced STORE is issued on the state of the last fork. The permanent flags of a message are
      reported later exactly if they are neither those of that state nor those that the operation made
      of them for a selected message. */
  lemma SilencedExactly(
    fork: Session, silenced: Session, s: Session, uids: set<int>, flagSet: set<Flag>, op: FlagOp, u: int)
    requires KeyedByUid(fork.cache) && fork.prev == Some(Freeze(fork)) && fork.silencedFlags == {}
    requires silenced == WithSilence(fork, uids, flagSet, op)
    requires KeyedByUid(s.cache) && s.prev == fork.prev && s.silencedFlags == silenced.silencedFlags
    requires u in fork.cache && u in s.cache
    ensures FlagsChanged(s, u) <==>
            s.cache[u].flags != fork.cache[u].flags && s.cache[u].flags != Believed(fork, uids, flagSet, op, u)
  {
    var key := (u, s.cache[u].flags);
    KeyIn(fork.cache, key);
    OutcomesHas(CachedFlags(fork.cache), uids, Intersect(fork.permanent, flagSet), op, key);
  }

  /** So the client is told of the flags, or right about them, exactly if they are not back to those of
      the last fork, unless its STORE had left them as they were. */
  lemma SilentStoreExactly(
    fork: Session, silenced: Session, s: Session, uids: set<int>, flagSet: set<Flag>, op: FlagOp, u: int)
    requires KeyedByUid(fork.cache) && fork.prev == Some(Freeze(fork)) && fork.silencedFlags == {}
    requires silenced == WithSilence(fork, uids, flagSet, op)
    requires KeyedByUid(s.cache) && s.prev == fork.prev && s.silencedFlags == silenced.silencedFlags
    requires u in fork.cache && u in s.cache
    ensures var before, now, believed :=
              fork.cache[u].flags, s.cache[u].flags, Believed(fork, uids, flagSet, op, u);
            FlagsChanged(s, u) || now == believed <==> now != before || believed == before
  {
    SilencedExactly(fork, silenced, s, uids, flagSet, op, u);
  }

  /** A silent STORE that is refused has been silenced all the same: the client is told of the flags, or
      right that they are those of the last fork, exactly if they are not what the refused operation
      would have made of them, unless it would have left them as they were. */
  lemma RefusedStoreExactly(
    fork: Session, silenced: Session, s: Session, uids: set<int>, flagSet: set<Flag>, op: FlagOp, u: int)
    requires KeyedByUid(fork.cache) && fork.prev == Some(Freeze(fork)) && fork.silencedFlags == {}
    requires silenced == WithSilence(fork, uids, flagSet, op)
    requires KeyedByUid(s.cache) && s.prev == fork.prev && s.silencedFlags == silenced.silencedFlags
    requires u in fork.cache && u in s.cache
    ensures var before, now, wanted :=
              fork.cache[u].flags, s.cache[u].flags, Believed(fork, uids, flagSet, op, u);
            FlagsChanged(s, u) || now == before <==> now != wanted || wanted == before
  {
    SilencedExactly(fork, silenced, s, uids, flagSet, op, u);
  }

  /** The session flags of a message, without `\Recent`. */
  function OwnFlags(s: Session, u: int): set<Flag> {
    if u in s.sflags then s.sflags[u] else {}
  }

  /** A silenced STORE that leaves the message with other session flags than before. The flags that
      are silenced are computed with the `\Recent` mark, and those compared are not: the change is
      kept quiet exactly if the message was selected and the mark makes no difference to the operation,
      because there is none, or it is a flag like others, or the operation takes no notice of it. */
  lemma SilencedSflagsExactly(
    fork: Session, silenced: Session, s: Session, uids: set<int>, flagSet: set<Flag>, op: FlagOp, u: int)
    requires fork.prev == Some(Freeze(fork)) && fork.silencedSflags == {}
    requires silenced == WithSilence(fork, uids, flagSet, op)
    requires s.prev == fork.prev && s.silencedSflags == silenced.silencedSflags
    requires u in s.sflags && s.sflags[u] != OwnFlags(fork, u)
    requires s.sflags[u] == op.Apply(OwnFlags(fork, u), Intersect(fork.defined, flagSet))
    ensures !SflagsChanged(s, u) <==>
            u in uids && (u !in fork.recent || Recent in OwnFlags(fork, u) || (
              && (op.Replace? || Recent in Intersect(fork.defined, flagSet))
              && s.sflags[u] != OwnFlags(fork, u) + {Recent}))
  {
    var operand, mark := Intersect(fork.defined, flagSet), SessionFlagsOf(fork.sflags, fork.recent, u);
    var key := (u, s.sflags[u]);
    assert key !in FlagItems(fork.sflags);
    OutcomesHas(CachedSflags(fork), uids, operand, op, key);
    assert mark == OwnFlags(fork, u) + if u in fork.recent then {Recent} else {};
    MarkMatters(OwnFlags(fork, u), operand, op);
    assert OwnFlags(fork, u) + {} == OwnFlags(fork, u);
  }

  /** When an operation leaves marked flags as it leaves them without the mark, and yet changed. */
  lemma MarkMatters(flags: set<Flag>, operand: set<Flag>, op: FlagOp)
    requires op.Apply(flags, operand) != flags
    ensures op.Apply(flags + {Recent}, operand) == op.Apply(flags, operand) != flags + {Recent} <==>
            Recent in flags || ((op.Replace? || Recent in operand) && op.Apply(flags, operand) != flags + {Recent})
  {
    if Recent in flags {
      assert flags + {Recent} == flags;
    } else {
      match op
      case Replace =>
      case Add => assert Recent in flags + {Recent} + operand;
      case Delete =>
        assert Recent in flags + {Recent} - operand <==> Recent !in operand;
        assert Recent in operand ==> flags + {Recent} - operand == flags - operand;
    }
  }

  /** As long as no client names `\Recent` itself, a silenced change of session flags is kept quiet
      exactly for messages that are not `\Recent`, or when all flags are replaced. */
  lemma SilencedUnlessRecent(
    fork: Session, silenced: Session, s: Session, uids: set<int>, flagSet: set<Flag>, op: FlagOp, u: int)
    requires fork.prev == Some(Freeze(fork)) && fork.silencedSflags == {}
    requires silenced == WithSilence(fork, uids, flagSet, op)
    requires s.prev == fork.prev && s.silencedSflags == silenced.silencedSflags
    requires u in s.sflags && s.sflags[u] != OwnFlags(fork, u)
    requires s.sflags[u] == op.Apply(OwnFlags(fork, u), Intersect(fork.defined, flagSet))
    requires Recent !in OwnFlags(fork, u) && Recent !in flagSet
    ensures !SflagsChanged(s, u) <==> u in uids && (u !in fork.recent || op.Replace?)
  {
    SilencedSflagsExactly(fork, silenced, s, uids, flagSet, op, u);
  }

  /** A keyword added silently to a message that is `\Recent` is reported all the same. */
  lemma MarkedIsReported(base: Session, u: int, flag: Flag)
    requires u in base.recent && Wildcard in base.defined && base.sflags == map[] && base.silencedSflags == {}
    requires flag != Recent
    ensures var fork := base.(prev := Some(Freeze(base)));
            var s := WithSilence(fork, {u}, {flag}, Add).(sflags := map[u := {flag}]);
            SflagsChanged(s, u)
  {
    var fork := base.(prev := Some(Freeze(base)));
    var silenced := WithSilence(fork, {u}, {flag}, Add);
    assert {} + {flag} == {flag};
    SilencedUnlessRecent(fork, silenced, silenced.(sflags := map[u := {flag}]), {u}, {flag}, Add, u);
  }

  /** A message that is not reported has the permanent flags it had, no new mark, and the session
      flags it had or none. */
  lemma UnreportedUnchanged(fork: Session, s: Session, u: int)
    requires KeyedByUid(fork.cache) && KeyedByUid(s.cache) && s.prev == Some(Freeze(fork))
    requires s.silencedFlags == {} && s.silencedSflags == {} && u in fork.cache && u in s.cache
    requires u !in FetchUids(s.prev.value, Freeze(s), s)
    ensures s.cache[u].flags == fork.cache[u].flags
    ensures u in s.recent ==> u in fork.recent
    ensures u in s.sflags ==> u in fork.sflags && s.sflags[u] == fork.sflags[u]
  {
    ReportedExactly(s, u);
    KeyIn(fork.cache, (u, s.cache[u].flags));
    if u in s.sflags {
      var key := (u, s.sflags[u]);
      assert key in FlagItems(fork.sflags);
    }
  }

  /** What is not reported has not changed, exactly if no session flags were emptied that the message
      does not have otherwise. A `\Recent` mark stays while its message does. */
  lemma UnreportedExactly(fork: Session, s: Session, u: int)
    requires KeyedByUid(fork.cache) && KeyedByUid(s.cache) && s.prev == Some(Freeze(fork))
    requires s.silencedFlags == {} && s.silencedSflags == {} && u in fork.cache && u in s.cache
    requires u !in FetchUids(s.prev.value, Freeze(s), s) && (u in fork.recent ==> u in s.recent)
    ensures AllFlags(s, u) == AllFlags(fork, u) <==>
            u in s.sflags || u !in fork.sflags ||
            fork.sflags[u] <= fork.cache[u].flags + if u in fork.recent then {Recent} else {}
  {
    UnreportedUnchanged(fork, s, u);
    var rest := fork.cache[u].flags + if u in fork.recent then {Recent} else {};
    assert u !in s.sflags ==> AllFlags(s, u) == rest;
    assert AllFlags(fork, u) == rest + OwnFlags(fork, u);
  }

  /** A session flag that is taken off again: nothing is reported, and the flags are not what they
      were. */
  lemma EmptiedIsLost(fork: Session, u: int, flag: Flag)
    requires KeyedByUid(fork.cache) && u in fork.cache && fork.silencedFlags == {} && fork.silencedSflags == {}
    requires u in fork.sflags && fork.sflags[u] == {flag} && flag !in fork.cache[u].flags && flag != Recent
    ensures var s := fork.(prev := Some(Freeze(fork)), sflags := fork.sflags - {u});
            u !in FetchUids(s.prev.value, Freeze(s), s) && AllFlags(s, u) != AllFlags(fork, u)
  {
    var s := fork.(prev := Some(Freeze(fork)), sflags := fork.sflags - {u});
    ReportedExactly(s, u);
    KeyIn(fork.cache, (u, s.cache[u].flags));
    UnreportedExactly(fork, s, u);
    assert flag in fork.sflags[u];
  }
}
