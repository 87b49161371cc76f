/** What a client believes about flags, over whole runs: it was told nothing false. `quiet` holds the
    messages whose flags the client changed silently or that were given session flags. */
module ClientFlags {
  import opened Collections
  import opened Flags
  import opened Synchronized
  import opened ChangeLog
  import opened Selected
  import opened Mailbox
  import opened Replay
  import opened FlagReports
  import opened SessionRuns

  predicate Quiet(step: Step, quiet: set<int>) {
    match step
    case SilenceFlags(uids, _, _) => uids <= quiet
    case StoreSessionFlags(uid, _, _) => uid in quiet
    case _ => true
  }

  function Mark(recent: set<int>, u: int): set<Flag> {
    if u in recent then {Recent} else {}
  }

  /** The message had these flags at the fork that froze the state. */
  ghost predicate Had(frozen: Frozen, u: int, flags: set<Flag>) {
    exists permanent :: (u, permanent) in frozen.flags && flags == permanent + Mark(frozen.recent, u)
  }

  /** The client was told nothing false of the message. */
  ghost predicate ToldTrue(slot: Slot, frozen: Frozen, u: int) {
    slot.flags.Some? ==> Had(frozen, u, slot.flags.value)
  }

  ghost predicate ToldAllTrue(view: seq<Slot>, frozen: Frozen, quiet: set<int>) {
    && |view| == |Sorted(frozen.uids)|
    && forall i :: 0 <= i < |view| && Sorted(frozen.uids)[i] !in quiet ==>
      ToldTrue(view[i], frozen, Sorted(frozen.uids)[i])
  }

  ghost predicate OneFlagsKeyEach(keys: set<FlagsKey>) {
    forall key, other :: key in keys && other in keys && key.0 == other.0 ==> key == other
  }

  /** No message outside `quiet` is silenced or has session flags. */
  ghost predicate QuietOk(s: Session, quiet: set<int>) {
    && (forall key :: key in s.silencedFlags ==> key.0 in quiet)
    && (forall u :: u in s.sflags ==> u in quiet)
  }

  /** The state at the last fork, as far as flags go: a `\Recent` mark stays while its message does. */
  ghost predicate FrozenOk(s: Session) {
    s.prev.Some? ==>
      && OneFlagsKeyEach(s.prev.value.flags)
      && (forall u :: u in s.prev.value.recent && u in s.cache ==> u in s.recent)
      && s.prev.value.recent <= s.prev.value.uids
  }

  ghost predicate FlagsInv(sys: System, quiet: set<int>) {
    && QuietOk(sys.s, quiet) && FrozenOk(sys.s)
    && (sys.s.prev.Some? ==> ToldAllTrue(sys.view, sys.s.prev.value, quiet))
  }

  // ----- Between forks

  lemma SilenceQuiet(s: Session, uids: set<int>, flagSet: set<Flag>, op: FlagOp, quiet: set<int>)
    requires QuietOk(s, quiet) && uids <= quiet
    ensures QuietOk(WithSilence(s, uids, flagSet, op), quiet)
  {
  }

  lemma StoreQuiet(s: Session, uid: int, flagSet: set<Flag>, op: FlagOp, quiet: set<int>)
    requires QuietOk(s, quiet) && uid in quiet
    ensures QuietOk(WithSessionFlags(s, uid, flagSet, op), quiet)
  {
  }

  /** A message that stays through a poll keeps its mark. */
  lemma PollKeepsMarks(m: Mbox, s: Session, top: int, u: int)
    requires MboxOk(m) && SyncOk(m, s, top) && u <= top && u in s.recent
    ensures u in Sync(s, m).cache && u in s.cache ==> u in Sync(s, m).recent
  {
    PollOne(m, s, top, u);
    if s.modSequence.Some? && u !in Sync(s, m).recent {
      assert u in ExpungedSince(m.history, s.modSequence.value);
    }
  }

  lemma PollFlags(m: Mbox, s: Session, polled: bool, top: int, quiet: set<int>)
    requires MboxOk(m) && SyncOk(m, s, top) && EpochOk(s, polled, top) && QuietOk(s, quiet) && FrozenOk(s)
    ensures QuietOk(Sync(s, m), quiet) && FrozenOk(Sync(s, m)) && Sync(s, m).prev == s.prev
  {
    if s.prev.Some? {
      forall u | u in s.prev.value.recent && u in Sync(s, m).cache ensures u in Sync(s, m).recent {
        assert u in s.prev.value.uids && u <= top;
        PollOne(m, s, top, u);
        assert u in s.cache;
        PollKeepsMarks(m, s, top, u);
      }
    }
  }

  // ----- At a fork

  lemma CacheKeysOnce(cache: Cache)
    requires KeyedByUid(cache)
    ensures OneFlagsKeyEach(FlagsKeys(cache))
  {
    forall key, other | key in FlagsKeys(cache) && other in FlagsKeys(cache) && key.0 == other.0 ensures key == other {
      KeyIn(cache, key);
      KeyIn(cache, other);
    }
  }

  /** What a fork reports of a message is what it has. */
  lemma ReportedHas(s: Session, u: int)
    requires KeyedByUid(s.cache) && u in s.cache && u !in s.sflags
    ensures Had(Freeze(s), u, AllFlags(s, u))
  {
    KeyIn(s.cache, (u, s.cache[u].flags));
    assert AllFlags(s, u) == s.cache[u].flags + Mark(Freeze(s).recent, u);
  }

  /** What a fork does not report has not changed. */
  lemma UnreportedHas(s: Session, u: int, flags: set<Flag>, quiet: set<int>)
    requires KeyedByUid(s.cache) && u in s.cache && u !in quiet && QuietOk(s, quiet) && FrozenOk(s) && s.prev.Some?
    requires u !in FetchUids(s.prev.value, Freeze(s), s) && Had(s.prev.value, u, flags)
    ensures Had(Freeze(s), u, flags)
  {
    var before, after := s.prev.value, Freeze(s);
    ReportedExactly(s, u);
    var permanent :| (u, permanent) in before.flags && flags == permanent + Mark(before.recent, u);
    var key, now: FlagsKey := (u, permanent), (u, s.cache[u].flags);
    assert now in before.flags && key in before.flags;
    assert permanent == s.cache[u].flags;
    KeyIn(s.cache, key);
    assert Mark(before.recent, u) == Mark(after.recent, u);
  }

  lemma NewSlotTrue(view: seq<Slot>, s: Session, withUid: bool, u: int, quiet: set<int>)
    requires KeyedByUid(s.cache) && u in s.cache && u !in quiet && QuietOk(s, quiet) && FrozenOk(s) && s.prev.Some?
    requires ToldAllTrue(view, s.prev.value, quiet)
    ensures ToldTrue(NewSlot(view, s, s.prev.value, withUid, u), Freeze(s), u)
  {
    var before := s.prev.value;
    if u in FetchUids(before, Freeze(s), s) {
      ReportedHas(s, u);
    } else {
      var slot := OldSlot(view, Sorted(before.uids), u);
      if u in Sorted(before.uids) && slot.flags.Some? {
        assert ToldTrue(view[IndexOf(Sorted(before.uids), u)], before, u);
        UnreportedHas(s, u, slot.flags.value, quiet);
      }
    }
  }

  lemma FinishFlags(view: seq<Slot>, s: Session, polled: bool, top: int, withUid: bool, quiet: set<int>)
    requires KeyedByUid(s.cache) && EpochOk(s, polled, top) && SflagsOk(s) && ClientOk(view, s)
    requires QuietOk(s, quiet) && FrozenOk(s) && (s.prev.Some? ==> ToldAllTrue(view, s.prev.value, quiet))
    ensures QuietOk(NextEpoch(s), quiet) && FrozenOk(NextEpoch(s))
    ensures ToldAllTrue(ClientSees(view, s, withUid), Freeze(s), quiet)
  {
    CacheKeysOnce(s.cache);
    FinishClient(view, s, polled, top, withUid);
    var after, sees := Sorted(s.cache.Keys), ClientSees(view, s, withUid);
    if s.prev.Some? {
      forall i | 0 <= i < |after| && after[i] !in quiet ensures ToldTrue(sees[i], Freeze(s), after[i]) {
        InSorted(s.cache.Keys, after[i]);
        NewSlotTrue(view, s, withUid, after[i], quiet);
      }
    }
  }

  // ----- Runs

  lemma StepFlags(sys: System, step: Step, quiet: set<int>)
    requires Inv(sys) && FlagsInv(sys, quiet) && Quiet(step, quiet)
    ensures FlagsInv(Next(sys, step), quiet)
  {
    match step
    case SilenceFlags(uids, flagSet, op) => SilenceQuiet(sys.s, uids, flagSet, op, quiet);
    case StoreSessionFlags(uid, flagSet, op) => StoreQuiet(sys.s, uid, flagSet, op, quiet);
    case Poll => PollFlags(sys.mbox, sys.s, sys.polled, sys.top, quiet);
    case Finish(withUid) => FinishFlags(sys.view, sys.s, sys.polled, sys.top, withUid, quiet);
    case _ =>
  }

  lemma {:induction false} RunFlags(sys: System, run: seq<Step>, quiet: set<int>)
    requires Inv(sys) && FlagsInv(sys, quiet) && EnabledRun(sys, run)
    requires forall i :: 0 <= i < |run| ==> Quiet(run[i], quiet)
    ensures FlagsInv(Run(sys, run), quiet)
    decreases |run|
  {
    if run != [] {
      StepInv(sys, run[0]);
      StepFlags(sys, run[0], quiet);
      RunFlags(Next(sys, run[0]), run[1..], quiet);
    }
  }

  /** End to end: after any run, a poll and a fork that hides nothing, every set of flags that the
      client has been told for a line is what the message there has in the mailbox, with `\Recent` if
      the session holds its mark; only for messages in `quiet` nothing is said. */
  lemma ToldIsTrue(start: System, run: seq<Step>, quiet: set<int>, withUid: bool)
    requires Initial(start) && start.s.silencedFlags == {} && EnabledRun(start, run)
    requires forall i :: 0 <= i < |run| ==> Quiet(run[i], quiet)
    requires !Run(start, run).s.hideExpunged
    ensures var done := Next(Next(Run(start, run), Poll), Finish(withUid));
            var messages, sorted := done.mbox.messages, Sorted(done.mbox.messages.Keys);
            && |done.view| == |sorted|
            && forall i :: 0 <= i < |sorted| && sorted[i] !in quiet && done.view[i].flags.Some? ==>
              && sorted[i] in messages
              && done.view[i].flags.value == messages[sorted[i]].flags + Mark(done.s.recent, sorted[i])
  {
    InitialInv(start);
    RunFlags(start, run, quiet);
    ReachableInv(start, run);
    PollAfterRun(start, run);
    PollFinishFlags(Run(start, run), withUid, quiet);
  }

  lemma PollFinishFlags(sys: System, withUid: bool, quiet: set<int>)
    requires Inv(sys) && FlagsInv(sys, quiet) && Sync(sys.s, sys.mbox).cache == sys.mbox.messages
    ensures var done := Next(Next(sys, Poll), Finish(withUid));
            var messages, sorted := done.mbox.messages, Sorted(done.mbox.messages.Keys);
            && |done.view| == |sorted|
            && forall i :: 0 <= i < |sorted| && sorted[i] !in quiet && done.view[i].flags.Some? ==>
              && sorted[i] in messages
              && done.view[i].flags.value == messages[sorted[i]].flags + Mark(done.s.recent, sorted[i])
  {
    PollInv(sys);
    StepFlags(sys, Poll, quiet);
    PolledFields(sys);
    var polled := Next(sys, Poll);
    StepFlags(polled, Finish(withUid), quiet);
    FinalFlags(polled.s, Next(polled, Finish(withUid)).view, quiet);
  }

  lemma FinalFlags(s: Session, view: seq<Slot>, quiet: set<int>)
    requires KeyedByUid(s.cache) && ToldAllTrue(view, Freeze(s), quiet)
    ensures var sorted := Sorted(s.cache.Keys);
            && |view| == |sorted|
            && forall i :: 0 <= i < |sorted| && sorted[i] !in quiet && view[i].flags.Some? ==>
              sorted[i] in s.cache && view[i].flags.value == s.cache[sorted[i]].flags + Mark(s.recent, sorted[i])
  {
    var sorted := Sorted(s.cache.Keys);
    forall i | 0 <= i < |sorted| && sorted[i] !in quiet && view[i].flags.Some?
      ensures sorted[i] in s.cache && view[i].flags.value == s.cache[sorted[i]].flags + Mark(s.recent, sorted[i])
    {
      var u := sorted[i];
      InSorted(s.cache.Keys, u);
      var frozen := Freeze(s);
      var permanent :| (u, permanent) in frozen.flags && view[i].flags.value == permanent + Mark(frozen.recent, u);
      KeyIn(s.cache, (u, permanent));
    }
  }
}
