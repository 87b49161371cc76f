/** The number of recent messages that a client was last told, over whole runs. */
module RecentCounts {
  import opened Collections
  import opened Flags
  import opened Synchronized
  import opened Selected
  import opened Mailbox
  import opened Replay
  import opened SessionRuns

  /** A client remembers the last number that a RECENT response gave it. */
  function Hear(heard: int, responses: seq<Response>): int
    decreases |responses|
  {
    if responses == [] then heard
    else Hear(if responses[0].RecentCount? then responses[0].count else heard, responses[1..])
  }

  predicate Silent(responses: seq<Response>) {
    forall i :: 0 <= i < |responses| ==> !responses[i].RecentCount?
  }

  lemma {:induction false} HearSilence(heard: int, responses: seq<Response>)
    requires Silent(responses)
    ensures Hear(heard, responses) == heard
    decreases |responses|
  {
    if responses != [] {
      HearSilence(heard, responses[1..]);
    }
  }

  lemma {:induction false} HearConcat(heard: int, first: seq<Response>, second: seq<Response>)
    ensures Hear(heard, first + second) == Hear(Hear(heard, first), second)
    decreases |first|
  {
    if first == [] {
      assert first + second == second;
    } else {
      assert (first + second)[1..] == first[1..] + second;
      HearConcat(if first[0].RecentCount? then first[0].count else heard, first[1..], second);
    }
  }

  lemma HearOne(heard: int, count: int)
    ensures Hear(heard, [RecentCount(count)]) == count
  {
    assert [RecentCount(count)][1..] == [];
  }

  lemma HearBetween(heard: int, first: seq<Response>, second: seq<Response>, third: seq<Response>)
    requires Silent(first) && Silent(third)
    ensures Hear(heard, first + second + third) == Hear(heard, second)
  {
    HearSilence(heard, first);
    HearConcat(heard, first, second);
    HearConcat(heard, first + second, third);
    HearSilence(Hear(heard, second), third);
  }

  lemma HearCounts(heard: int, before: Frozen, after: Frozen)
    ensures Hear(heard, Counts(before, after)) ==
            if |after.recent| != |before.recent| then |after.recent| else heard
  {
    var exists', recent :=
      (if after.uids - before.uids != {} then [Exists(|after.uids|)] else []),
      (if |after.recent| != |before.recent| then [RecentCount(|after.recent|)] else []);
    HearConcat(heard, exists', recent);
    HearSilence(heard, exists');
    HearOne(heard, |after.recent|);
  }

  lemma OthersSilent(before: Frozen, after: Frozen, s: Session, withUid: bool)
    ensures Silent(if s.hideExpunged then [] else Expunges(before, Sorted(before.uids - after.uids)))
    ensures Silent(Fetches(after, s, Sorted(FetchUids(before, after, s)), withUid))
  {
  }

  /** The listed messages that are recent in the session. */
  ghost function RecentListed(s: Session): set<int> {
    set u | u in s.recent && u in s.cache
  }

  lemma FrozenListed(s: Session)
    ensures Freeze(s).recent == RecentListed(s)
  {
  }

  /** What the client has heard after a fork: the number of recent listed messages if it changed, and
      otherwise what it had heard. */
  lemma ForkHeard(s: Session, withUid: bool, heard: int)
    requires s.prev.Some? && !s.isDeleted
    ensures Hear(heard, Responses(s, withUid)) ==
            if |RecentListed(s)| != |s.prev.value.recent| then |RecentListed(s)| else heard
  {
    var before, after := s.prev.value, Freeze(s);
    FrozenListed(s);
    OthersSilent(before, after, s, withUid);
    HearCounts(heard, before, after);
    HearBetween(heard, if s.hideExpunged then [] else Expunges(before, Sorted(before.uids - after.uids)),
                Counts(before, after), Fetches(after, s, Sorted(FetchUids(before, after, s)), withUid));
  }

  /** So it is right after a fork exactly if it was before or the number changed. */
  ghost predicate HeardRight(s: Session, heard: int) {
    s.prev.Some? ==> heard == |s.prev.value.recent|
  }

  /** What the client has heard after a run: SELECT itself tells it a number before the first fork. */
  ghost function HeardAfter(sys: System, run: seq<Step>, heard: int): int
    decreases |run|
  {
    if run == [] then heard
    else HeardAfter(Next(sys, run[0]), run[1..], HeardNext(sys, run[0], heard))
  }

  ghost function HeardNext(sys: System, step: Step, heard: int): int {
    match step
    case Finish(withUid) => Hear(heard, Responses(sys.s, withUid))
    case _ => heard
  }

  /** Some fork of the run finds another number of recent messages than the fork before it, or the first
      fork finds the number that SELECT told. */
  ghost predicate Settled(sys: System, run: seq<Step>, heard: int)
    decreases |run|
  {
    run != [] && (Settles(sys.s, run[0], heard) || Settled(Next(sys, run[0]), run[1..], HeardNext(sys, run[0], heard)))
  }

  ghost predicate Settles(s: Session, step: Step, heard: int) {
    step.Finish? &&
      if s.prev.Some? then |RecentListed(s)| != |s.prev.value.recent| else |RecentListed(s)| == heard
  }

  lemma StepHeard(sys: System, step: Step, heard: int)
    requires Inv(sys)
    ensures var next := Next(sys, step).s;
            next.prev.Some? ==>
              (HeardRight(next, HeardNext(sys, step, heard)) <==>
                (sys.s.prev.Some? && HeardRight(sys.s, heard)) || Settles(sys.s, step, heard))
  {
    if step.Finish? {
      FinishHeard(sys.s, step.withUid, heard);
    }
  }

  lemma FinishHeard(s: Session, withUid: bool, heard: int)
    requires !s.isDeleted
    ensures HeardRight(NextEpoch(s), Hear(heard, Responses(s, withUid))) <==>
            (s.prev.Some? && HeardRight(s, heard)) || Settles(s, Finish(withUid), heard)
  {
    assert Freeze(s).recent == RecentListed(s);
    if s.prev.Some? {
      ForkHeard(s, withUid, heard);
    }
  }

  /** Over every run that has come to a fork: the client has heard the number of recent messages of the
      last fork exactly if it had before the run or has come to since. */
  lemma {:induction false} RunHeard(sys: System, run: seq<Step>, heard: int)
    requires Inv(sys) && EnabledRun(sys, run) && Run(sys, run).s.prev.Some?
    ensures HeardRight(Run(sys, run).s, HeardAfter(sys, run, heard)) <==>
            (sys.s.prev.Some? && HeardRight(sys.s, heard)) || Settled(sys, run, heard)
    decreases |run|
  {
    if run != [] {
      var next := Next(sys, run[0]);
      StepInv(sys, run[0]);
      StepHeard(sys, run[0], heard);
      RunHeard(next, run[1..], HeardNext(sys, run[0], heard));
    }
  }

  /** End to end: after a poll and a fork that hide nothing, the client has heard how many messages of the
      mailbox are recent in the session, exactly if SELECT told it right or the number changed since. */
  lemma HeardIsMailbox(start: System, run: seq<Step>, withUid: bool, heard: int)
    requires Initial(start) && EnabledRun(start, run) && !Run(start, run).s.hideExpunged
    ensures var all := run + [Poll, Finish(withUid)];
            var done := Run(start, all);
            HeardAfter(start, all, heard) == |set u | u in done.s.recent && u in done.mbox.messages| <==>
            Settled(start, all, heard)
  {
    var all := run + [Poll, Finish(withUid)];
    InitialInv(start);
    PollAfterRun(start, run);
    RunConcat(start, run, [Poll, Finish(withUid)]);
    var sys := Run(start, run);
    var polled := Next(sys, Poll);
    EndsPolled(sys, withUid);
    PolledFields(sys);
    var done := Next(polled, Finish(withUid));
    FrozenRecent(polled.s, done.s, done.mbox.messages);
    RunHeard(start, all, heard);
  }

  lemma EndsPolled(sys: System, withUid: bool)
    ensures Run(sys, [Poll, Finish(withUid)]) == Next(Next(sys, Poll), Finish(withUid))
    ensures EnabledRun(sys, [Poll, Finish(withUid)])
  {
    assert [Poll, Finish(withUid)][1..] == [Finish(withUid)] && [Finish(withUid)][1..] == [];
    assert Run(Next(sys, Poll), [Finish(withUid)]) == Next(Next(sys, Poll), Finish(withUid));
    assert EnabledRun(Next(sys, Poll), [Finish(withUid)]);
  }

  lemma FrozenRecent(s: Session, next: Session, messages: Cache)
    requires next == NextEpoch(s) && s.cache == messages
    ensures next.prev.Some? && next.prev.value.recent == set u | u in next.recent && u in messages
  {
  }

  /** SELECT tells a session that may write how many marks it has claimed, which is right. */
  lemma WritableSelect(m: Mbox, s: Session, withUid: bool)
    requires WellFormed(m) && s.recent == RecentUids(m.messages) && s.modSequence.None? && s.prev.None?
    requires s.cache == map[] && s.pending == {}
    ensures Settles(Sync(s, Apply(m, ClaimRecent)), Finish(withUid), |s.recent|)
  {
    var s' := Sync(s, Apply(m, ClaimRecent));
    assert RecentListed(s') == s.recent;
  }

  /** It tells a read-only session, which claims none, how many marks the mailbox holds: that is right
      exactly if it holds none. */
  lemma ReadOnlySelect(m: Mbox, s: Session, withUid: bool)
    requires s.recent == {} && s.modSequence.None? && s.prev.None?
    ensures Settles(Sync(s, m), Finish(withUid), |RecentUids(m.messages)|) <==>
            forall u :: u in m.messages ==> !m.messages[u].recent
  {
    var s' := Sync(s, m);
    assert RecentListed(s') == {};
    if u :| u in m.messages && m.messages[u].recent {
      assert u in RecentUids(m.messages);
    } else {
      assert forall u :: u !in RecentUids(m.messages);
    }
  }
}
