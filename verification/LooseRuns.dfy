/** Runs in which the change log may become untruthful: what a poll gives the session then. */
module LooseRuns {
  import opened Collections
  import opened Flags
  import opened Synchronized
  import opened ChangeLog
  import opened Selected
  import opened Mailbox
  import opened Replay
  import opened SessionRuns
  import opened DeadUpdates

  /** Like `Enabled`, but flags may be stored on messages that are gone and UIDs deleted twice in one
      call. */
  ghost predicate Allowed(sys: System, step: Step) {
    match step
    case Change(e) => e.DeleteMessages? ==> forall u :: u in e.uids ==> u <= sys.mbox.maxUid
    case Hide => !sys.polled
    case StoreSessionFlags(uid, _, _) => uid in sys.s.cache && uid in sys.mbox.messages
    case _ => true
  }

  ghost predicate AllowedRun(sys: System, run: seq<Step>)
    decreases |run|
  {
    run != [] ==> Allowed(sys, run[0]) && AllowedRun(Next(sys, run[0]), run[1..])
  }

  /** What the log still says: a message that is there was last updated. */
  ghost predicate LooseMbox(m: Mbox) {
    && WellFormed(m)
    && (forall u :: u in m.messages ==> Current(m.history, Updated, LastChange(m.history, u), u))
    && (forall u :: LastChange(m.history, u) > 0 ==> u <= m.maxUid)
  }

  /** What the session has is right for messages that did not change since it last polled, and no
      message is listed that the log said was expunged by then. */
  ghost predicate LooseSync(m: Mbox, s: Session, top: int) {
    && KeyedByUid(s.cache)
    && (s.modSequence.None? ==> s.cache == map[] && s.pending == {})
    && (s.modSequence.Some? ==> s.modSequence.value <= |m.history|)
    && (s.modSequence.Some? ==> forall u :: u in m.messages && LastChange(m.history, u) <= s.modSequence.value ==>
      u in s.cache && s.cache[u] == m.messages[u])
    && (s.modSequence.Some? ==> forall u :: u in s.cache && LoggedGone(m.history, u) ==>
      u in s.pending || LastChange(m.history, u) > s.modSequence.value)
    && (forall u :: u in s.pending ==> u <= top && u !in m.messages)
    && top <= m.maxUid
    && (forall u :: u in s.cache ==> u <= top)
    && (forall u :: u in m.messages && u <= top ==> u in s.cache)
  }

  ghost predicate LoggedGone(h: History, u: int) {
    Current(h, Expunged, LastChange(h, u), u)
  }

  ghost predicate LooseInv(sys: System) {
    && LooseMbox(sys.mbox)
    && LooseSync(sys.mbox, sys.s, sys.top)
    && EpochOk(sys.s, sys.polled, sys.top)
    && SflagsOk(sys.s)
    && ClientOk(sys.view, sys.s)
  }

  // ----- Changes of the mailbox

  lemma LooseAfter(m: Mbox, after: Mbox, batch: Batch)
    requires LooseMbox(m) && after.history == m.history + [batch]
    requires forall u :: u in after.messages && u !in batch.uids ==> u in m.messages
    requires forall u :: u in after.messages && u in batch.uids ==>
      batch.kind == Updated && Count(batch.uids, u) == 1
    ensures forall u :: u in after.messages ==> Current(after.history, Updated, LastChange(after.history, u), u)
  {
    forall u | u in after.messages ensures Current(after.history, Updated, LastChange(after.history, u), u) {
      LogGrows(m.history, batch, u);
    }
  }

  lemma UpdatedStays(m: Mbox, e: Event)
    requires LooseMbox(m)
    ensures var after := Apply(m, e);
            forall u :: u in after.messages ==> Current(after.history, Updated, LastChange(after.history, u), u)
  {
    var after := Apply(m, e);
    if after.history != m.history {
      if e.ClaimRecent? {
        forall u | u in Sorted(RecentUids(m.messages)) ensures Count(Sorted(RecentUids(m.messages)), u) == 1 {
          SortedCount(RecentUids(m.messages), u);
        }
      }
      LooseAfter(m, after, after.history[|m.history|]);
    }
  }

  lemma LooseChange(m: Mbox, e: Event)
    requires LooseMbox(m) && (e.DeleteMessages? ==> forall u :: u in e.uids ==> u <= m.maxUid)
    ensures LooseMbox(Apply(m, e))
  {
    ApplyWellFormed(m, e);
    UpdatedStays(m, e);
    forall u | LastChange(Apply(m, e).history, u) > 0 ensures u <= Apply(m, e).maxUid {
      BoundedAfter(m, e, u);
    }
  }

  /** What the log says of a UID that was not touched does not change. */
  lemma GoneBefore(m: Mbox, e: Event, u: int)
    requires WellFormed(m)
    requires LastChange(Apply(m, e).history, u) <= |m.history|
    ensures LastChange(Apply(m, e).history, u) == LastChange(m.history, u)
    ensures LoggedGone(Apply(m, e).history, u) <==> LoggedGone(m.history, u)
  {
    var after := Apply(m, e);
    if after.history != m.history {
      LogGrows(m.history, after.history[|m.history|], u);
    }
  }

  lemma LooseSyncAfter(m: Mbox, e: Event, s: Session, top: int)
    requires LooseMbox(m) && LooseSync(m, s, top)
    ensures LooseSync(Apply(m, e), s, top)
  {
    var after := Apply(m, e);
    ApplyLogged(m, e);
    if s.modSequence.Some? {
      forall u | u in s.cache && LoggedGone(after.history, u)
        ensures u in s.pending || LastChange(after.history, u) > s.modSequence.value
      {
        if LastChange(after.history, u) <= s.modSequence.value {
          GoneBefore(m, e, u);
        }
      }
    }
  }

  // ----- Polls

  /** What a poll achieves for one message, truthful log or not. */
  ghost predicate LoosePolled(m: Mbox, s: Session, s': Session, top: int, u: int) {
    && (u in m.messages ==> u in s'.cache && s'.cache[u] == m.messages[u])
    && (u in s'.cache ==> s'.cache[u].uid == u && u <= m.maxUid)
    && (u in s'.cache && LoggedGone(m.history, u) ==> u in s'.pending)
    && (u in s'.pending ==> u !in m.messages && u <= m.maxUid)
  }

  lemma LooseAnswers(m: Mbox, since: int, u: int)
    requires LooseMbox(m)
    ensures u in m.messages && LastChange(m.history, u) >= since ==>
              u in UpdatedSince(m, since) && UpdatedSince(m, since)[u] == m.messages[u]
    ensures u in ExpungedSince(m.history, since) <==> LoggedGone(m.history, u) && LastChange(m.history, u) >= since
    ensures LoggedGone(m.history, u) ==> u !in m.messages && u <= m.maxUid
  {
    if LastChange(m.history, u) > 0 {
      MentionedHas(m.history, u);
    }
  }

  lemma LoosePollOne(m: Mbox, s: Session, top: int, u: int)
    requires LooseMbox(m) && LooseSync(m, s, top)
    ensures LoosePolled(m, s, Sync(s, m), top, u)
  {
    if s.modSequence.Some? {
      LooseAnswers(m, s.modSequence.value, u);
    }
  }

  lemma LooseKeeps(m: Mbox, s: Session, top: int, u: int)
    requires LooseMbox(m) && LooseSync(m, s, top)
    ensures PolledKeeps(s, Sync(s, m), top, u)
  {
  }

  lemma LoosePolledSync(m: Mbox, s: Session, s': Session, top: int)
    requires LooseMbox(m) && s'.modSequence == Some(|m.history|)
    requires forall u :: LoosePolled(m, s, s', top, u)
    ensures LooseSync(m, s', m.maxUid)
  {
    forall u
      ensures u in m.messages ==> u in s'.cache && s'.cache[u] == m.messages[u]
      ensures u in s'.cache ==> s'.cache[u].uid == u && u <= m.maxUid
      ensures u in s'.cache && LoggedGone(m.history, u) ==> u in s'.pending
      ensures u in s'.pending ==> u !in m.messages && u <= m.maxUid
    {
      assert LoosePolled(m, s, s', top, u);
    }
  }

  lemma LooseSflags(m: Mbox, s: Session, top: int)
    requires LooseMbox(m) && LooseSync(m, s, top) && SflagsOk(s)
    ensures SflagsOk(Sync(s, m))
  {
  }

  lemma LoosePoll(sys: System, s': Session, next: System)
    requires LooseInv(sys) && s' == Sync(sys.s, sys.mbox)
    requires next == sys.(s := s', polled := true, top := sys.mbox.maxUid)
    ensures LooseInv(next)
  {
    forall u ensures LoosePolled(sys.mbox, sys.s, s', sys.top, u) && PolledKeeps(sys.s, s', sys.top, u) {
      LoosePollOne(sys.mbox, sys.s, sys.top, u);
      LooseKeeps(sys.mbox, sys.s, sys.top, u);
    }
    LooseSflags(sys.mbox, sys.s, sys.top);
    LoosePolledSync(sys.mbox, sys.s, s', sys.top);
    PolledEpoch(sys.mbox, sys.s, s', sys.polled, sys.top);
  }

  // ----- Runs

  lemma LooseFinish(sys: System, withUid: bool)
    requires LooseInv(sys)
    ensures LooseInv(Next(sys, Finish(withUid)))
  {
    FinishClient(sys.view, sys.s, sys.polled, sys.top, withUid);
  }

  lemma LooseStore(sys: System, uid: int, flagSet: set<Flag>, op: FlagOp)
    requires LooseInv(sys) && Allowed(sys, StoreSessionFlags(uid, flagSet, op))
    ensures LooseInv(Next(sys, StoreSessionFlags(uid, flagSet, op)))
  {
    StoreSflags(sys.s, uid, flagSet, op);
  }

  lemma LooseStep(sys: System, step: Step)
    requires LooseInv(sys) && Allowed(sys, step)
    ensures LooseInv(Next(sys, step))
  {
    match step
    case Change(e) =>
      LooseChange(sys.mbox, e);
      LooseSyncAfter(sys.mbox, e, sys.s, sys.top);
    case StoreSessionFlags(uid, flagSet, op) => LooseStore(sys, uid, flagSet, op);
    case Poll => LoosePoll(sys, Sync(sys.s, sys.mbox), Next(sys, Poll));
    case Finish(withUid) => LooseFinish(sys, withUid);
    case _ =>
  }

  lemma {:induction false} LooseRun(sys: System, run: seq<Step>)
    requires LooseInv(sys) && AllowedRun(sys, run)
    ensures LooseInv(Run(sys, run))
    decreases |run|
  {
    if run != [] {
      LooseStep(sys, run[0]);
      LooseRun(Next(sys, run[0]), run[1..]);
    }
  }

  lemma InitialLoose(sys: System)
    requires Initial(sys)
    ensures LooseInv(sys)
  {
  }

  /** What is left in the list of a message that is gone: it was not logged as expunged. */
  lemma StuckStays(sys: System, u: int)
    requires LooseInv(sys) && !sys.s.hideExpunged
    ensures var cache, messages := Sync(sys.s, sys.mbox).cache, sys.mbox.messages;
            && (u in messages ==> u in cache && cache[u] == messages[u])
            && (u in cache && u !in messages <==> Stuck(sys, u))
  {
    LoosePollOne(sys.mbox, sys.s, sys.top, u);
    LooseKeeps(sys.mbox, sys.s, sys.top, u);
    if sys.s.modSequence.Some? {
      LooseAnswers(sys.mbox, sys.s.modSequence.value, u);
    }
  }

  lemma CachesAgree(cache: Cache, messages: Cache)
    requires forall u :: u in messages ==> u in cache && cache[u] == messages[u]
    requires forall u :: u in cache ==> u in messages
    ensures cache == messages
  {
    assert forall u :: u in cache ==> cache[u] == messages[u];
    assert forall u :: u in cache <==> u in messages;
  }

  /** A poll that hides nothing leaves the session with the mailbox and the stuck messages: those that it
      lists although they are gone, not logged as expunged. */
  lemma PollExactly(sys: System, cache: Cache)
    requires LooseInv(sys) && !sys.s.hideExpunged && cache == Sync(sys.s, sys.mbox).cache
    ensures forall u :: u in cache <==> u in sys.mbox.messages || Stuck(sys, u)
    ensures forall u :: u in sys.mbox.messages ==> u in cache && cache[u] == sys.mbox.messages[u]
    ensures cache == sys.mbox.messages <==> forall u :: !Stuck(sys, u)
  {
    var messages := sys.mbox.messages;
    forall u
      ensures u in messages ==> u in cache && cache[u] == messages[u]
      ensures u in cache && u !in messages <==> Stuck(sys, u)
    {
      StuckStays(sys, u);
    }
    if forall u :: !Stuck(sys, u) {
      CachesAgree(cache, messages);
    }
  }

  /** End to end, for runs whose log need not be truthful: after a poll and a fork that hide nothing the
      client's numbering is that of the session, and the session has exactly the mailbox exactly if no
      message was stuck. */
  lemma ConvergesExactly(start: System, run: seq<Step>, withUid: bool)
    requires Initial(start) && AllowedRun(start, run) && !Run(start, run).s.hideExpunged
    ensures var sys := Run(start, run);
            var done := Next(Next(sys, Poll), Finish(withUid));
            && Tracks(done.view, Sorted(done.s.cache.Keys)) && done.s.pending == {} && done.mbox == sys.mbox
            && (forall u :: u in done.s.cache <==> u in done.mbox.messages || Stuck(sys, u))
            && (done.s.cache == done.mbox.messages <==> forall u :: !Stuck(sys, u))
  {
    InitialLoose(start);
    LooseRun(start, run);
    var sys := Run(start, run);
    var polled := Next(sys, Poll);
    LooseConverges(sys, polled, Next(polled, Finish(withUid)), withUid);
  }

  lemma LooseConverges(sys: System, polled: System, done: System, withUid: bool)
    requires LooseInv(sys) && !sys.s.hideExpunged
    requires polled == Next(sys, Poll) && done == Next(polled, Finish(withUid))
    ensures Tracks(done.view, Sorted(done.s.cache.Keys)) && done.s.pending == {} && done.mbox == sys.mbox
    ensures forall u :: u in done.s.cache <==> u in done.mbox.messages || Stuck(sys, u)
    ensures done.s.cache == done.mbox.messages <==> forall u :: !Stuck(sys, u)
  {
    LooseStep(sys, Poll);
    PolledFields(sys);
    PollExactly(sys, polled.s.cache);
    LooseFork(polled, withUid);
  }

  lemma LooseFork(sys: System, withUid: bool)
    requires LooseInv(sys) && sys.polled && !sys.s.hideExpunged
    ensures var done := Next(sys, Finish(withUid));
            Tracks(done.view, Sorted(done.s.cache.Keys)) && done.s.cache == sys.s.cache && done.s.pending == {}
  {
    FinishClient(sys.view, sys.s, sys.polled, sys.top, withUid);
  }
}
