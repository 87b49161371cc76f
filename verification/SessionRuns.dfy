/** Whole runs of one client's session on a mailbox that everybody changes: the session polls the
    mailbox, ends its commands, and its client follows by the positions in the responses alone. */
module SessionRuns {
  import opened Collections
  import opened Flags
  import opened Synchronized
  import opened ChangeLog
  import opened Selected
  import opened Mailbox
  import opened Replay

  /** The mailbox, the session, and the client's list; whether the session has polled since its
      last fork; the UIDs announced as expunged so far, in order; and the highest UID that had
      been handed out when the session last polled. */
  datatype System = System(
    mbox: Mbox, s: Session, view: seq<Slot>, polled: bool, announced: seq<int>, top: int)

  datatype Step =
    | Change(event: Event)
    | Hide
    | SilenceFlags(uids: set<int>, flagSet: set<Flag>, op: FlagOp)
    | MarkRecent(uid: int)
    | StoreSessionFlags(uid: int, flagSet: set<Flag>, op: FlagOp)
    | Poll
    | Finish(withUid: bool)

  ghost function WithSessionFlags(s: Session, uid: int, flagSet: set<Flag>, op: FlagOp): Session {
    var orig := if uid in s.sflags then s.sflags[uid] else {};
    var flags := op.Apply(orig, Intersect(s.defined, flagSet));
    s.(sflags := if flags == {} then s.sflags - {uid} else s.sflags[uid := flags])
  }

  /** The UIDs whose lines the client is told to delete. */
  ghost function Announced(s: Session): seq<int> {
    if s.prev.None? || s.hideExpunged then [] else Sorted(s.prev.value.uids - s.cache.Keys)
  }

  /** SELECT itself tells the client how many messages there are. */
  ghost function ClientSees(view: seq<Slot>, s: Session, withUid: bool): seq<Slot> {
    if s.prev.None? then seq(|Sorted(s.cache.Keys)|, _ => UNTOLD) else ReceiveAll(view, Responses(s, withUid))
  }

  ghost function Next(sys: System, step: Step): System {
    match step
    case Change(e) => sys.(mbox := Apply(sys.mbox, e))
    case Hide => sys.(s := sys.s.(hideExpunged := true))
    case SilenceFlags(uids, flagSet, op) => sys.(s := WithSilence(sys.s, uids, flagSet, op))
    case MarkRecent(uid) => sys.(s := sys.s.(recent := sys.s.recent + {uid}))
    case StoreSessionFlags(uid, flagSet, op) => sys.(s := WithSessionFlags(sys.s, uid, flagSet, op))
    case Poll => sys.(s := Sync(sys.s, sys.mbox), polled := true, top := sys.mbox.maxUid)
    case Finish(withUid) =>
      sys.(s := NextEpoch(sys.s), view := ClientSees(sys.view, sys.s, withUid),
           polled := false, announced := sys.announced + Announced(sys.s))
  }

  /** What the callers keep to: the log is kept truthful and only UIDs that were handed out are
      deleted; expunges are hidden before the first poll of a command; session flags are stored
      on messages that are listed and still there. */
  ghost predicate Enabled(sys: System, step: Step) {
    match step
    case Change(e) =>
      && Truthful(sys.mbox.maxUid, sys.mbox.messages.Keys, e)
      && (e.DeleteMessages? ==> forall u :: u in e.uids ==> u <= sys.mbox.maxUid)
    case Hide => !sys.polled
    case StoreSessionFlags(uid, _, _) => uid in sys.s.cache && uid in sys.mbox.messages
    case _ => true
  }

  ghost predicate EnabledRun(sys: System, run: seq<Step>)
    decreases |run|
  {
    run != [] ==> Enabled(sys, run[0]) && EnabledRun(Next(sys, run[0]), run[1..])
  }

  ghost function Run(sys: System, run: seq<Step>): System
    decreases |run|
  {
    if run == [] then sys else Run(Next(sys, run[0]), run[1..])
  }

  lemma {:induction false} RunConcat(sys: System, first: seq<Step>, second: seq<Step>)
    ensures Run(sys, first + second) == Run(Run(sys, first), second)
    ensures EnabledRun(sys, first + second) <==> EnabledRun(sys, first) && EnabledRun(Run(sys, first), second)
    decreases |first|
  {
    if first == [] {
      assert first + second == second;
    } else {
      assert (first + second)[1..] == first[1..] + second;
      RunConcat(Next(sys, first[0]), first[1..], second);
    }
  }

  /** A mailbox with a truthful log, just selected by a session that has not polled yet. */
  ghost predicate Initial(sys: System) {
    && MboxOk(sys.mbox)
    && sys.s.cache == map[] && sys.s.pending == {} && sys.s.modSequence == None && sys.s.prev == None
    && sys.s.sflags == map[] && !sys.s.isDeleted
    && sys.view == [] && !sys.polled && sys.announced == [] && sys.top == 0
  }

  ghost predicate MboxOk(m: Mbox) {
    && WellFormed(m) && LogAgrees(m)
    && (forall u :: LastChange(m.history, u) > 0 ==> u <= m.maxUid)
  }

  /** What the session has is right for every message that did not change since it last polled. */
  ghost predicate SyncOk(m: Mbox, s: Session, top: int) {
    && KeyedByUid(s.cache)
    && (s.modSequence.None? ==> s.cache == map[] && s.pending == {})
    && (s.modSequence.Some? ==> 0 <= s.modSequence.value <= |m.history|)
    && (s.modSequence.Some? ==> forall u :: LastChange(m.history, u) <= s.modSequence.value && u !in s.pending ==>
      (u in s.cache <==> u in m.messages) && (u in s.cache ==> s.cache[u] == m.messages[u]))
    && (forall u :: u in s.pending ==> u <= top && u !in m.messages)
    && top <= m.maxUid
    && (forall u :: u in s.cache ==> u <= top)
    && (forall u :: u in m.messages && u <= top ==> u in s.cache)
  }

  /** How the session relates to its state at the last fork. */
  ghost predicate EpochOk(s: Session, polled: bool, top: int) {
    && !s.isDeleted
    && (polled && !s.hideExpunged ==> s.pending == {})
    && (s.prev.Some? ==>
      && (forall x :: x in s.prev.value.uids ==> x <= top)
      && NewAbove(s.prev.value.uids, s.cache.Keys)
      && (s.hideExpunged || !polled ==> s.prev.value.uids <= s.cache.Keys))
  }

  /** Every session flag that changed since the last fork belongs to a message that will still be
      listed at the next one. */
  ghost predicate SflagsOk(s: Session) {
    forall u :: u in s.sflags && !(s.prev.Some? && (u, s.sflags[u]) in s.prev.value.sflags) ==>
      u in s.cache && (s.hideExpunged || u !in s.pending)
  }

  ghost predicate ClientOk(view: seq<Slot>, s: Session) {
    s.prev.Some? ==> Tracks(view, Sorted(s.prev.value.uids))
  }

  /** No UID is announced twice, and none that was announced ever comes back. */
  ghost predicate AnnouncedOk(announced: seq<int>, s: Session, top: int) {
    && NoDuplicates(announced)
    && (forall i :: 0 <= i < |announced| ==>
      && announced[i] <= top && announced[i] !in s.cache
      && (s.prev.Some? ==> announced[i] !in s.prev.value.uids))
  }

  ghost predicate Inv(sys: System) {
    && MboxOk(sys.mbox)
    && SyncOk(sys.mbox, sys.s, sys.top)
    && EpochOk(sys.s, sys.polled, sys.top)
    && SflagsOk(sys.s)
    && ClientOk(sys.view, sys.s)
    && AnnouncedOk(sys.announced, sys.s, sys.top)
  }

  lemma InitialInv(sys: System)
    requires Initial(sys)
    ensures Inv(sys)
  {
  }

  /** An empty mailbox, just selected, is a start. */
  lemma FreshInitial(sys: System)
    requires sys.mbox == Mbox(100, map[], []) && sys.view == [] && !sys.polled && sys.announced == [] && sys.top == 0
    requires sys.s.cache == map[] && sys.s.pending == {} && sys.s.modSequence == None && sys.s.prev == None
    requires sys.s.sflags == map[] && !sys.s.isDeleted
    ensures Initial(sys)
  {
  }

  /** Polling, ending commands and deliveries are always possible, so runs of any length exist. */
  lemma {:induction false} RunsExist(sys: System, run: seq<Step>)
    requires forall i :: 0 <= i < |run| ==>
      run[i].Poll? || run[i].Finish? || (run[i].Change? && run[i].event.Insert?)
    ensures EnabledRun(sys, run)
    decreases |run|
  {
    if run != [] {
      RunsExist(Next(sys, run[0]), run[1..]);
    }
  }

  /** A change of the mailbox touches only the UIDs it logs. */
  lemma ApplyTouches(m: Mbox, e: Event, u: int)
    requires WellFormed(m)
    requires LastChange(Apply(m, e).history, u) <= |m.history|
    ensures LastChange(Apply(m, e).history, u) == LastChange(m.history, u)
    ensures u in Apply(m, e).messages <==> u in m.messages
    ensures u in m.messages ==> Apply(m, e).messages[u] == m.messages[u]
  {
    var after := Apply(m, e);
    if after.history != m.history {
      var batch := after.history[|m.history|];
      LogGrows(m.history, batch, u);
      assert u !in batch.uids;
      if e.ClaimRecent? {
        InSorted(RecentUids(m.messages), u);
      }
    }
  }

  lemma ChangeMbox(m: Mbox, e: Event)
    requires MboxOk(m) && Truthful(m.maxUid, m.messages.Keys, e)
    requires e.DeleteMessages? ==> forall u :: u in e.uids ==> u <= m.maxUid
    ensures MboxOk(Apply(m, e))
  {
    ApplyWellFormed(m, e);
    ApplyLogAgrees(m, e);
    forall u | LastChange(Apply(m, e).history, u) > 0 ensures u <= Apply(m, e).maxUid {
      BoundedAfter(m, e, u);
    }
  }

  /** The mailbox moved on to `after`, logging every UID it touched. */
  ghost predicate Logged(m: Mbox, after: Mbox) {
    && |m.history| <= |after.history| && m.maxUid <= after.maxUid
    && (forall u :: u in after.messages && u !in m.messages ==> u > m.maxUid)
    && (forall u :: LastChange(after.history, u) <= |m.history| ==>
      && LastChange(after.history, u) == LastChange(m.history, u)
      && (u in after.messages <==> u in m.messages)
      && (u in m.messages ==> after.messages[u] == m.messages[u]))
  }

  lemma ApplyLogged(m: Mbox, e: Event)
    requires WellFormed(m)
    ensures Logged(m, Apply(m, e))
  {
    var after := Apply(m, e);
    ApplyWellFormed(m, e);
    forall u | LastChange(after.history, u) <= |m.history|
      ensures LastChange(after.history, u) == LastChange(m.history, u) && (u in after.messages <==> u in m.messages)
      ensures u in m.messages ==> after.messages[u] == m.messages[u]
    {
      ApplyTouches(m, e, u);
    }
  }

  lemma SyncAfter(m: Mbox, after: Mbox, s: Session, top: int)
    requires SyncOk(m, s, top) && Logged(m, after)
    ensures SyncOk(after, s, top)
  {
  }

  lemma ChangeInv(sys: System, e: Event)
    requires Inv(sys) && Enabled(sys, Change(e))
    ensures Inv(Next(sys, Change(e)))
  {
    ChangeMbox(sys.mbox, e);
    ApplyLogged(sys.mbox, e);
    SyncAfter(sys.mbox, Apply(sys.mbox, e), sys.s, sys.top);
  }

  lemma BoundedAfter(m: Mbox, e: Event, u: int)
    requires LastChange(m.history, u) > 0 ==> u <= m.maxUid
    requires LastChange(Apply(m, e).history, u) > 0 && forall v :: v in m.messages ==> v <= m.maxUid
    requires e.DeleteMessages? ==> forall v :: v in e.uids ==> v <= m.maxUid
    ensures u <= Apply(m, e).maxUid
  {
    var after := Apply(m, e);
    if after.history != m.history {
      var batch := after.history[|m.history|];
      LoggedWithin(m, e, batch);
      BatchBounded(m.history, batch, u, after.maxUid);
    }
  }

  lemma LoggedWithin(m: Mbox, e: Event, batch: Batch)
    requires Apply(m, e).history != m.history && batch == Apply(m, e).history[|m.history|]
    requires forall v :: v in m.messages ==> v <= m.maxUid
    requires e.DeleteMessages? ==> forall v :: v in e.uids ==> v <= m.maxUid
    ensures Apply(m, e).history == m.history + [batch] && m.maxUid <= Apply(m, e).maxUid
    ensures forall v :: v in batch.uids ==> v <= Apply(m, e).maxUid
  {
    if e.ClaimRecent? {
      forall v | v in batch.uids ensures v <= m.maxUid {
        InSorted(RecentUids(m.messages), v);
      }
    }
  }

  lemma BatchBounded(h: History, batch: Batch, u: int, limit: int)
    requires forall v :: v in batch.uids ==> v <= limit
    requires LastChange(h, u) > 0 ==> u <= limit
    ensures LastChange(h + [batch], u) > 0 ==> u <= limit
  {
    LogGrows(h, batch, u);
  }

  lemma HideInv(sys: System)
    requires Inv(sys) && Enabled(sys, Hide)
    ensures Inv(Next(sys, Hide))
  {
  }

  lemma SilenceInv(sys: System, uids: set<int>, flagSet: set<Flag>, op: FlagOp)
    requires Inv(sys)
    ensures Inv(Next(sys, SilenceFlags(uids, flagSet, op)))
  {
  }

  lemma StoreSflags(s: Session, uid: int, flagSet: set<Flag>, op: FlagOp)
    requires SflagsOk(s) && uid in s.cache && uid !in s.pending
    ensures SflagsOk(WithSessionFlags(s, uid, flagSet, op))
  {
  }

  lemma StoreInv(sys: System, uid: int, flagSet: set<Flag>, op: FlagOp)
    requires Inv(sys) && Enabled(sys, StoreSessionFlags(uid, flagSet, op))
    ensures Inv(Next(sys, StoreSessionFlags(uid, flagSet, op)))
  {
    var s' := WithSessionFlags(sys.s, uid, flagSet, op);
    StoreSflags(sys.s, uid, flagSet, op);
    assert s' == sys.s.(sflags := s'.sflags);
    SflagsElsewhere(sys, s'.sflags);
  }

  /** Nothing but `SflagsOk` depends on the session flags. */
  lemma SflagsElsewhere(sys: System, sflags: map<int, set<Flag>>)
    requires Inv(sys)
    ensures var s' := sys.s.(sflags := sflags);
            && SyncOk(sys.mbox, s', sys.top) && EpochOk(s', sys.polled, sys.top)
            && ClientOk(sys.view, s') && AnnouncedOk(sys.announced, s', sys.top)
  {
  }

  /** The heart of the synchronisation: a message that was touched since the last poll is in
      exactly one of the two answers, by whether it is there now. */
  lemma TouchedIsReported(m: Mbox, since: int, u: int)
    requires LogAgrees(m) && LastChange(m.history, u) >= since
    ensures u in m.messages ==> u in UpdatedSince(m, since) && UpdatedSince(m, since)[u] == m.messages[u]
    ensures u in ExpungedSince(m.history, since) <==> u !in m.messages && LastChange(m.history, u) > 0
  {
    if LastChange(m.history, u) > 0 {
      MentionedHas(m.history, u);
    }
  }

  lemma UntouchedIsNot(m: Mbox, since: int, u: int)
    requires LastChange(m.history, u) < since
    ensures u !in UpdatedSince(m, since) && u !in ExpungedSince(m.history, since)
  {
  }

  /** After a poll the session agrees with the mailbox on every message that is not pending. */
  lemma PollAgrees(m: Mbox, s: Session, top: int, u: int)
    requires MboxOk(m) && SyncOk(m, s, top)
    ensures var s' := Sync(s, m);
            && (u in m.messages ==> u in s'.cache && s'.cache[u] == m.messages[u])
            && (u in s'.cache && u !in m.messages ==> s.hideExpunged && u in s'.pending)
            && (u in s'.pending ==> u !in m.messages && u <= m.maxUid)
            && (u in s'.cache && u !in m.messages ==> u in s.cache)
  {
    match s.modSequence
    case None =>
    case Some(since) =>
      if LastChange(m.history, u) >= since {
        TouchedIsReported(m, since, u);
      } else {
        UntouchedIsNot(m, since, u);
      }
  }

  /** What a poll achieves for one message. */
  ghost predicate PolledOk(m: Mbox, s: Session, s': Session, top: int, u: int) {
    && (u in m.messages ==> u in s'.cache && s'.cache[u] == m.messages[u])
    && (u in s'.cache ==> s'.cache[u].uid == u && u <= m.maxUid)
    && (u in s'.cache && u !in m.messages ==> s.hideExpunged && u in s'.pending)
    && (u in s'.pending ==> s.hideExpunged && u !in m.messages && u <= m.maxUid)
    && (u in s'.cache && u !in s.cache ==> u > top)
    && (s.hideExpunged && u in s.cache ==> u in s'.cache)
    && (s.hideExpunged && u in s.pending ==> u in s'.pending)
  }

  lemma PollOne(m: Mbox, s: Session, top: int, u: int)
    requires MboxOk(m) && SyncOk(m, s, top)
    ensures PolledOk(m, s, Sync(s, m), top, u)
  {
    PollAgrees(m, s, top, u);
  }

  lemma PolledSync(m: Mbox, s: Session, s': Session, top: int)
    requires WellFormed(m) && forall u :: PolledOk(m, s, s', top, u)
    requires s'.modSequence == Some(|m.history|)
    ensures SyncOk(m, s', m.maxUid)
    ensures !s.hideExpunged ==> s'.cache == m.messages && s'.pending == {}
  {
    forall u
      ensures u in m.messages ==> u in s'.cache && s'.cache[u] == m.messages[u]
      ensures u in s'.cache ==> s'.cache[u].uid == u && u <= m.maxUid
      ensures u in s'.cache && u !in m.messages ==> s.hideExpunged && u in s'.pending
    {
      assert PolledOk(m, s, s', top, u);
    }
    forall u ensures u in s'.pending ==> s.hideExpunged && u !in m.messages && u <= m.maxUid {
      assert PolledOk(m, s, s', top, u);
    }
    if !s.hideExpunged {
      assert forall u :: u in s'.cache <==> u in m.messages;
      assert forall u :: u !in s'.pending;
    }
  }

  /** Nothing old comes into the list, and nothing leaves it while expunges are hidden. */
  ghost predicate PolledKeeps(s: Session, s': Session, top: int, u: int) {
    && (u in s'.cache && u !in s.cache ==> u > top)
    && (s.hideExpunged && u in s.cache ==> u in s'.cache)
    && (u in s'.pending ==> s.hideExpunged)
  }

  lemma PolledEpoch(m: Mbox, s: Session, s': Session, polled: bool, top: int)
    requires EpochOk(s, polled, top) && top <= m.maxUid && forall u :: PolledKeeps(s, s', top, u)
    requires s'.prev == s.prev && s'.isDeleted == s.isDeleted && s'.hideExpunged == s.hideExpunged
    ensures EpochOk(s', true, m.maxUid)
  {
    forall u
      ensures u in s'.cache && u !in s.cache ==> u > top
      ensures s.hideExpunged && u in s.cache ==> u in s'.cache
      ensures u in s'.pending ==> s.hideExpunged
    {
      assert PolledKeeps(s, s', top, u);
    }
    assert !s.hideExpunged ==> forall u :: u !in s'.pending;
    if s.prev.Some? {
      var before := s.prev.value.uids;
      forall x, y | x in before && y in s'.cache.Keys - before ensures x < y {
        assert y in s.cache ==> y in s.cache.Keys - before;
      }
    }
  }

  lemma PolledAnnounced(announced: seq<int>, m: Mbox, s: Session, s': Session, top: int)
    requires AnnouncedOk(announced, s, top) && top <= m.maxUid && forall u :: PolledOk(m, s, s', top, u)
    requires s'.prev == s.prev
    ensures AnnouncedOk(announced, s', m.maxUid)
  {
    forall i | 0 <= i < |announced| ensures announced[i] !in s'.cache {
      assert PolledOk(m, s, s', top, announced[i]);
    }
  }

  /** A session flag that changed in this epoch survives the poll only with its message. */
  lemma PolledSflags(m: Mbox, s: Session, top: int)
    requires MboxOk(m) && SyncOk(m, s, top) && SflagsOk(s)
    ensures SflagsOk(Sync(s, m))
  {
  }

  lemma PollInv(sys: System)
    requires Inv(sys)
    ensures Inv(Next(sys, Poll))
  {
    var s' := Sync(sys.s, sys.mbox);
    forall u ensures PolledOk(sys.mbox, sys.s, s', sys.top, u) {
      PollOne(sys.mbox, sys.s, sys.top, u);
    }
    PolledSflags(sys.mbox, sys.s, sys.top);
    PolledInv(sys, s', Next(sys, Poll));
  }

  lemma PolledInv(sys: System, s': Session, next: System)
    requires Inv(sys) && SflagsOk(s') && forall u :: PolledOk(sys.mbox, sys.s, s', sys.top, u)
    requires s'.modSequence == Some(|sys.mbox.history|) && s'.prev == sys.s.prev
    requires s'.isDeleted == sys.s.isDeleted && s'.hideExpunged == sys.s.hideExpunged
    requires next == sys.(s := s', polled := true, top := sys.mbox.maxUid)
    ensures Inv(next)
  {
    PolledSync(sys.mbox, sys.s, s', sys.top);
    forall u ensures PolledKeeps(sys.s, s', sys.top, u) {
      assert PolledOk(sys.mbox, sys.s, s', sys.top, u);
    }
    PolledEpoch(sys.mbox, sys.s, s', sys.polled, sys.top);
    PolledAnnounced(sys.announced, sys.mbox, sys.s, s', sys.top);
  }

  /** The fork can look up the number of every message it reports. */
  lemma FetchesListed(s: Session)
    requires KeyedByUid(s.cache) && SflagsOk(s) && s.prev.Some?
    ensures FetchUids(s.prev.value, Freeze(s), s) <= s.cache.Keys
  {
    var before, after := s.prev.value, Freeze(s);
    forall u | u in FirstOf(NewSflags(before, after, s)) ensures u in s.cache {
      var key :| key in NewSflags(before, after, s) && key.0 == u;
      assert key in FlagItems(s.sflags) && s.sflags[u] == key.1;
      assert (u, s.sflags[u]) == key;
    }
    FetchedAreListed(s, before);
  }

  lemma FinishClient(view: seq<Slot>, s: Session, polled: bool, top: int, withUid: bool)
    requires KeyedByUid(s.cache) && EpochOk(s, polled, top) && SflagsOk(s) && ClientOk(view, s)
    ensures Tracks(ClientSees(view, s, withUid), Sorted(s.cache.Keys))
    ensures s.prev.Some? ==>
      Follows(ClientSees(view, s, withUid), view, s, s.prev.value, withUid)
  {
    if s.prev.Some? {
      FetchesListed(s);
      ReplayFork(view, s, s.prev.value, withUid);
      FollowsTracks(ClientSees(view, s, withUid), view, s, s.prev.value, withUid);
    }
  }

  lemma FinishAnnounced(announced: seq<int>, s: Session, top: int)
    requires AnnouncedOk(announced, s, top) && (s.prev.Some? ==> forall x :: x in s.prev.value.uids ==> x <= top)
    ensures AnnouncedOk(announced + Announced(s), NextEpoch(s), top)
  {
    var new' := Announced(s);
    if s.prev.Some? && !s.hideExpunged {
      var gone := s.prev.value.uids - s.cache.Keys;
      assert forall i :: 0 <= i < |new'| ==> new'[i] in gone;
    }
  }

  lemma FinishInv(sys: System, withUid: bool)
    requires Inv(sys)
    ensures Inv(Next(sys, Finish(withUid)))
  {
    FinishClient(sys.view, sys.s, sys.polled, sys.top, withUid);
    FinishAnnounced(sys.announced, sys.s, sys.top);
    FinishSession(sys.mbox, sys.s, sys.top);
  }

  lemma FinishSession(m: Mbox, s: Session, top: int)
    requires SyncOk(m, s, top)
    ensures SyncOk(m, NextEpoch(s), top) && EpochOk(NextEpoch(s), false, top) && SflagsOk(NextEpoch(s))
  {
  }

  lemma StepInv(sys: System, step: Step)
    requires Inv(sys) && Enabled(sys, step)
    ensures Inv(Next(sys, step))
  {
    match step
    case Change(e) => ChangeInv(sys, e);
    case Hide => HideInv(sys);
    case SilenceFlags(uids, flagSet, op) => SilenceInv(sys, uids, flagSet, op);
    case MarkRecent(uid) =>
    case StoreSessionFlags(uid, flagSet, op) => StoreInv(sys, uid, flagSet, op);
    case Poll => PollInv(sys);
    case Finish(withUid) => FinishInv(sys, withUid);
  }

  lemma {:induction false} RunInv(sys: System, run: seq<Step>)
    requires Inv(sys) && EnabledRun(sys, run)
    ensures Inv(Run(sys, run))
    decreases |run|
  {
    if run != [] {
      StepInv(sys, run[0]);
      RunInv(Next(sys, run[0]), run[1..]);
    }
  }

  lemma ReachableInv(start: System, run: seq<Step>)
    requires Initial(start) && EnabledRun(start, run)
    ensures Inv(Run(start, run))
  {
    InitialInv(start);
    RunInv(start, run);
  }

  /** End to end: whatever happened before, polling and ending a command that hides nothing leaves
      the session with exactly the mailbox and the client with exactly its numbering. */
  lemma ClientConverges(start: System, run: seq<Step>, withUid: bool)
    requires Initial(start) && EnabledRun(start, run) && !Run(start, run).s.hideExpunged
    ensures var done := Next(Next(Run(start, run), Poll), Finish(withUid));
            && done.s.cache == done.mbox.messages && done.s.pending == {}
            && FlagsKeys(done.s.cache) == FlagsKeys(done.mbox.messages)
            && |done.view| == |done.mbox.messages.Keys|
            && Tracks(done.view, Sorted(done.mbox.messages.Keys))
  {
    ReachableInv(start, run);
    PollAfterRun(start, run);
    PollThenFinish(Run(start, run), withUid);
  }

  /** Hiding lasts for one command: whatever happened before, the command after the next fork brings all
      that was held back. */
  lemma NextCommandConverges(start: System, run: seq<Step>, withUid: bool, nextWithUid: bool)
    requires Initial(start) && EnabledRun(start, run)
    ensures var forked := Next(Run(start, run), Finish(withUid));
            var done := Next(Next(forked, Poll), Finish(nextWithUid));
            && done.s.cache == done.mbox.messages && done.s.pending == {}
            && |done.view| == |done.mbox.messages.Keys|
            && Tracks(done.view, Sorted(done.mbox.messages.Keys))
  {
    ReachableInv(start, run);
    ForkThenConverges(Run(start, run), Next(Run(start, run), Finish(withUid)), withUid, nextWithUid);
  }

  lemma ForkThenConverges(sys: System, forked: System, withUid: bool, nextWithUid: bool)
    requires Inv(sys) && forked == Next(sys, Finish(withUid))
    ensures var done := Next(Next(forked, Poll), Finish(nextWithUid));
            && done.s.cache == done.mbox.messages && done.s.pending == {}
            && |done.view| == |done.mbox.messages.Keys|
            && Tracks(done.view, Sorted(done.mbox.messages.Keys))
  {
    FinishInv(sys, withUid);
    FinishUnhides(sys, withUid);
    PollConverges(forked, nextWithUid);
  }

  lemma FinishUnhides(sys: System, withUid: bool)
    ensures !Next(sys, Finish(withUid)).s.hideExpunged
  {
  }

  lemma PollConverges(sys: System, withUid: bool)
    requires Inv(sys) && !sys.s.hideExpunged
    ensures var done := Next(Next(sys, Poll), Finish(withUid));
            && done.s.cache == done.mbox.messages && done.s.pending == {}
            && |done.view| == |done.mbox.messages.Keys|
            && Tracks(done.view, Sorted(done.mbox.messages.Keys))
  {
    PollExact(sys.mbox, sys.s, sys.top);
    PollThenFinish(sys, withUid);
  }

  /** A fork says BYE exactly if the mailbox was deleted, and then nothing else. */
  lemma ByeExactly(s: Session, withUid: bool)
    ensures Bye in Responses(s, withUid) <==> s.prev.Some? && s.isDeleted
    ensures Bye in Responses(s, withUid) ==> Responses(s, withUid) == [Bye]
  {
    if s.prev.Some? && !s.isDeleted {
      var before, after := s.prev.value, Freeze(s);
      OthersSayNoBye(before, after, s, withUid);
      NoByeIn(if s.hideExpunged then [] else Expunges(before, Sorted(before.uids - after.uids)),
              Counts(before, after), Fetches(after, s, Sorted(FetchUids(before, after, s)), withUid));
    }
  }

  lemma NoByeIn(first: seq<Response>, second: seq<Response>, third: seq<Response>)
    requires Bye !in first && Bye !in second && Bye !in third
    ensures Bye !in first + second + third
  {
  }

  lemma OthersSayNoBye(before: Frozen, after: Frozen, s: Session, withUid: bool)
    ensures Bye !in Expunges(before, Sorted(before.uids - after.uids))
    ensures Bye !in Counts(before, after)
    ensures Bye !in Fetches(after, s, Sorted(FetchUids(before, after, s)), withUid)
  {
  }

  lemma PollThenFinish(sys: System, withUid: bool)
    requires Inv(sys) && Sync(sys.s, sys.mbox).cache == sys.mbox.messages && Sync(sys.s, sys.mbox).pending == {}
    ensures var done := Next(Next(sys, Poll), Finish(withUid));
            && done.s.cache == done.mbox.messages && done.s.pending == {}
            && |done.view| == |done.mbox.messages.Keys|
            && Tracks(done.view, Sorted(done.mbox.messages.Keys))
  {
    PollInv(sys);
    PolledFields(sys);
    FinishConverges(Next(sys, Poll), withUid);
  }

  lemma PolledFields(sys: System)
    ensures Next(sys, Poll).s == Sync(sys.s, sys.mbox) && Next(sys, Poll).mbox == sys.mbox
  {
  }

  lemma FinishConverges(polled: System, withUid: bool)
    requires Inv(polled) && polled.s.cache == polled.mbox.messages && polled.s.pending == {}
    ensures var done := Next(polled, Finish(withUid));
            && done.s.cache == done.mbox.messages && done.s.pending == {}
            && |done.view| == |done.mbox.messages.Keys|
            && Tracks(done.view, Sorted(done.mbox.messages.Keys))
  {
    FinishTracks(polled, withUid);
    AscendingSize(Sorted(polled.s.cache.Keys), polled.s.cache.Keys);
  }

  lemma FinishTracks(sys: System, withUid: bool)
    requires Inv(sys)
    ensures Tracks(Next(sys, Finish(withUid)).view, Sorted(sys.s.cache.Keys))
  {
    FinishClient(sys.view, sys.s, sys.polled, sys.top, withUid);
  }

  lemma PollExact(m: Mbox, s: Session, top: int)
    requires MboxOk(m) && SyncOk(m, s, top) && !s.hideExpunged
    ensures Sync(s, m).cache == m.messages && Sync(s, m).pending == {}
  {
    forall u ensures PolledOk(m, s, Sync(s, m), top, u) {
      PollOne(m, s, top, u);
    }
    PolledSync(m, s, Sync(s, m), top);
  }

  /** Whatever happened before, a poll that hides nothing gives the session exactly the mailbox. */
  lemma PollAfterRun(start: System, run: seq<Step>)
    requires Initial(start) && EnabledRun(start, run) && !Run(start, run).s.hideExpunged
    ensures var sys := Run(start, run);
            Sync(sys.s, sys.mbox).cache == sys.mbox.messages && Sync(sys.s, sys.mbox).pending == {}
  {
    ReachableInv(start, run);
    var sys := Run(start, run);
    PollExact(sys.mbox, sys.s, sys.top);
  }

  /** Every fork of every run: the client keeps step, a session flag never refers to a message that
      is not listed, a command that hid nothing and polled has nothing left to announce, and nothing is
      hidden or silenced in the next one. */
  lemma EveryFork(start: System, run: seq<Step>, withUid: bool)
    requires Initial(start) && EnabledRun(start, run)
    ensures var sys, done := Run(start, run), Next(Run(start, run), Finish(withUid));
            && Tracks(done.view, Sorted(sys.s.cache.Keys))
            && (sys.s.prev.Some? ==>
              Follows(done.view, sys.view, sys.s, sys.s.prev.value, withUid))
            && SessionFlagsListed(sys.s)
            && (sys.polled && !sys.s.hideExpunged ==> done.s.pending == {})
            && !done.s.hideExpunged && done.s.silencedFlags == {} && done.s.silencedSflags == {}
  {
    ReachableInv(start, run);
    var sys := Run(start, run);
    FinishClient(sys.view, sys.s, sys.polled, sys.top, withUid);
    if sys.s.prev.Some? {
      FetchesListed(sys.s);
    }
  }

  /** No UID is announced as expunged twice, over a whole run. */
  lemma AnnouncedOnce(start: System, run: seq<Step>)
    requires Initial(start) && EnabledRun(start, run)
    ensures NoDuplicates(Run(start, run).announced)
  {
    ReachableInv(start, run);
  }

  lemma NumbersKept(before: set<int>, after: set<int>, u: int)
    requires before <= after && NewAbove(before, after) && u in before
    ensures NumberOf(after, u) == NumberOf(before, u)
  {
    assert before + (after - before) == after;
    SortedAppend(before, after - before);
    InSorted(before, u);
    InSorted(after, u);
    var k := IndexOf(Sorted(before), u);
    assert Sorted(after)[k] == u;
    IndexOfAscending(Sorted(after), k);
  }

  ghost predicate NoExpunge(rs: seq<Response>) {
    forall i :: 0 <= i < |rs| ==> !rs[i].Expunge?
  }

  lemma OthersExpungeNothing(before: Frozen, after: Frozen, s: Session, withUid: bool)
    ensures NoExpunge(Counts(before, after))
    ensures NoExpunge(Fetches(after, s, Sorted(FetchUids(before, after, s)), withUid))
  {
  }

  lemma NoneAfterNone(first: seq<Response>, second: seq<Response>)
    requires NoExpunge(first) && NoExpunge(second)
    ensures NoExpunge(first + second)
  {
  }

  lemma HiddenSendsNone(s: Session, withUid: bool)
    requires s.hideExpunged
    ensures NoExpunge(Responses(s, withUid))
  {
    if s.prev.Some? && !s.isDeleted {
      var before, after := s.prev.value, Freeze(s);
      OthersExpungeNothing(before, after, s, withUid);
      NoneAfterNone([], Counts(before, after));
      NoneAfterNone([] + Counts(before, after), Fetches(after, s, Sorted(FetchUids(before, after, s)), withUid));
    }
  }

  /** A command that hides expunges sends no EXPUNGE and moves no message. */
  lemma HiddenFork(start: System, run: seq<Step>, withUid: bool)
    requires Initial(start) && EnabledRun(start, run)
    requires Run(start, run).s.hideExpunged && Run(start, run).s.prev.Some?
    ensures var s := Run(start, run).s;
            && NoExpunge(Responses(s, withUid))
            && s.prev.value.uids <= s.cache.Keys
            && (forall u :: u in s.prev.value.uids ==> NumberOf(s.cache.Keys, u) == NumberOf(s.prev.value.uids, u))
  {
    ReachableInv(start, run);
    var s := Run(start, run).s;
    HiddenSendsNone(s, withUid);
    forall u | u in s.prev.value.uids ensures NumberOf(s.cache.Keys, u) == NumberOf(s.prev.value.uids, u) {
      NumbersKept(s.prev.value.uids, s.cache.Keys, u);
    }
  }

  /** The responses of a fork that are not about expunged messages. */
  ghost function OtherResponses(s: Session, withUid: bool): seq<Response>
    requires s.prev.Some?
  {
    var before, after := s.prev.value, Freeze(s);
    Counts(before, after) + Fetches(after, s, Sorted(FetchUids(before, after, s)), withUid)
  }

  /** The EXPUNGE responses of a fork are the numbers of the announced UIDs, last to first, and
      come before all others. */
  lemma ForkAnnounces(s: Session, withUid: bool)
    requires s.prev.Some? && !s.isDeleted
    ensures Responses(s, withUid) == Expunges(s.prev.value, Announced(s)) + OtherResponses(s, withUid)
    ensures NoExpunge(OtherResponses(s, withUid))
  {
    var before, after := s.prev.value, Freeze(s);
    var counts, fetches := Counts(before, after), Fetches(after, s, Sorted(FetchUids(before, after, s)), withUid);
    OthersExpungeNothing(before, after, s, withUid);
    NoneAfterNone(counts, fetches);
    NothingGone(before);
    assert Expunges(before, []) == [];
    ConcatAssoc(Expunges(before, Announced(s)), counts, fetches);
  }

  lemma ReloadIs(s: Session, m: Mbox)
    requires !s.hideExpunged
    ensures Sync(s.(modSequence := None, cache := map[], pending := {}), m).cache == m.messages
    ensures s.pending !! m.messages.Keys ==>
            WithUpdates(s, m.messages, s.cache.Keys - m.messages.Keys).cache == m.messages
  {
    var all := WithUpdates(s, m.messages, s.cache.Keys - m.messages.Keys).cache;
    if s.pending !! m.messages.Keys {
      assert forall u :: u in all <==> u in m.messages;
    }
  }

  /** The incremental update gives what loading the whole mailbox gives, whether into an empty
      session or as the full list of `set_messages`. */
  lemma IncrementalIsReload(start: System, run: seq<Step>)
    requires Initial(start) && EnabledRun(start, run) && !Run(start, run).s.hideExpunged
    ensures var s, m := Run(start, run).s, Run(start, run).mbox;
            && Sync(s, m).cache == Sync(s.(modSequence := None, cache := map[], pending := {}), m).cache
            && Sync(s, m).cache == WithUpdates(s, m.messages, s.cache.Keys - m.messages.Keys).cache
  {
    ReachableInv(start, run);
    var sys := Run(start, run);
    PollExact(sys.mbox, sys.s, sys.top);
    ReloadIs(sys.s, sys.mbox);
  }

  // ----- Session flags

  lemma UpdatesDrop(s: Session, updates: Cache, expunged: set<int>, u: int)
    requires u !in updates
    ensures var s' := WithUpdates(s, updates, expunged);
            && (u in s'.recent <==> u in s.recent && (s.hideExpunged || u !in expunged))
            && (u in s'.sflags <==> u in s.sflags && (s.hideExpunged || u !in expunged))
            && (u in s'.cache <==> u in s.cache && (s.hideExpunged || (u !in expunged && u !in s.pending)))
  {
  }

  lemma GoneIsReported(m: Mbox, since: int, u: int)
    requires LogAgrees(m) && u !in m.messages
    ensures u in ExpungedSince(m.history, since) <==>
            LastChange(m.history, u) > 0 && LastChange(m.history, u) >= since
  {
    if LastChange(m.history, u) >= since {
      TouchedIsReported(m, since, u);
    } else {
      UntouchedIsNot(m, since, u);
    }
  }

  /** What becomes of the mark and the session flags of a listed message that is gone: while expunges are
      hidden they stay, and else a poll drops them exactly if the log reports the expunge to that very poll.
      It need not do so again if an earlier poll held the expunge back. */
  lemma PollDropsFlags(m: Mbox, s: Session, top: int, since: int, u: int)
    requires MboxOk(m) && SyncOk(m, s, top) && s.modSequence == Some(since) && u in s.cache && u !in m.messages
    ensures var s', reported := Sync(s, m), LastChange(m.history, u) > 0 && LastChange(m.history, u) >= since;
            && (u in s'.recent <==> u in s.recent && (s.hideExpunged || !reported))
            && (u in s'.sflags <==> u in s.sflags && (s.hideExpunged || !reported))
            && (u in s'.cache <==> s.hideExpunged)
  {
    GoneIsReported(m, since, u);
    UpdatesDrop(s.(modSequence := Some(|m.history|)), UpdatedSince(m, since), ExpungedSince(m.history, since), u);
  }

  /** Without `\*` a session holds no flags but those that it defines. */
  ghost predicate OnlyDefined(s: Session) {
    forall u, flag :: u in s.sflags && flag in s.sflags[u] ==> flag in s.defined || Wildcard in s.defined
  }

  lemma {:induction false} OnlyDefinedRun(sys: System, run: seq<Step>)
    requires OnlyDefined(sys.s)
    ensures OnlyDefined(Run(sys, run).s)
    decreases |run|
  {
    if run != [] {
      OnlyDefinedRun(Next(sys, run[0]), run[1..]);
    }
  }

  /** A store of session flags leaves a flag on the message exactly if it takes it and the operation gives
      it, or the flag was there and the operation leaves it; other messages keep theirs. */
  lemma StoredSessionFlags(s: Session, uid: int, flagSet: set<Flag>, op: FlagOp, u: int, flag: Flag)
    ensures var had := u in s.sflags && flag in s.sflags[u];
            var given := flag in flagSet && (flag in s.defined || Wildcard in s.defined);
            var s' := WithSessionFlags(s, uid, flagSet, op);
            (u in s'.sflags && flag in s'.sflags[u]) <==>
            if u != uid then had
            else match op case Replace => given case Add => had || given case Delete => had && !given
  {
    var flags := op.Apply(if u in s.sflags then s.sflags[u] else {}, Intersect(s.defined, flagSet));
    assert flag in flags ==> flags != {};
  }
}
