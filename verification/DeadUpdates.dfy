/** What becomes of a session when flags are stored on a message that was just deleted. */
module DeadUpdates {
  import opened Collections
  import opened Flags
  import opened Synchronized
  import opened ChangeLog
  import opened Selected
  import opened Mailbox
  import opened SessionRuns

  /** The session lists a message that is gone, and the log does not say that it was expunged. */
  ghost predicate Stuck(sys: System, uid: int) {
    uid in sys.s.cache && uid !in sys.s.pending && Forgotten(sys.mbox, uid)
  }

  ghost predicate Forgotten(m: Mbox, uid: int) {
    uid !in m.messages && uid <= m.maxUid && NotExpunged(m.history, uid)
  }

  ghost predicate NotExpunged(h: History, uid: int) {
    !Current(h, Expunged, LastChange(h, uid), uid)
  }

  lemma LogNotExpunged(h: History, kind: Kind, uids: seq<int>, uid: int)
    requires NotExpunged(h, uid) && (kind == Expunged ==> uid !in uids)
    ensures NotExpunged(h + [Batch(kind, uids)], uid)
  {
    LogGrows(h, Batch(kind, uids), uid);
  }

  predicate Deletes(step: Step, uid: int) {
    step.Change? && step.event.DeleteMessages? && uid in step.event.uids
  }

  lemma ApplyForgotten(m: Mbox, e: Event, uid: int)
    requires WellFormed(m) && Forgotten(m, uid) && !Deletes(Change(e), uid)
    ensures Forgotten(Apply(m, e), uid)
  {
    match e
    case Insert(_, _, _) => LogNotExpunged(m.history, Updated, [m.maxUid + 1], uid);
    case Pop(popped) => LogNotExpunged(m.history, Expunged, if popped == uid then [] else [popped], uid);
    case UpdateFlags(updated, _, _) => LogNotExpunged(m.history, Updated, [updated], uid);
    case DeleteMessages(uids) => LogNotExpunged(m.history, Expunged, uids, uid);
    case ClaimRecent => LogNotExpunged(m.history, Updated, Sorted(RecentUids(m.messages)), uid);
  }

  lemma PollStuck(sys: System, uid: int)
    requires Stuck(sys, uid)
    ensures Stuck(Next(sys, Poll), uid)
  {
    if sys.s.modSequence.Some? {
      assert uid !in ExpungedSince(sys.mbox.history, sys.s.modSequence.value);
    }
  }

  lemma {:induction false} StaysStuck(sys: System, run: seq<Step>, uid: int)
    requires WellFormed(sys.mbox) && Stuck(sys, uid)
    requires forall i :: 0 <= i < |run| ==> !Deletes(run[i], uid)
    ensures Stuck(Run(sys, run), uid)
    decreases |run|
  {
    if run != [] {
      match run[0] {
        case Change(e) =>
          ApplyWellFormed(sys.mbox, e);
          ApplyForgotten(sys.mbox, e, uid);
        case Poll => PollStuck(sys, uid);
        case _ =>
      }
      StaysStuck(Next(sys, run[0]), run[1..], uid);
    }
  }

  /** The mailbox forgets the deletion: a session that listed the message goes on listing it, over
      every run in which nobody deletes that UID once more. */
  lemma DeadUpdateHidesExpunge(sys: System, uid: int, flagSet: set<Flag>, op: FlagOp, run: seq<Step>)
    requires WellFormed(sys.mbox) && uid in sys.mbox.messages && uid in sys.s.cache && uid !in sys.s.pending
    requires forall i :: 0 <= i < |run| ==> !Deletes(run[i], uid)
    ensures var start := Next(Next(sys, Change(DeleteMessages([uid]))), Change(UpdateFlags(uid, flagSet, op)));
            uid in Run(start, run).s.cache && uid !in Run(start, run).mbox.messages
  {
    var deleted := Apply(sys.mbox, DeleteMessages([uid]));
    var updated := Apply(deleted, UpdateFlags(uid, flagSet, op));
    ApplyWellFormed(sys.mbox, DeleteMessages([uid]));
    ApplyWellFormed(deleted, UpdateFlags(uid, flagSet, op));
    LogGrows(deleted.history, Batch(Updated, [uid]), uid);
    StaysStuck(sys.(mbox := updated), run, uid);
  }

  /** The same becomes of a message whose UID is named twice in one deletion. */
  lemma DoubleDeleteHidesExpunge(sys: System, uid: int, uids: seq<int>, run: seq<Step>)
    requires WellFormed(sys.mbox) && uid in sys.mbox.messages && uid in sys.s.cache && uid !in sys.s.pending
    requires multiset(uids)[uid] > 1
    requires forall i :: 0 <= i < |run| ==> !Deletes(run[i], uid)
    ensures var start := Next(sys, Change(DeleteMessages(uids)));
            uid in Run(start, run).s.cache && uid !in Run(start, run).mbox.messages
  {
    var deleted := Apply(sys.mbox, DeleteMessages(uids));
    ApplyWellFormed(sys.mbox, DeleteMessages(uids));
    assert uid in uids;
    LogGrows(sys.mbox.history, Batch(Expunged, uids), uid);
    StaysStuck(sys.(mbox := deleted), run, uid);
  }
}
