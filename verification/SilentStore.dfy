/** Two runs after which a client is wrong about flags and is not told: another session takes back what
    the client stored silently, or does what the client was refused. */
module SilentStore {
  import opened Collections
  import opened Flags
  import opened Synchronized
  import opened Selected
  import opened Mailbox
  import opened Replay
  import opened FlagReports
  import opened SessionRuns
  import opened StaleAnswer

  /** The client stores `\Seen` silently, and another session takes it off again. */
  function Undone(uid: int): seq<Step> {
    [SilenceFlags({uid}, {Seen}, Add), Store(uid, Add), Store(uid, Delete)]
  }

  /** In a read-only session the STORE is refused after it was silenced; then another session does it. */
  function DoneByOthers(uid: int): seq<Step> {
    [SilenceFlags({uid}, {Seen}, Add), Store(uid, Add)]
  }

  /** Just after a fork, the message is listed as the mailbox has it, without `\Seen`. */
  ghost predicate ListedUnseen(sys: System, uid: int) {
    && Inv(sys) && sys.s.prev == Some(Freeze(sys.s)) && sys.s.silencedFlags == {}
    && uid in sys.s.cache && uid in sys.mbox.messages && sys.s.cache[uid] == sys.mbox.messages[uid]
    && Seen !in sys.s.cache[uid].flags && uid !in sys.s.sflags
    && (Seen in sys.s.permanent || Wildcard in sys.s.permanent)
  }

  function Store(uid: int, op: FlagOp): Step {
    Change(UpdateFlags(uid, {Seen}, op))
  }

  /** A change of one message's flags while it is there. */
  lemma UpdatedIs(sys: System, uid: int, op: FlagOp, next: System)
    requires Inv(sys) && uid in sys.mbox.messages && next == Next(sys, Store(uid, op))
    ensures Enabled(sys, Store(uid, op)) && Inv(next) && next.s == sys.s
    ensures uid in next.mbox.messages
    ensures next.mbox.messages[uid].flags == op.Apply(sys.mbox.messages[uid].flags, {Seen})
  {
    ChangeInv(sys, UpdateFlags(uid, {Seen}, op));
  }

  /** A poll takes marks and session flags away and adds none. */
  lemma PollAddsNoMarks(s: Session, m: Mbox, fork: Session, uid: int)
    requires s.prev == Some(Freeze(fork)) && s.recent == fork.recent && uid in fork.cache && uid !in s.sflags
    ensures !NewlyRecent(Sync(s, m), uid) && !SflagsChanged(Sync(s, m), uid)
    ensures Sync(s, m).prev == s.prev && Sync(s, m).silencedFlags == s.silencedFlags
  {
  }

  /** What a poll leaves of a message that the mailbox has. */
  lemma PolledMessage(sys: System, uid: int)
    requires Inv(sys) && uid in sys.mbox.messages
    ensures var s := Sync(sys.s, sys.mbox);
            KeyedByUid(s.cache) && uid in s.cache && s.cache[uid] == sys.mbox.messages[uid]
  {
    PollOne(sys.mbox, sys.s, sys.top, uid);
    PollInv(sys);
    PolledFields(sys);
  }

  /** The poll has the message in the session, the fork is silent about it, and `\Seen` is on it or not. */
  ghost predicate Unreported(s: Session, uid: int, seen: bool) {
    && s.prev.Some? && uid in s.cache && (Seen in s.cache[uid].flags <==> seen)
    && uid !in FetchUids(s.prev.value, Freeze(s), s)
  }

  /** The session after a poll, when the fork before was followed by a silent STORE of `\Seen`. */
  ghost predicate PolledAfter(fork: Session, s: Session, uid: int) {
    && KeyedByUid(fork.cache) && fork.prev == Some(Freeze(fork)) && fork.silencedFlags == {}
    && KeyedByUid(s.cache) && s.prev == fork.prev
    && s.silencedFlags == WithSilence(fork, {uid}, {Seen}, Add).silencedFlags
    && uid in fork.cache && uid in s.cache && !NewlyRecent(s, uid) && !SflagsChanged(s, uid)
  }

  /** No change is reported that leaves the flags as they were. */
  lemma BackIsQuiet(fork: Session, s: Session, uid: int)
    requires PolledAfter(fork, s, uid)
    requires s.cache[uid].flags == fork.cache[uid].flags && Seen !in fork.cache[uid].flags
    ensures Unreported(s, uid, false)
  {
    SilencedExactly(fork, WithSilence(fork, {uid}, {Seen}, Add), s, {uid}, {Seen}, Add, uid);
    ReportedExactly(s, uid);
  }

  /** No change is reported that does what the STORE asked for. */
  lemma OutcomeIsQuiet(fork: Session, s: Session, uid: int)
    requires PolledAfter(fork, s, uid) && (Seen in fork.permanent || Wildcard in fork.permanent)
    requires s.cache[uid].flags == fork.cache[uid].flags + {Seen}
    ensures Unreported(s, uid, true)
  {
    assert Intersect(fork.permanent, {Seen}) == {Seen};
    SilencedExactly(fork, WithSilence(fork, {uid}, {Seen}, Add), s, {uid}, {Seen}, Add, uid);
    ReportedExactly(s, uid);
  }

  lemma PollIsAfter(fork: Session, sys: System, s: Session, uid: int)
    requires Inv(sys) && uid in sys.mbox.messages && uid in fork.cache && KeyedByUid(fork.cache)
    requires fork.prev == Some(Freeze(fork)) && fork.silencedFlags == {} && uid !in fork.sflags
    requires sys.s == WithSilence(fork, {uid}, {Seen}, Add) && s == Sync(sys.s, sys.mbox)
    ensures PolledAfter(fork, s, uid) && s.cache[uid] == sys.mbox.messages[uid]
  {
    PolledMessage(sys, uid);
    PollAddsNoMarks(sys.s, sys.mbox, fork, uid);
  }

  lemma UndoneStates(silenced: System, updated: System, undone: System, uid: int)
    requires Inv(silenced) && uid in silenced.mbox.messages
    requires updated == Next(silenced, Store(uid, Add)) && undone == Next(updated, Store(uid, Delete))
    ensures Enabled(silenced, Store(uid, Add)) && Enabled(updated, Store(uid, Delete))
    ensures Inv(undone) && undone.s == silenced.s && uid in undone.mbox.messages
    ensures undone.mbox.messages[uid].flags == silenced.mbox.messages[uid].flags + {Seen} - {Seen}
  {
    UpdatedIs(silenced, uid, Add, updated);
    UpdatedIs(updated, uid, Delete, undone);
  }

  lemma UndoneRuns(sys: System, silenced: System, updated: System, undone: System, uid: int)
    requires silenced == Next(sys, SilenceFlags({uid}, {Seen}, Add))
    requires updated == Next(silenced, Store(uid, Add)) && undone == Next(updated, Store(uid, Delete))
    requires Enabled(silenced, Store(uid, Add)) && Enabled(updated, Store(uid, Delete))
    ensures EnabledRun(sys, Undone(uid)) && Run(sys, Undone(uid)) == undone
  {
    RunThree(sys, SilenceFlags({uid}, {Seen}, Add), Store(uid, Add), Store(uid, Delete));
  }

  lemma SilencedIs(sys: System, silenced: System, uid: int)
    requires ListedUnseen(sys, uid) && silenced == Next(sys, SilenceFlags({uid}, {Seen}, Add))
    ensures Inv(silenced) && silenced.s == WithSilence(sys.s, {uid}, {Seen}, Add) && silenced.mbox == sys.mbox
  {
    SilenceInv(sys, {uid}, {Seen}, Add);
  }

  lemma UndoneUnreported(fork: Session, undone: System, s: Session, uid: int)
    requires Inv(undone) && uid in undone.mbox.messages && uid in fork.cache && KeyedByUid(fork.cache)
    requires fork.prev == Some(Freeze(fork)) && fork.silencedFlags == {} && uid !in fork.sflags
    requires Seen !in fork.cache[uid].flags
    requires undone.s == WithSilence(fork, {uid}, {Seen}, Add) && s == Sync(undone.s, undone.mbox)
    requires undone.mbox.messages[uid].flags == fork.cache[uid].flags + {Seen} - {Seen}
    ensures Unreported(s, uid, false)
  {
    PollIsAfter(fork, undone, s, uid);
    var flags := fork.cache[uid].flags;
    assert flags + {Seen} - {Seen} == flags;
    BackIsQuiet(fork, s, uid);
  }

  lemma StoredIsBelieved(fork: Session, uid: int)
    requires uid in fork.cache && (Seen in fork.permanent || Wildcard in fork.permanent)
    ensures Seen in Believed(fork, {uid}, {Seen}, Add, uid)
  {
    assert Intersect(fork.permanent, {Seen}) == {Seen};
  }

  /** The client is told nothing: it believes that `\Seen` is set on the message, and it is not. */
  lemma UndoneIsQuiet(sys: System, uid: int)
    requires ListedUnseen(sys, uid)
    ensures Seen in Believed(sys.s, {uid}, {Seen}, Add, uid)
    ensures EnabledRun(sys, Undone(uid)) && Unreported(Next(Run(sys, Undone(uid)), Poll).s, uid, false)
  {
    var silenced := Next(sys, SilenceFlags({uid}, {Seen}, Add));
    var updated := Next(silenced, Store(uid, Add));
    var undone := Next(updated, Store(uid, Delete));
    SilencedIs(sys, silenced, uid);
    UndoneStates(silenced, updated, undone, uid);
    UndoneRuns(sys, silenced, updated, undone, uid);
    UndoneUnreported(sys.s, undone, Sync(undone.s, undone.mbox), uid);
    PolledFields(undone);
    StoredIsBelieved(sys.s, uid);
  }

  /** The client, whose STORE was refused, is not told that `\Seen` is set on the message. */
  lemma RefusedIsQuiet(sys: System, uid: int)
    requires ListedUnseen(sys, uid)
    ensures EnabledRun(sys, DoneByOthers(uid)) && Unreported(Next(Run(sys, DoneByOthers(uid)), Poll).s, uid, true)
  {
    var silence := SilenceFlags({uid}, {Seen}, Add);
    var silenced := Next(sys, silence);
    var updated := Next(silenced, Store(uid, Add));
    SilenceInv(sys, {uid}, {Seen}, Add);
    UpdatedIs(silenced, uid, Add, updated);
    RunTwo(sys, silence, Store(uid, Add));
    PolledFields(updated);
    var s := Sync(updated.s, updated.mbox);
    PollIsAfter(sys.s, updated, s, uid);
    OutcomeIsQuiet(sys.s, s, uid);
  }

  /** Both runs are possible from a fresh server. */
  lemma BothHappen()
    ensures Initial(Started())
    ensures EnabledRun(Started(), Arrival() + Undone(102)) && EnabledRun(Started(), Arrival() + DoneByOthers(102))
    ensures Unreported(Next(Run(Started(), Arrival() + Undone(102)), Poll).s, 102, false)
    ensures Unreported(Next(Run(Started(), Arrival() + DoneByOthers(102)), Poll).s, 102, true)
  {
    FreshInitial(Started());
    ArrivalRuns();
    ReachableInv(Started(), Arrival());
    var told := Run(Started(), Arrival());
    ToldUnseen(told);
    UndoneIsQuiet(told, 102);
    RefusedIsQuiet(told, 102);
    RunConcat(Started(), Arrival(), Undone(102));
    RunConcat(Started(), Arrival(), DoneByOthers(102));
  }

  lemma ToldUnseen(sys: System)
    requires Told(sys) && Inv(sys)
    ensures ListedUnseen(sys, 102)
  {
    assert Freeze(sys.s) == Freeze(Blank(Three()));
  }
}
