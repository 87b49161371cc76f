/** What a client believes about the flags of a message, over whole runs: it is told by forks and by the
    FETCH responses of its own commands, and it changes its mind with its own silent STORE. */
module ClientBelief {
  import opened Collections
  import opened Flags
  import opened Synchronized
  import opened Selected
  import opened Mailbox
  import opened Replay
  import opened FlagReports
  import opened SessionRuns
  import opened ClientFlags

  /** What the client's commands have done since the last fork. */
  datatype Doing = Nothing | Fetching | Storing

  /** The system, the client's list with what it believes, and the flags keys that were silenced for
      silent STOREs that were then refused. */
  datatype Client = Client(sys: System, mind: seq<Slot>, doing: Doing, refused: set<FlagsKey>)

  datatype Act =
    | Server(step: Step)
    | OwnFetch(uid: int, flags: set<Flag>)
    | SilentStore(uids: set<int>, flagSet: set<Flag>, op: FlagOp)
    | RefusedStore(uids: set<int>, flagSet: set<Flag>, op: FlagOp)

  /** The UIDs as of the last fork, in the order of the client's list. */
  ghost function Listed(s: Session): seq<int> {
    if s.prev.None? then [] else Sorted(s.prev.value.uids)
  }

  /** A client that was told nothing yet knows what a replacement leaves. */
  function Stored(slot: Slot, operand: set<Flag>, op: FlagOp): Slot {
    if slot.flags.Some? then slot.(flags := Some(op.Apply(slot.flags.value, operand)))
    else if op.Replace? then slot.(flags := Some(operand))
    else slot
  }

  function StoredAll(mind: seq<Slot>, listed: seq<int>, uids: set<int>, operand: set<Flag>, op: FlagOp): seq<Slot> {
    seq(|mind|, i requires 0 <= i < |mind| =>
      if i < |listed| && listed[i] in uids then Stored(mind[i], operand, op) else mind[i])
  }

  function TellOne(mind: seq<Slot>, listed: seq<int>, uid: int, flags: set<Flag>): seq<Slot> {
    seq(|mind|, i requires 0 <= i < |mind| =>
      if i < |listed| && listed[i] == uid then Tell(mind[i], flags, None) else mind[i])
  }

  ghost function Silenced(s: Session, uids: set<int>, flagSet: set<Flag>, op: FlagOp): set<FlagsKey> {
    Outcomes(CachedFlags(s.cache), uids, Intersect(s.permanent, flagSet), op)
  }

  ghost function After(c: Client, act: Act): Client {
    match act
    case Server(Finish(withUid)) =>
      Client(Next(c.sys, Finish(withUid)), ClientSees(c.mind, c.sys.s, withUid), Nothing, {})
    case Server(step) => c.(sys := Next(c.sys, step))
    case OwnFetch(uid, flags) => c.(mind := TellOne(c.mind, Listed(c.sys.s), uid, flags), doing := Fetching)
    case SilentStore(uids, flagSet, op) =>
      c.(sys := Next(c.sys, SilenceFlags(uids, flagSet, op)), doing := Storing,
         mind := StoredAll(c.mind, Listed(c.sys.s), uids, Intersect(c.sys.s.permanent, flagSet), op))
    case RefusedStore(uids, flagSet, op) =>
      c.(sys := Next(c.sys, SilenceFlags(uids, flagSet, op)),
         refused := c.refused + Silenced(c.sys.s, uids, flagSet, op))
  }

  /** A command silences flags before it polls and sends no FETCH then; it speaks of messages that were
      listed at the last fork. A FETCH may tell any flags. */
  ghost predicate Possible(c: Client, act: Act) {
    match act
    case Server(step) => Enabled(c.sys, step) && !step.SilenceFlags?
    case OwnFetch(uid, _) => !c.doing.Storing? && uid in Listed(c.sys.s)
    case SilentStore(uids, _, _) => c.doing.Nothing? && !c.sys.polled && forall u :: u in uids ==> u in Listed(c.sys.s)
    case RefusedStore(uids, _, _) => !c.doing.Storing? && !c.sys.polled
  }

  /** The line that the client has for a message. */
  ghost function Line(mind: seq<Slot>, s: Session, u: int): Slot {
    if |mind| == |Listed(s)| then OldSlot(mind, Listed(s), u) else UNTOLD
  }

  /** No client can store the mark `\Recent`, so it is left out of what is compared. */
  predicate Believes(slot: Slot, flags: set<Flag>) {
    slot.flags.Some? ==> slot.flags.value - {Recent} == flags - {Recent}
  }

  /** What the client believes of the flags of the message is what the last fork saw. */
  ghost predicate Right(c: Client, u: int) {
    c.sys.s.prev.Some? ==>
      forall flags :: (u, flags) in c.sys.s.prev.value.flags ==> Believes(Line(c.mind, c.sys.s, u), flags)
  }

  /** The guard: the client believes something else, and the flags are back to those of the last fork or
      have become what a refused STORE wanted, with no new mark. */
  ghost predicate Misled(c: Client, u: int) {
    var s := c.sys.s;
    && s.prev.Some? && u in s.cache && !NewlyRecent(s, u)
    && ((u, s.cache[u].flags) in s.prev.value.flags || (u, s.cache[u].flags) in c.refused)
    && !Believes(Line(c.mind, c.sys.s, u), s.cache[u].flags)
  }

  /** What holds of the client and one message without session flags, whether it is right or not. */
  ghost predicate Sound(c: Client, u: int) {
    && Inv(c.sys) && |c.mind| == |Listed(c.sys.s)| && u !in c.sys.s.sflags
    && SameAsForked(c.sys) && c.refused <= c.sys.s.silencedFlags
  }

  /** Until it polls, the session has what the last fork saw. */
  ghost predicate SameAsForked(sys: System) {
    sys.s.prev.Some? && !sys.polled ==>
      sys.s.prev.value.uids == sys.s.cache.Keys && sys.s.prev.value.flags == FlagsKeys(sys.s.cache)
  }

  /** What was silenced is what the client believes or what was refused. */
  ghost predicate SilenceOk(c: Client, u: int) {
    && (c.doing.Nothing? ==> Right(c, u))
    && (!c.doing.Storing? ==> c.sys.s.silencedFlags == c.refused)
    && (forall key :: key in c.sys.s.silencedFlags && key.0 == u ==>
      key in c.refused || Believes(Line(c.mind, c.sys.s, u), key.1))
  }

  // ----- One act

  /** Steps of the server other than a fork leave the client's mind and what was silenced alone. */
  lemma ServerBelief(c: Client, step: Step, u: int)
    requires Sound(c, u) && SilenceOk(c, u) && Possible(c, Server(step)) && !step.Finish?
    requires step.StoreSessionFlags? ==> step.uid != u
    ensures Sound(After(c, Server(step)), u) && SilenceOk(After(c, Server(step)), u)
  {
    StepInv(c.sys, step);
  }

  lemma OwnFetchBelief(c: Client, uid: int, flags: set<Flag>, u: int)
    requires Sound(c, u) && SilenceOk(c, u) && Possible(c, OwnFetch(uid, flags))
    ensures Sound(After(c, OwnFetch(uid, flags)), u) && SilenceOk(After(c, OwnFetch(uid, flags)), u)
  {
  }

  lemma RefusedBelief(c: Client, uids: set<int>, flagSet: set<Flag>, op: FlagOp, u: int)
    requires Sound(c, u) && SilenceOk(c, u) && Possible(c, RefusedStore(uids, flagSet, op))
    ensures var next := After(c, RefusedStore(uids, flagSet, op)); Sound(next, u) && SilenceOk(next, u)
  {
    SilenceInv(c.sys, uids, flagSet, op);
    var next := After(c, RefusedStore(uids, flagSet, op));
    assert next.sys.s.silencedFlags == next.refused;
  }

  /** An operation leaves what is right right. */
  lemma StoredBelieves(slot: Slot, flags: set<Flag>, operand: set<Flag>, op: FlagOp)
    requires Believes(slot, flags)
    ensures Believes(Stored(slot, operand, op), op.Apply(flags, operand))
  {
    if slot.flags.Some? {
      MarkAside(slot.flags.value, operand, op);
      MarkAside(flags, operand, op);
    }
  }

  lemma MarkAside(flags: set<Flag>, operand: set<Flag>, op: FlagOp)
    ensures op.Apply(flags, operand) - {Recent} == op.Apply(flags - {Recent}, operand - {Recent})
  {
  }

  lemma StoredLine(mind: seq<Slot>, s: Session, uids: set<int>, operand: set<Flag>, op: FlagOp, u: int)
    requires |mind| == |Listed(s)| && u in uids && u in Listed(s)
    ensures Line(StoredAll(mind, Listed(s), uids, operand, op), s, u) == Stored(Line(mind, s, u), operand, op)
  {
  }

  /** What the client's own STORE silences of a message is what the client makes of it. */
  lemma StoreSilences(c: Client, uids: set<int>, flagSet: set<Flag>, op: FlagOp, u: int, key: FlagsKey)
    requires Sound(c, u) && Right(c, u) && Possible(c, SilentStore(uids, flagSet, op))
    requires key in Silenced(c.sys.s, uids, flagSet, op) && key.0 == u
    ensures var operand := Intersect(c.sys.s.permanent, flagSet);
            Believes(Line(StoredAll(c.mind, Listed(c.sys.s), uids, operand, op), c.sys.s, u), key.1)
  {
    var s, operand := c.sys.s, Intersect(c.sys.s.permanent, flagSet);
    OutcomesHas(CachedFlags(s.cache), uids, operand, op, key);
    InSorted(s.cache.Keys, u);
    KeyIn(s.cache, (u, s.cache[u].flags));
    StoredBelieves(Line(c.mind, s, u), s.cache[u].flags, operand, op);
    StoredLine(c.mind, s, uids, operand, op, u);
  }

  lemma SilentStoreBelief(c: Client, uids: set<int>, flagSet: set<Flag>, op: FlagOp, u: int)
    requires Sound(c, u) && SilenceOk(c, u) && Possible(c, SilentStore(uids, flagSet, op))
    ensures var next := After(c, SilentStore(uids, flagSet, op)); Sound(next, u) && SilenceOk(next, u)
  {
    SilenceInv(c.sys, uids, flagSet, op);
    forall key | key in Silenced(c.sys.s, uids, flagSet, op) && key.0 == u
      ensures Believes(Line(After(c, SilentStore(uids, flagSet, op)).mind, c.sys.s, u), key.1)
    {
      StoreSilences(c, uids, flagSet, op, u, key);
    }
  }

  // ----- At a fork

  /** The line after a fork. */
  lemma ForkedLine(mind: seq<Slot>, sys: System, withUid: bool, u: int)
    requires Inv(sys) && sys.s.prev.Some? && |mind| == |Listed(sys.s)|
    ensures var sees := ClientSees(mind, sys.s, withUid);
            && |sees| == |Sorted(sys.s.cache.Keys)|
            && (u in sys.s.cache ==>
              Line(sees, NextEpoch(sys.s), u) == NewSlot(mind, sys.s, sys.s.prev.value, withUid, u))
  {
    FetchesListed(sys.s);
    ReplayFork(mind, sys.s, sys.s.prev.value, withUid);
    InSorted(sys.s.cache.Keys, u);
  }

  /** A fork reports the message unless its flags are known from the last fork or silenced. */
  lemma ForkTells(s: Session, u: int)
    requires KeyedByUid(s.cache) && s.prev.Some? && u in s.cache && u !in s.sflags
    ensures u !in FetchUids(s.prev.value, Freeze(s), s) <==>
            !NewlyRecent(s, u) &&
            ((u, s.cache[u].flags) in s.prev.value.flags || (u, s.cache[u].flags) in s.silencedFlags)
  {
    ReportedExactly(s, u);
  }

  /** The client is right after the fork exactly if it was not misled. */
  lemma ForkRight(c: Client, withUid: bool, u: int)
    requires Sound(c, u) && SilenceOk(c, u) && c.sys.s.prev.Some? && u in c.sys.s.cache
    ensures Believes(NewSlot(c.mind, c.sys.s, c.sys.s.prev.value, withUid, u), c.sys.s.cache[u].flags) <==>
            !Misled(c, u)
  {
    ForkTells(c.sys.s, u);
  }

  /** The first fork tells nothing, and so does a fork that no longer lists the message. */
  lemma NothingTold(c: Client, withUid: bool, u: int)
    requires Sound(c, u) && (c.sys.s.prev.None? || u !in c.sys.s.cache)
    ensures Right(After(c, Server(Finish(withUid))), u) && !Misled(c, u)
  {
    var next := After(c, Server(Finish(withUid)));
    forall flags | (u, flags) in next.sys.s.prev.value.flags ensures Believes(Line(next.mind, next.sys.s, u), flags) {
      KeyIn(c.sys.s.cache, (u, flags));
    }
  }

  lemma RightIs(c: Client, u: int)
    requires KeyedByUid(c.sys.s.cache) && c.sys.s.prev == Some(Freeze(c.sys.s)) && u in c.sys.s.cache
    ensures Right(c, u) <==> Believes(Line(c.mind, c.sys.s, u), c.sys.s.cache[u].flags)
  {
    forall flags ensures (u, flags) in FlagsKeys(c.sys.s.cache) <==> flags == c.sys.s.cache[u].flags {
      KeyIn(c.sys.s.cache, (u, flags));
    }
  }

  lemma FinishSound(c: Client, withUid: bool, u: int, next: Client)
    requires Sound(c, u) && next == After(c, Server(Finish(withUid)))
    ensures Sound(next, u) && (SilenceOk(next, u) <==> Right(next, u))
  {
    FinishInv(c.sys, withUid);
    if c.sys.s.prev.Some? {
      ForkedLine(c.mind, c.sys, withUid, u);
    }
  }

  lemma FinishBelief(c: Client, withUid: bool, u: int, next: Client)
    requires Sound(c, u) && SilenceOk(c, u) && next == After(c, Server(Finish(withUid)))
    ensures Right(next, u) <==> !Misled(c, u)
  {
    if c.sys.s.prev.None? || u !in c.sys.s.cache {
      NothingTold(c, withUid, u);
    } else {
      ForkedLine(c.mind, c.sys, withUid, u);
      ForkRight(c, withUid, u);
      RightIs(next, u);
    }
  }

  // ----- Runs

  ghost predicate PossibleRun(c: Client, acts: seq<Act>)
    decreases |acts|
  {
    acts != [] ==> Possible(c, acts[0]) && PossibleRun(After(c, acts[0]), acts[1..])
  }

  ghost function AfterAll(c: Client, acts: seq<Act>): Client
    decreases |acts|
  {
    if acts == [] then c else AfterAll(After(c, acts[0]), acts[1..])
  }

  /** After each fork of the run the client is right about the flags of the message. */
  ghost predicate RightAtForks(c: Client, acts: seq<Act>, u: int)
    decreases |acts|
  {
    acts != [] ==>
      var next := After(c, acts[0]);
      (IsFork(acts[0]) ==> Right(next, u)) && RightAtForks(next, acts[1..], u)
  }

  /** Before no fork of the run is the client misled. */
  ghost predicate NeverMisled(c: Client, acts: seq<Act>, u: int)
    decreases |acts|
  {
    acts != [] ==> (IsFork(acts[0]) ==> !Misled(c, u)) && NeverMisled(After(c, acts[0]), acts[1..], u)
  }

  predicate IsFork(act: Act) {
    act.Server? && act.step.Finish?
  }

  predicate StoresSessionFlags(act: Act, u: int) {
    act.Server? && act.step.StoreSessionFlags? && act.step.uid == u
  }

  lemma ActBelief(c: Client, act: Act, u: int)
    requires Sound(c, u) && SilenceOk(c, u) && Possible(c, act) && !IsFork(act) && !StoresSessionFlags(act, u)
    ensures Sound(After(c, act), u) && SilenceOk(After(c, act), u)
  {
    match act
    case Server(step) => ServerBelief(c, step, u);
    case OwnFetch(uid, flags) => OwnFetchBelief(c, uid, flags, u);
    case SilentStore(uids, flagSet, op) => SilentStoreBelief(c, uids, flagSet, op, u);
    case RefusedStore(uids, flagSet, op) => RefusedBelief(c, uids, flagSet, op, u);
  }

  lemma {:induction false} RunBelief(c: Client, acts: seq<Act>, u: int)
    requires Sound(c, u) && SilenceOk(c, u) && PossibleRun(c, acts)
    requires forall i :: 0 <= i < |acts| ==> !StoresSessionFlags(acts[i], u)
    ensures RightAtForks(c, acts, u) <==> NeverMisled(c, acts, u)
    ensures NeverMisled(c, acts, u) ==> Sound(AfterAll(c, acts), u) && SilenceOk(AfterAll(c, acts), u)
    decreases |acts|
  {
    if acts != [] {
      var next := After(c, acts[0]);
      if IsFork(acts[0]) {
        FinishSound(c, acts[0].step.withUid, u, next);
        FinishBelief(c, acts[0].step.withUid, u, next);
      } else {
        ActBelief(c, acts[0], u);
      }
      if SilenceOk(next, u) {
        RunBelief(next, acts[1..], u);
      }
    }
  }

  /** A client that has just selected the mailbox. */
  ghost predicate Selecting(c: Client) {
    Initial(c.sys) && c.sys.s.silencedFlags == {} && c.mind == [] && c.doing.Nothing? && c.refused == {}
  }

  lemma SelectingSound(c: Client, u: int)
    requires Selecting(c)
    ensures Sound(c, u) && SilenceOk(c, u)
  {
    InitialInv(c.sys);
  }

  /** Over every run: the client is right about a message at every fork exactly if it is misled before
      none. */
  lemma BeliefExact(start: Client, acts: seq<Act>, u: int)
    requires Selecting(start) && PossibleRun(start, acts)
    requires forall i :: 0 <= i < |acts| ==> !StoresSessionFlags(acts[i], u)
    ensures RightAtForks(start, acts, u) <==> NeverMisled(start, acts, u)
  {
    SelectingSound(start, u);
    RunBelief(start, acts, u);
  }

  /** End to end: after a poll and a fork that hide nothing, what the client believes of a message that it
      was never misled about before is what the mailbox has, exactly if it is not misled now. */
  lemma BeliefIsMailbox(start: Client, acts: seq<Act>, withUid: bool, u: int)
    requires Selecting(start) && PossibleRun(start, acts) && NeverMisled(start, acts, u)
    requires forall i :: 0 <= i < |acts| ==> !StoresSessionFlags(acts[i], u)
    requires !AfterAll(start, acts).sys.s.hideExpunged
    ensures var polled := After(AfterAll(start, acts), Server(Poll));
            var done := After(polled, Server(Finish(withUid)));
            var messages := done.sys.mbox.messages;
            && |done.mind| == |Sorted(messages.Keys)|
            && (u in messages ==>
              (Believes(OldSlot(done.mind, Sorted(messages.Keys), u), messages[u].flags) <==> !Misled(polled, u)))
  {
    SelectingSound(start, u);
    RunBelief(start, acts, u);
    var before := AfterAll(start, acts);
    var polled := After(before, Server(Poll));
    ServerBelief(before, Poll, u);
    PollExact(before.sys.mbox, before.sys.s, before.sys.top);
    FinalBelief(polled, withUid, u, After(polled, Server(Finish(withUid))));
  }

  lemma FinalBelief(polled: Client, withUid: bool, u: int, done: Client)
    requires Sound(polled, u) && SilenceOk(polled, u) && polled.sys.s.cache == polled.sys.mbox.messages
    requires done == After(polled, Server(Finish(withUid)))
    ensures var messages := done.sys.mbox.messages;
            && |done.mind| == |Sorted(messages.Keys)|
            && (u in messages ==>
              (Believes(OldSlot(done.mind, Sorted(messages.Keys), u), messages[u].flags) <==> !Misled(polled, u)))
  {
    FinishSound(polled, withUid, u, done);
    FinishBelief(polled, withUid, u, done);
    if u in done.sys.mbox.messages {
      RightIs(done, u);
    }
  }

  /** The failing family: another session takes back what a client that knows the flags stored silently. */
  lemma TakenBackMisleads(c: Client, uids: set<int>, flagSet: set<Flag>, op: FlagOp, later: Client, u: int)
    requires Sound(c, u) && Right(c, u) && Possible(c, SilentStore(uids, flagSet, op)) && u in uids
    requires Line(c.mind, c.sys.s, u).flags.Some? && u in c.sys.s.cache
    requires var flags := c.sys.s.cache[u].flags;
             op.Apply(flags, Intersect(c.sys.s.permanent, flagSet)) - {Recent} != flags - {Recent}
    requires later.mind == After(c, SilentStore(uids, flagSet, op)).mind && later.sys.s.prev == c.sys.s.prev
    requires u in later.sys.s.cache && later.sys.s.cache[u].flags == c.sys.s.cache[u].flags
    requires !NewlyRecent(later.sys.s, u)
    ensures Misled(later, u)
  {
    var s, operand := c.sys.s, Intersect(c.sys.s.permanent, flagSet);
    KeyIn(s.cache, (u, s.cache[u].flags));
    StoredBelieves(Line(c.mind, s, u), s.cache[u].flags, operand, op);
    StoredLine(c.mind, s, uids, operand, op, u);
  }
}
