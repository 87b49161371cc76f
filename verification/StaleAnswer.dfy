/** One run after which an answer must not be merged: while a client fetches its second message by
    UID, other sessions delete the first message and flag the third. */
module StaleAnswer {
  import opened Collections
  import opened Flags
  import opened Synchronized
  import opened Selected
  import opened Mailbox
  import opened Replay
  import opened SessionRuns
  import opened Answers
  import R = ResponseMerge

  function Plain(uid: int): Message {
    Message(uid, {}, false, false, 0)
  }

  function Three(): Cache {
    map[101 := Plain(101), 102 := Plain(102), 103 := Plain(103)]
  }

  function Left(): Cache {
    map[102 := Plain(102), 103 := Plain(103).(flags := {Flagged})]
  }

  /** A session that lists the messages and has seen nothing else. */
  function Blank(cache: Cache): Session {
    Session({Seen, Flagged}, {}, cache, {}, map[], {}, None, false, false, {}, {}, None)
  }

  function Started(): System {
    System(Mbox(100, map[], []), Blank(map[]), [], false, [], 0)
  }

  /** Three messages come, and the client learns of them. */
  function Arrival(): seq<Step> {
    Deliveries() + Listing()
  }

  function Deliveries(): seq<Step> {
    [Change(Insert({}, false, 0)), Change(Insert({}, false, 0)), Change(Insert({}, false, 0))]
  }

  function Listing(): seq<Step> {
    [Poll, Finish(false)]
  }

  /** What the other sessions do then. */
  function Meanwhile(): seq<Step> {
    [Change(DeleteMessages([101])), Change(UpdateFlags(103, {Flagged}, Add))]
  }

  lemma RunThree(sys: System, a: Step, b: Step, c: Step)
    ensures Run(sys, [a, b, c]) == Next(Next(Next(sys, a), b), c)
    ensures EnabledRun(sys, [a, b, c]) <==>
            Enabled(sys, a) && Enabled(Next(sys, a), b) && Enabled(Next(Next(sys, a), b), c)
  {
    assert [a, b, c][1..] == [b, c];
    RunTwo(Next(sys, a), b, c);
  }

  lemma RunTwo(sys: System, a: Step, b: Step)
    ensures Run(sys, [a, b]) == Next(Next(sys, a), b)
    ensures EnabledRun(sys, [a, b]) <==> Enabled(sys, a) && Enabled(Next(sys, a), b)
  {
    assert [a, b][1..] == [b] && [b][1..] == [];
    assert Run(Next(sys, a), [b]) == Next(Next(sys, a), b);
    assert EnabledRun(Next(sys, a), [b]) <==> Enabled(Next(sys, a), b);
  }

  lemma DeliveriesRun()
    ensures var sys := Run(Started(), Deliveries());
            && EnabledRun(Started(), Deliveries())
            && sys.s == Blank(map[]) && sys.mbox.maxUid == 103 && sys.mbox.messages == Three()
  {
    var step := Change(Insert({}, false, 0));
    RunThree(Started(), step, step, step);
  }

  /** The session has the three messages as they are, and the client was told of them. */
  ghost predicate Told(sys: System) {
    && sys.mbox.messages == Three() && sys.mbox.maxUid == 103
    && sys.s == Blank(Three()).(prev := Some(Freeze(Blank(Three()))), modSequence := sys.s.modSequence)
  }

  lemma ListingRuns(sys: System)
    requires sys.s == Blank(map[]) && sys.mbox.maxUid == 103 && sys.mbox.messages == Three()
    ensures EnabledRun(sys, Listing()) && Told(Run(sys, Listing()))
  {
    RunTwo(sys, Poll, Finish(false));
    var polled := Sync(sys.s, sys.mbox);
    assert polled.cache == Three() && polled.pending == {} && polled.recent == {} && polled.sflags == map[];
  }

  lemma ArrivalRuns()
    ensures EnabledRun(Started(), Arrival()) && Told(Run(Started(), Arrival()))
  {
    DeliveriesRun();
    ListingRuns(Run(Started(), Deliveries()));
    RunConcat(Started(), Deliveries(), Listing());
  }

  lemma OthersAtWork(m: Mbox)
    requires m.messages == Three() && m.maxUid == 103
    ensures var deleted := Apply(m, DeleteMessages([101]));
            && Truthful(m.maxUid, m.messages.Keys, DeleteMessages([101]))
            && Truthful(deleted.maxUid, deleted.messages.Keys, UpdateFlags(103, {Flagged}, Add))
            && Apply(deleted, UpdateFlags(103, {Flagged}, Add)).messages == Left()
  {
    assert multiset([101])[101] == 1;
    assert Elements([101]) == {101};
    assert Three() - {101} == map[102 := Plain(102), 103 := Plain(103)];
    assert Add.Apply({}, {Flagged}) == {Flagged};
  }

  lemma MeanwhileRuns(sys: System)
    requires Told(sys)
    ensures EnabledRun(sys, Meanwhile())
    ensures Run(sys, Meanwhile()).mbox.messages == Left() && Run(sys, Meanwhile()).s == sys.s
  {
    RunTwo(sys, Change(DeleteMessages([101])), Change(UpdateFlags(103, {Flagged}, Add)));
    OthersAtWork(sys.mbox);
  }

  /** The session at the fork that ends the command. */
  ghost predicate AtFork(s: Session) {
    s == Blank(Left()).(prev := Some(Freeze(Blank(Three()))), modSequence := s.modSequence)
  }

  lemma PollKeeps(s: Session, m: Mbox)
    requires s == Blank(Three()).(prev := Some(Freeze(Blank(Three()))), modSequence := s.modSequence)
    requires Sync(s, m).cache == Left()
    ensures AtFork(Sync(s, m))
  {
  }

  /** The run is possible. */
  lemma StoryEnabled()
    ensures Initial(Started()) && EnabledRun(Started(), Arrival() + Meanwhile())
    ensures var told, sys := Run(Started(), Arrival()), Run(Started(), Arrival() + Meanwhile());
            Told(told) && sys.mbox.messages == Left() && sys.s == told.s
  {
    FreshInitial(Started());
    ArrivalRuns();
    MeanwhileRuns(Run(Started(), Arrival()));
    RunConcat(Started(), Arrival(), Meanwhile());
  }

  /** After it, the poll of the command leaves the session as said. */
  lemma StoryRuns()
    ensures AtFork(Next(Run(Started(), Arrival() + Meanwhile()), Poll).s)
  {
    StoryEnabled();
    PollAfterRun(Started(), Arrival() + Meanwhile());
    var sys := Run(Started(), Arrival() + Meanwhile());
    PollKeeps(sys.s, sys.mbox);
  }

  lemma StoryUids(before: Frozen, after: Frozen)
    requires before == Freeze(Blank(Three())) && after.uids == {102, 103}
    ensures Sorted(before.uids) == [101, 102, 103] && Sorted(after.uids) == [102, 103]
    ensures before.uids - after.uids == {101} && after.uids - before.uids == {}
    ensures Sorted({101}) == [101] && Sorted({103}) == [103]
  {
    assert before.uids == {101, 102, 103};
    SortedIs([101, 102, 103], before.uids);
    SortedIs([102, 103], after.uids);
    SortedIs([101], {101});
    SortedIs([103], {103});
  }

  lemma ThreeKeys()
    ensures FlagsKeys(Three()) == {(101, {}), (102, {}), (103, {})}
  {
    forall key: FlagsKey ensures key in FlagsKeys(Three()) <==> key in {(101, {}), (102, {}), (103, {})} {
      KeyIn(Three(), key);
    }
  }

  lemma LeftKeys()
    ensures FlagsKeys(Left()) == {(102, {}), (103, {Flagged})}
  {
    forall key: FlagsKey ensures key in FlagsKeys(Left()) <==> key in {(102, {}), (103, {Flagged})} {
      KeyIn(Left(), key);
    }
  }

  lemma StoryFetches(s: Session, before: Frozen, after: Frozen)
    requires s.silencedFlags == {} && before.sflags == {} && after.sflags == {}
    requires before.recent == {} && after.recent == {} && before.uids >= after.uids
    requires before.flags == {(101, {}), (102, {}), (103, {})} && after.flags == {(102, {}), (103, {Flagged})}
    ensures FetchUids(before, after, s) == {103}
    ensures Counts(before, after) == []
  {
    assert NewFlags(before, after, s) == {(103, {Flagged})};
    assert FirstOf({(103, {Flagged})}) == {103};
    assert NewSflags(before, after, s) == {};
    assert FirstOf({}) == {};
  }

  lemma StoryChanges(s: Session, before: Frozen, after: Frozen)
    requires !s.hideExpunged && before.uids - after.uids == {101}
    requires Sorted(before.uids) == [101, 102, 103] && Sorted(after.uids) == [102, 103]
    requires Sorted({101}) == [101] && Sorted({103}) == [103] && AllFlags(s, 103) == {Flagged}
    requires FetchUids(before, after, s) == {103} && Counts(before, after) == []
    ensures Changes(before, after, s, true) == [Expunge(1), Fetch(2, {Flagged}, Some(103))]
  {
    IndexOfAscending([101, 102, 103], 0);
    IndexOfAscending([102, 103], 1);
    assert NumberOf(before.uids, 101) == 1 && NumberOf(after.uids, 103) == 2;
    assert Expunges(before, [101]) == [Expunge(1)];
    assert Fetches(after, s, [103], true) == [Fetch(2, {Flagged}, Some(103))];
  }

  /** What the fork sends. */
  lemma StoryFork(s: Session)
    requires AtFork(s)
    ensures Sorted(s.cache.Keys) == [102, 103]
    ensures Responses(s, true) == [Expunge(1), Fetch(2, {Flagged}, Some(103))]
  {
    var before, after := Freeze(Blank(Three())), Freeze(s);
    StoryFrozen(s, before, after);
    StoryUids(before, after);
    StoryChanges(s, before, after);
  }

  lemma StoryFrozen(s: Session, before: Frozen, after: Frozen)
    requires AtFork(s) && before == Freeze(Blank(Three())) && after == Freeze(s)
    ensures after.uids == {102, 103} && FetchUids(before, after, s) == {103} && Counts(before, after) == []
    ensures AllFlags(s, 103) == {Flagged}
  {
    assert after.uids == {102, 103};
    ThreeKeys();
    LeftKeys();
    StoryFetches(s, before, after);
  }

  /** What the client was sent for the message that it asked for, number 2 at the time. */
  function OwnFetch(code: set<Flag> -> int): R.Untagged {
    R.Fetch(2, map[FLAGS_ATTRIBUTE := code({}), UID_ATTRIBUTE := 102])
  }

  function ForkFetch(code: set<Flag> -> int): R.Untagged {
    R.Fetch(2, map[FLAGS_ATTRIBUTE := code({Flagged}), UID_ATTRIBUTE := 103])
  }

  lemma StoryAnswer(s: Session, code: set<Flag> -> int)
    requires AtFork(s)
    ensures Answer([OwnFetch(code)], s, true, code) == [OwnFetch(code), R.Expunge(1), ForkFetch(code)]
  {
    StoryFork(s);
    StoryWire(code);
  }

  lemma StoryWire(code: set<Flag> -> int)
    ensures AllOnWire([Expunge(1), Fetch(2, {Flagged}, Some(103))], code) == [R.Expunge(1), ForkFetch(code)]
  {
    var rs := [Expunge(1), Fetch(2, {Flagged}, Some(103))];
    assert OnWire(rs[0], code) == R.Expunge(1);
    assert OnWire(rs[1], code) == ForkFetch(code);
  }

  lemma StoryMerged(code: set<Flag> -> int)
    ensures R.MergeAll([], [OwnFetch(code), R.Expunge(1), ForkFetch(code)]) == [ForkFetch(code), R.Expunge(1)]
  {
    var own, fork := OwnFetch(code), ForkFetch(code);
    R.MergeLast([own, R.Expunge(1), fork]);
    R.MergeLast([own, R.Expunge(1)]);
    R.MergeLast([own]);
    assert [own, R.Expunge(1), fork][..2] == [own, R.Expunge(1)];
    assert [own, R.Expunge(1)][..1] == [own] && [own][..0] == [];
    assert R.FetchIndex([own, R.Expunge(1)], 2) == Some(0);
    assert R.MergeFetch(own, fork) == fork;
  }

  /** After a run that is possible, the client asks for its second message by UID. The merged answer
      makes it take the UID and flags of the third message for those of the one it asked for, which is
      now the first, and tells it nothing of the message that was flagged. */
  lemma MergedAnswerMisleads(code: set<Flag> -> int)
    ensures Initial(Started()) && EnabledRun(Started(), Arrival() + Meanwhile())
    ensures var s := Next(Run(Started(), Arrival() + Meanwhile()), Poll).s;
            var answer := Answer([OwnFetch(code)], s, true, code);
            && Sorted(s.cache.Keys) == [102, 103]
            && R.Held(R.Nothing, answer, 1) == OwnFetch(code).data
            && R.Held(R.Nothing, answer, 2) == ForkFetch(code).data
            && R.Held(R.Nothing, R.MergeAll([], answer), 1) == ForkFetch(code).data
            && R.Held(R.Nothing, R.MergeAll([], answer), 2) == map[]
  {
    StoryEnabled();
    StoryRuns();
    var s := Next(Run(Started(), Arrival() + Meanwhile()), Poll).s;
    StoryFork(s);
    StoryAnswer(s, code);
    StoryMerged(code);
    StoryHeld(code);
  }

  lemma StoryHeld(code: set<Flag> -> int)
    ensures var answer, merged := [OwnFetch(code), R.Expunge(1), ForkFetch(code)], [ForkFetch(code), R.Expunge(1)];
            && R.Held(R.Nothing, answer, 1) == OwnFetch(code).data
            && R.Held(R.Nothing, answer, 2) == ForkFetch(code).data
            && R.Held(R.Nothing, merged, 1) == ForkFetch(code).data
            && R.Held(R.Nothing, merged, 2) == map[]
  {
    var own, fork := OwnFetch(code), ForkFetch(code);
    assert [own, R.Expunge(1)] + [fork] == [own, R.Expunge(1), fork];
    R.HeldSnoc(R.Nothing, [own, R.Expunge(1)], fork, 1);
    R.HeldSnoc(R.Nothing, [own, R.Expunge(1)], fork, 2);
    R.TwoHeld(own, R.Expunge(1), 1);
    R.TwoHeld(own, R.Expunge(1), 2);
    R.TwoHeld(fork, R.Expunge(1), 1);
    R.TwoHeld(fork, R.Expunge(1), 2);
    R.OneHeld(own, 2);
    R.OneHeld(own, 3);
    R.OneHeld(fork, 2);
    R.OneHeld(fork, 3);
  }
}
