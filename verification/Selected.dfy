/** A selected mailbox: it collects updates while a command runs and, when the command ends,
    turns the difference between two frozen states into untagged responses. */
module Selected {
  import opened Collections
  import opened Flags
  import opened SequenceSets
  import opened Synchronized

  datatype Response =
    | Bye
    | Expunge(seqNum: int)
    | Exists(count: int)
    | RecentCount(count: int)
    | Fetch(seqNum: int, flags: set<Flag>, uid: Option<int>)

  /** The state that two forks are compared by. */
  datatype Frozen = Frozen(
    isDeleted: bool, uids: set<int>, seqsCache: map<int, int>, flags: set<FlagsKey>,
    recent: set<int>, sflags: set<FlagsKey>)

  /** The value of a selected mailbox object between its method calls. */
  datatype Session = Session(
    permanent: set<Flag>, defined: set<Flag>,
    cache: Cache, pending: set<int>,
    sflags: map<int, set<Flag>>, recent: set<int>,
    modSequence: Option<int>, isDeleted: bool, hideExpunged: bool,
    silencedFlags: set<FlagsKey>, silencedSflags: set<FlagsKey>,
    prev: Option<Frozen>)

  ghost function FlagItems(sflags: map<int, set<Flag>>): set<FlagsKey> {
    set u | u in sflags :: (u, sflags[u])
  }

  ghost function Freeze(s: Session): Frozen {
    Frozen(s.isDeleted, s.cache.Keys, Numbering(Sorted(s.cache.Keys)), FlagsKeys(s.cache),
           s.recent * s.cache.Keys, FlagItems(s.sflags))
  }

  ghost function WithUpdates(s: Session, updates: Cache, expunged: set<int>): Session {
    var cache := s.cache + updates;
    if s.hideExpunged then
      s.(cache := cache, pending := s.pending + expunged)
    else
      s.(cache := cache - (expunged + s.pending), pending := {},
         recent := s.recent - expunged, sflags := s.sflags - expunged)
  }

  /** The permanent and session flags of a message, `\Recent` included. */
  ghost function AllFlags(s: Session, uid: int): set<Flag> {
    (if uid in s.cache then s.cache[uid].flags else {}) + SessionFlagsOf(s.sflags, s.recent, uid)
  }

  /** The message's place in the ascending list of UIDs, from 1. */
  ghost function NumberOf(uids: set<int>, uid: int): int {
    if uid in Sorted(uids) then IndexOf(Sorted(uids), uid) + 1 else 0
  }

  ghost function NewFlags(before: Frozen, after: Frozen, s: Session): set<FlagsKey> {
    after.flags - before.flags - s.silencedFlags
  }

  ghost function NewSflags(before: Frozen, after: Frozen, s: Session): set<FlagsKey> {
    after.sflags - before.sflags - s.silencedSflags
  }

  function FirstOf(keys: set<FlagsKey>): set<int> {
    set key | key in keys :: key.0
  }

  ghost function FetchUids(before: Frozen, after: Frozen, s: Session): set<int> {
    (after.recent - before.recent) + FirstOf(NewFlags(before, after, s)) + FirstOf(NewSflags(before, after, s))
  }

  ghost function Expunges(before: Frozen, gone: seq<int>): seq<Response> {
    seq(|gone|, i requires 0 <= i < |gone| => Expunge(NumberOf(before.uids, gone[|gone| - 1 - i])))
  }

  ghost function Fetches(after: Frozen, s: Session, uids: seq<int>, withUid: bool): seq<Response> {
    seq(|uids|, i requires 0 <= i < |uids| =>
      Fetch(NumberOf(after.uids, uids[i]), AllFlags(s, uids[i]), if withUid then Some(uids[i]) else None))
  }

  /** Every changed session flag belongs to a listed message, so its number can be looked up. */
  ghost predicate SessionFlagsListed(s: Session) {
    s.prev.Some? ==> forall u :: u in FirstOf(NewSflags(s.prev.value, Freeze(s), s)) ==> u in s.cache
  }

  ghost function Counts(before: Frozen, after: Frozen): seq<Response> {
    (if after.uids - before.uids != {} then [Exists(|after.uids|)] else [])
    + (if |after.recent| != |before.recent| then [RecentCount(|after.recent|)] else [])
  }

  ghost function Changes(before: Frozen, after: Frozen, s: Session, withUid: bool): seq<Response> {
    (if s.hideExpunged then [] else Expunges(before, Sorted(before.uids - after.uids)))
    + Counts(before, after)
    + Fetches(after, s, Sorted(FetchUids(before, after, s)), withUid)
  }

  lemma FetchedAreListed(s: Session, before: Frozen)
    requires KeyedByUid(s.cache) && s.prev == Some(before) && SessionFlagsListed(s)
    ensures FetchUids(before, Freeze(s), s) <= s.cache.Keys
  {
    forall u | u in FirstOf(NewFlags(before, Freeze(s), s)) ensures u in s.cache {
      var key :| key in NewFlags(before, Freeze(s), s) && key.0 == u;
      KeyIn(s.cache, key);
    }
  }

  /** The untagged responses of a fork. */
  ghost function Responses(s: Session, withUid: bool): seq<Response> {
    if s.prev.None? then []
    else if s.isDeleted then [Bye]
    else Changes(s.prev.value, Freeze(s), s, withUid)
  }

  /** The next epoch starts from the frozen state, with nothing hidden or silenced. */
  ghost function NextEpoch(s: Session): Session {
    s.(isDeleted := false, hideExpunged := false, silencedFlags := {}, silencedSflags := {}, prev := Some(Freeze(s)))
  }

  /** The flags keys that an operation leaves on the messages it changes, by the cached flags. */
  ghost function Outcomes(current: int -> set<Flag>, uids: set<int>, operand: set<Flag>, op: FlagOp): set<FlagsKey> {
    set u | u in uids && op.Apply(current(u), operand) != current(u) :: (u, op.Apply(current(u), operand))
  }

  ghost function CachedFlags(cache: Cache): int -> set<Flag> {
    u => if u in cache then cache[u].flags else {}
  }

  ghost function CachedSflags(s: Session): int -> set<Flag> {
    u => SessionFlagsOf(s.sflags, s.recent, u)
  }

  ghost function WithSilence(s: Session, uids: set<int>, flagSet: set<Flag>, op: FlagOp): Session {
    s.(silencedFlags := s.silencedFlags + Outcomes(CachedFlags(s.cache), uids, Intersect(s.permanent, flagSet), op),
       silencedSflags := s.silencedSflags + Outcomes(CachedSflags(s), uids, Intersect(s.defined, flagSet), op))
  }

  lemma OutcomesAdd(current: int -> set<Flag>, uids: set<int>, u: int, operand: set<Flag>, op: FlagOp)
    ensures Outcomes(current, uids + {u}, operand, op) == Outcomes(current, uids, operand, op) +
            if op.Apply(current(u), operand) != current(u) then {(u, op.Apply(current(u), operand))} else {}
  {
    var before, after := Outcomes(current, uids, operand, op), Outcomes(current, uids + {u}, operand, op);
    forall key: FlagsKey {:trigger key in after}
      ensures key in after <==>
              (key in before ||
               (op.Apply(current(u), operand) != current(u) && key == (u, op.Apply(current(u), operand))))
    {
      OutcomesHas(current, uids, operand, op, key);
      OutcomesHas(current, uids + {u}, operand, op, key);
    }
  }

  lemma OutcomesHas(current: int -> set<Flag>, uids: set<int>, operand: set<Flag>, op: FlagOp, key: FlagsKey)
    ensures key in Outcomes(current, uids, operand, op) <==>
            key.0 in uids && key.1 == op.Apply(current(key.0), operand) != current(key.0)
  {
    if key.0 in uids && key.1 == op.Apply(current(key.0), operand) != current(key.0) {
      OutcomeOf(current, uids, operand, op, key.0);
    }
  }

  lemma OutcomeOf(current: int -> set<Flag>, uids: set<int>, operand: set<Flag>, op: FlagOp, u: int)
    requires u in uids && op.Apply(current(u), operand) != current(u)
    ensures (u, op.Apply(current(u), operand)) in Outcomes(current, uids, operand, op)
  {
  }

  class SelectedMailbox {
    const readonly: bool
    const permanentFlags: set<Flag>
    const sessionFlags: SessionFlags
    const messages: SynchronizedMessages
    var modSequence: Option<int>
    var isDeleted: bool
    var hideExpunged: bool
    var silencedFlags: set<FlagsKey>
    var silencedSflags: set<FlagsKey>
    var prev: Option<Frozen>

    ghost predicate Valid()
      reads this, messages
    {
      messages.Valid()
    }

    ghost function View(): Session
      reads this, messages, sessionFlags
    {
      Session(permanentFlags, sessionFlags.defined, messages.cache, messages.pendingRemove,
              sessionFlags.flags, sessionFlags.recent, modSequence, isDeleted, hideExpunged,
              silencedFlags, silencedSflags, prev)
    }

    constructor (readonly: bool, permanentFlags: set<Flag>, sessionFlags: SessionFlags)
      ensures Valid() && fresh(messages) && this.sessionFlags == sessionFlags && this.readonly == readonly
      ensures View() == Session(permanentFlags - {Recent}, sessionFlags.defined, map[], {}, sessionFlags.flags,
                                sessionFlags.recent, None, false, false, {}, {}, None)
    {
      this.readonly := readonly;
      this.permanentFlags := permanentFlags - {Recent};
      this.sessionFlags := sessionFlags;
      messages := new SynchronizedMessages();
      modSequence, isDeleted, hideExpunged, prev := None, false, false, None;
      silencedFlags, silencedSflags := {}, {};
    }

    /** The copy that a fork makes: it shares the messages and the session flags. */
    constructor Copy(from: SelectedMailbox, frozen: Frozen)
      requires from.Valid()
      ensures readonly == from.readonly && messages == from.messages && sessionFlags == from.sessionFlags
      ensures View() == from.View().(isDeleted := false, hideExpunged := false, silencedFlags := {},
                                     silencedSflags := {}, prev := Some(frozen))
    {
      readonly, permanentFlags := from.readonly, from.permanentFlags;
      sessionFlags, messages := from.sessionFlags, from.messages;
      modSequence, isDeleted, hideExpunged, prev := from.modSequence, false, false, Some(frozen);
      silencedFlags, silencedSflags := {}, {};
    }

    method AddUpdates(updates: seq<Message>, expunged: seq<int>)
      requires Valid()
      modifies messages, sessionFlags
      ensures Valid()
      ensures View() == WithUpdates(old(View()), ByUid(updates), Elements(expunged))
    {
      messages.Update(updates);
      messages.Remove(expunged, hideExpunged);
      if !hideExpunged {
        sessionFlags.Remove(expunged);
      }
    }

    /** The alternative for backends that list the whole mailbox every time. */
    method SetMessages(all: seq<Message>)
      requires Valid()
      modifies messages, sessionFlags
      ensures Valid()
      ensures View() == WithUpdates(old(View()), ByUid(all), old(messages.cache.Keys) - (set m | m in all :: m.uid))
    {
      var uids := set m | m in all :: m.uid;
      var expunged := Iterate(messages.uids - uids);
      AddUpdates(all, expunged);
    }

    method Freezing() returns (frozen: Frozen)
      requires Valid()
      ensures frozen == Freeze(View())
    {
      var items := sessionFlags.flags;
      frozen := Frozen(isDeleted, messages.uids, messages.seqsCache, messages.flagsKeySet,
                       sessionFlags.recent * messages.uids, set u | u in items :: (u, items[u]));
    }

    method Silence(seqSet: SequenceSet, flagSet: set<Flag>, op: FlagOp)
      requires Valid()
      modifies this`silencedFlags, this`silencedSflags
      ensures View() == WithSilence(old(View()), PickedUids(messages.GetUids(seqSet)), flagSet, op)
    {
      messages.PickedAreCached(seqSet);
      SilenceAll(messages.GetUids(seqSet), flagSet, op);
    }

    method SilenceAll(picked: seq<(int, int)>, flagSet: set<Flag>, op: FlagOp)
      requires KeyedByUid(messages.cache)
      requires forall i :: 0 <= i < |picked| ==> picked[i].1 in messages.cache
      modifies this`silencedFlags, this`silencedSflags
      ensures View() == WithSilence(old(View()), PickedUids(picked), flagSet, op)
    {
      ghost var s := View();
      var operand := Intersect(permanentFlags, flagSet);
      var operandS := Intersect(sessionFlags.defined, flagSet);
      for i := 0 to |picked|
        invariant silencedFlags ==
                  s.silencedFlags + Outcomes(CachedFlags(s.cache), PickedUids(picked[..i]), operand, op)
        invariant silencedSflags == s.silencedSflags + Outcomes(CachedSflags(s), PickedUids(picked[..i]), operandS, op)
      {
        PickedNext(picked, i);
        var msg := messages.cache[picked[i].1];
        assert msg.uid == picked[i].1;
        SilenceOne(msg.uid, operand, operandS, op, s, PickedUids(picked[..i]));
      }
      assert picked[..|picked|] == picked;
    }

    /** One round of the loop in `Silence`, after the UIDs in `done`. */
    method SilenceOne(
      uid: int, operand: set<Flag>, operandS: set<Flag>, op: FlagOp, ghost s: Session, ghost done: set<int>)
      requires uid in messages.cache
      requires s.cache == messages.cache && s.sflags == sessionFlags.flags && s.recent == sessionFlags.recent
      requires silencedFlags == s.silencedFlags + Outcomes(CachedFlags(s.cache), done, operand, op)
      requires silencedSflags == s.silencedSflags + Outcomes(CachedSflags(s), done, operandS, op)
      modifies this`silencedFlags, this`silencedSflags
      ensures silencedFlags == s.silencedFlags + Outcomes(CachedFlags(s.cache), done + {uid}, operand, op)
      ensures silencedSflags == s.silencedSflags + Outcomes(CachedSflags(s), done + {uid}, operandS, op)
    {
      OutcomesAdd(CachedFlags(s.cache), done, uid, operand, op);
      OutcomesAdd(CachedSflags(s), done, uid, operandS, op);
      var msgFlags, msgSflags := messages.cache[uid].flags, sessionFlags.Get(uid);
      var updatedFlags, updatedSflags := op.Apply(msgFlags, operand), op.Apply(msgSflags, operandS);
      if msgFlags != updatedFlags {
        silencedFlags := silencedFlags + {(uid, updatedFlags)};
      }
      if msgSflags != updatedSflags {
        silencedSflags := silencedSflags + {(uid, updatedSflags)};
      }
    }

    /** The frozen state that the next fork is compared with numbers its own messages. */
    ghost predicate PrevValid()
      reads this
    {
      prev.Some? ==> prev.value.seqsCache == Numbering(Sorted(prev.value.uids))
    }

    method Fork(withUid: bool) returns (copy: SelectedMailbox, untagged: seq<Response>)
      requires Valid() && PrevValid() && SessionFlagsListed(View())
      ensures fresh(copy) && copy.Valid() && copy.PrevValid()
      ensures copy.messages == messages && copy.sessionFlags == sessionFlags && copy.readonly == readonly
      ensures copy.View() == NextEpoch(old(View()))
      ensures untagged == Responses(old(View()), withUid)
    {
      var frozen := Freezing();
      copy := new SelectedMailbox.Copy(this, frozen);
      if prev.Some? {
        FetchedAreListed(View(), prev.value);
        untagged := Compare(prev.value, frozen, withUid);
      } else {
        untagged := [];
      }
    }

    method Compare(before: Frozen, after: Frozen, withUid: bool) returns (untagged: seq<Response>)
      requires Valid()
      requires before.seqsCache == Numbering(Sorted(before.uids)) && after.seqsCache == Numbering(Sorted(after.uids))
      requires FetchUids(before, after, View()) <= after.uids == messages.cache.Keys
      ensures untagged == if after.isDeleted then [Bye] else Changes(before, after, View(), withUid)
    {
      if after.isDeleted {
        return [Bye];
      }
      untagged := [];
      NothingGone(before);
      if !hideExpunged && before.uids - after.uids != {} {
        untagged := CompareExpunged(before, before.uids - after.uids);
      }
      var counts := CompareCounts(before, after);
      var fetches := CompareFlags(before, after, withUid);
      untagged := untagged + counts + fetches;
    }

    method CompareCounts(before: Frozen, after: Frozen) returns (untagged: seq<Response>)
      ensures untagged == Counts(before, after)
    {
      untagged := [];
      if after.uids - before.uids != {} {
        untagged := untagged + [Exists(|after.uids|)];
      }
      if |after.recent| != |before.recent| {
        untagged := untagged + [RecentCount(|after.recent|)];
      }
    }

    method CompareExpunged(before: Frozen, gone: set<int>) returns (untagged: seq<Response>)
      requires gone <= before.uids && before.seqsCache == Numbering(Sorted(before.uids))
      ensures untagged == Expunges(before, Sorted(gone))
    {
      var sorted := Sort(gone);
      untagged := [];
      var i := |sorted|;
      while i > 0
        invariant 0 <= i <= |sorted|
        invariant untagged == Expunges(before, sorted)[..|sorted| - i]
      {
        i := i - 1;
        assert sorted[i] in gone;
        InSorted(before.uids, sorted[i]);
        assert Expunges(before, sorted)[|sorted| - 1 - i] == Expunge(NumberOf(before.uids, sorted[i]));
        untagged := untagged + [Expunge(before.seqsCache[sorted[i]])];
      }
    }

    method CompareFlags(before: Frozen, after: Frozen, withUid: bool) returns (untagged: seq<Response>)
      requires Valid() && after.seqsCache == Numbering(Sorted(after.uids))
      requires FetchUids(before, after, View()) <= after.uids == messages.cache.Keys
      ensures untagged == Fetches(after, View(), Sorted(FetchUids(before, after, View())), withUid)
    {
      var newFlags := after.flags - before.flags - silencedFlags;
      var newSflags := after.sflags - before.sflags - silencedSflags;
      var sorted := Sort((after.recent - before.recent) + FirstOf(newFlags) + FirstOf(newSflags));
      untagged := [];
      for i := 0 to |sorted|
        invariant untagged == Fetches(after, View(), sorted, withUid)[..i]
      {
        var uid := sorted[i];
        InSorted(after.uids, uid);
        var flags := messages.cache[uid].flags + sessionFlags.Get(uid);
        untagged := untagged + [Fetch(after.seqsCache[uid], flags, if withUid then Some(uid) else None)];
      }
    }
  }

  lemma NothingGone(before: Frozen)
    ensures Expunges(before, Sorted({})) == []
  {
    SortedIs([], {});
  }

  ghost function PickedUids(picked: seq<(int, int)>): set<int> {
    set i | 0 <= i < |picked| :: picked[i].1
  }

  lemma PickedNext(picked: seq<(int, int)>, i: nat)
    requires i < |picked|
    ensures PickedUids(picked[..i + 1]) == PickedUids(picked[..i]) + {picked[i].1}
  {
    var next := picked[..i + 1];
    assert next[i] == picked[i];
    forall k | 0 <= k < i ensures next[k] == picked[..i][k] {}
  }
}
