/** A mailbox of the in-memory backend: its messages, the UIDs it hands out, and its log. */
module Mailbox {
  import opened Collections
  import opened Flags
  import opened Synchronized
  import opened ChangeLog
  import opened Selected

  datatype Mbox = Mbox(maxUid: int, messages: Cache, history: History)

  /** One atomic change of one mailbox. A copy is an insertion into the destination, a move
      a `Pop` of the source and then an insertion. */
  datatype Event =
    | Insert(flags: set<Flag>, recent: bool, content: int)
    | Pop(uid: int)
    | UpdateFlags(uid: int, flagSet: set<Flag>, mode: FlagOp)
    | DeleteMessages(uids: seq<int>)
    | ClaimRecent

  ghost function RecentUids(messages: Cache): set<int> {
    set u | u in messages && messages[u].recent
  }

  ghost function ClearRecent(messages: Cache): Cache {
    map u | u in messages :: messages[u].(recent := false)
  }

  ghost function Log(m: Mbox, kind: Kind, uids: seq<int>): History {
    m.history + [Batch(kind, uids)]
  }

  ghost function Apply(m: Mbox, e: Event): Mbox {
    match e
    case Insert(flags, recent, content) =>
      var uid := m.maxUid + 1;
      Mbox(uid, m.messages[uid := Message(uid, flags, recent, false, content)], Log(m, Updated, [uid]))
    case Pop(uid) =>
      if uid in m.messages then m.(messages := m.messages - {uid}, history := Log(m, Expunged, [uid])) else m
    case UpdateFlags(uid, flagSet, mode) =>
      if uid < 1 || uid > m.maxUid then m
      else if uid in m.messages then
        var msg := m.messages[uid];
        m.(messages := m.messages[uid := msg.(flags := mode.Apply(msg.flags, flagSet))],
           history := Log(m, Updated, [uid]))
      else m.(history := Log(m, Updated, [uid]))
    case DeleteMessages(uids) =>
      m.(messages := m.messages - Elements(uids), history := Log(m, Expunged, uids))
    case ClaimRecent =>
      m.(messages := ClearRecent(m.messages), history := Log(m, Updated, Sorted(RecentUids(m.messages))))
  }

  /** Every UID is keyed by itself and was handed out. */
  ghost predicate WellFormed(m: Mbox) {
    && 0 <= m.maxUid
    && KeyedByUid(m.messages)
    && (forall u :: u in m.messages ==> 1 <= u <= m.maxUid && !m.messages[u].expunged)
  }

  lemma ApplyWellFormed(m: Mbox, e: Event)
    requires WellFormed(m)
    ensures WellFormed(Apply(m, e)) && m.maxUid <= Apply(m, e).maxUid
    ensures forall u :: u in Apply(m, e).messages && u !in m.messages ==> u > m.maxUid
  {
  }

  /** The log tells the truth: a message is there exactly if its last change was an update, and
      every UID that is not there but was mentioned was last expunged. */
  ghost predicate LogAgrees(m: Mbox) {
    && (forall u :: u in m.messages ==> Current(m.history, Updated, LastChange(m.history, u), u))
    && (forall u :: u !in m.messages && LastChange(m.history, u) > 0 ==>
      Current(m.history, Expunged, LastChange(m.history, u), u))
  }

  /** The guard that keeps the log truthful: no flags update of a message that is gone, and no
      UID twice in one deletion. */
  predicate Truthful(maxUid: int, uids: set<int>, e: Event) {
    match e
    case UpdateFlags(uid, _, _) => uid in uids || uid < 1 || uid > maxUid
    case DeleteMessages(deleted) => forall u :: u in deleted ==> multiset(deleted)[u] == 1
    case _ => true
  }

  lemma LogGrows(h: History, batch: Batch, u: int)
    ensures var h' := h + [batch];
            && LastChange(h', u) == (if u in batch.uids then |h| + 1 else LastChange(h, u))
            && (forall kind :: Current(h', kind, LastChange(h', u), u) <==>
              if u in batch.uids then kind == batch.kind && Count(batch.uids, u) == 1
              else Current(h, kind, LastChange(h, u), u))
  {
    assert (h + [batch])[..|h|] == h;
  }

  lemma NoDuplicatesCount(s: seq<int>, x: int)
    requires NoDuplicates(s) && x in s
    ensures Count(s, x) == 1
  {
    var i := IndexOf(s, x);
    assert s == s[..i] + [x] + s[i + 1..];
    assert x !in s[..i] && x !in s[i + 1..];
  }

  lemma SortedCount(items: set<int>, x: int)
    ensures x in Sorted(items) ==> Count(Sorted(items), x) == 1
  {
    if x in Sorted(items) {
      NoDuplicatesCount(Sorted(items), x);
    }
  }

  lemma AgreesAfter(m: Mbox, after: Mbox, batch: Batch)
    requires LogAgrees(m) && after.history == m.history + [batch]
    requires forall u :: u !in batch.uids ==> (u in after.messages <==> u in m.messages)
    ensures LogAgrees(after) <==> forall u :: u in batch.uids ==>
              Count(batch.uids, u) == 1 && (u in after.messages <==> batch.kind == Updated)
  {
    forall u
      ensures LastChange(after.history, u) == (if u in batch.uids then |m.history| + 1 else LastChange(m.history, u))
      && (forall kind :: Current(after.history, kind, LastChange(after.history, u), u) <==>
        if u in batch.uids then kind == batch.kind && Count(batch.uids, u) == 1
        else Current(m.history, kind, LastChange(m.history, u), u))
    {
      LogGrows(m.history, batch, u);
    }
  }

  /** The log stays truthful exactly when the guard holds. */
  lemma ApplyLogAgrees(m: Mbox, e: Event)
    requires WellFormed(m) && LogAgrees(m)
    ensures LogAgrees(Apply(m, e)) <==> Truthful(m.maxUid, m.messages.Keys, e)
  {
    match e
    case Insert(_, _, _) => OneLogged(m, Apply(m, e), Updated, m.maxUid + 1);
    case Pop(uid) => PopLogAgrees(m, uid);
    case UpdateFlags(uid, flagSet, mode) => UpdateLogAgrees(m, uid, flagSet, mode);
    case DeleteMessages(uids) => DeleteLogAgrees(m, uids);
    case ClaimRecent => ClaimLogAgrees(m);
  }

  lemma PopLogAgrees(m: Mbox, uid: int)
    requires LogAgrees(m)
    ensures LogAgrees(Apply(m, Pop(uid)))
  {
    if uid in m.messages {
      OneLogged(m, Apply(m, Pop(uid)), Expunged, uid);
    }
  }

  lemma UpdateLogAgrees(m: Mbox, uid: int, flagSet: set<Flag>, mode: FlagOp)
    requires WellFormed(m) && LogAgrees(m)
    ensures LogAgrees(Apply(m, UpdateFlags(uid, flagSet, mode))) <==> uid in m.messages || uid < 1 || uid > m.maxUid
  {
    if 1 <= uid <= m.maxUid {
      OneLogged(m, Apply(m, UpdateFlags(uid, flagSet, mode)), Updated, uid);
    }
  }

  lemma OneLogged(m: Mbox, after: Mbox, kind: Kind, uid: int)
    requires LogAgrees(m) && after.history == m.history + [Batch(kind, [uid])]
    requires forall u :: u != uid ==> (u in after.messages <==> u in m.messages)
    ensures LogAgrees(after) <==> (uid in after.messages <==> kind == Updated)
  {
    var batch := Batch(kind, [uid]);
    assert Count(batch.uids, uid) == 1;
    AgreesAfter(m, after, batch);
  }

  lemma DeleteLogAgrees(m: Mbox, uids: seq<int>)
    requires LogAgrees(m)
    ensures LogAgrees(Apply(m, DeleteMessages(uids))) <==> forall u :: u in uids ==> multiset(uids)[u] == 1
  {
    AgreesAfter(m, Apply(m, DeleteMessages(uids)), Batch(Expunged, uids));
  }

  lemma ClaimLogAgrees(m: Mbox)
    requires LogAgrees(m)
    ensures LogAgrees(Apply(m, ClaimRecent))
  {
    var recent := RecentUids(m.messages);
    forall u | u in Sorted(recent) ensures Count(Sorted(recent), u) == 1 && u in m.messages {
      SortedCount(recent, u);
      InSorted(recent, u);
    }
    AgreesAfter(m, Apply(m, ClaimRecent), Batch(Updated, Sorted(recent)));
  }

  ghost function Mentioned(h: History): set<int> {
    if h == [] then {} else Mentioned(h[..|h| - 1]) + Elements(h[|h| - 1].uids)
  }

  /** The messages that a session synchronised at `since` is told about. */
  ghost function UpdatedSince(m: Mbox, since: int): Cache {
    map u | u in m.messages && ChangedSince(m.history, since, Updated, u) :: m.messages[u]
  }

  ghost function ExpungedSince(h: History, since: int): set<int> {
    set u | u in Mentioned(h) && ChangedSince(h, since, Expunged, u)
  }

  /** The session after the mailbox has told it about the changes since its last visit, or
      about everything on the first one. */
  ghost function Sync(s: Session, m: Mbox): Session {
    var s' := s.(modSequence := Some(|m.history|));
    match s.modSequence
    case None => WithUpdates(s', m.messages, {})
    case Some(since) => WithUpdates(s', UpdatedSince(m, since), ExpungedSince(m.history, since))
  }

  datatype LookupError = IndexError(uid: int)

  class MailboxData {
    var maxUid: int
    var messages: Cache
    const log: ModSequenceMapping

    ghost predicate Valid()
      reads this, log
    {
      log.Valid() && WellFormed(View())
    }

    ghost function View(): Mbox
      reads this, log
    {
      Mbox(maxUid, messages, log.history)
    }

    constructor ()
      ensures Valid() && fresh(log) && View() == Mbox(100, map[], [])
    {
      maxUid, messages := 100, map[];
      log := new ModSequenceMapping();
    }

    method Append(flags: set<Flag>, content: int, recent: bool) returns (message: Message)
      requires Valid()
      modifies this, log
      ensures Valid() && View() == Apply(old(View()), Insert(flags, recent, content))
      ensures message.uid == maxUid == old(maxUid) + 1 && messages[message.uid] == message
    {
      ApplyWellFormed(View(), Insert(flags, recent, content));
      maxUid := maxUid + 1;
      message := Message(maxUid, flags, recent, false, content);
      messages := messages[maxUid := message];
      log.Update([maxUid]);
    }

    method Copy(uid: int, destination: MailboxData, recent: bool) returns (destUid: Option<int>)
      requires Valid() && destination.Valid()
      modifies destination, destination.log
      ensures destination.Valid()
      ensures destUid.Some? <==> uid in old(messages)
      ensures destUid.None? ==> destination.View() == old(destination.View())
      ensures destUid.Some? ==> destUid.value == destination.maxUid == old(destination.maxUid) + 1
      ensures destUid.Some? ==>
        var inserted := Insert(old(messages)[uid].flags, recent, old(messages)[uid].content);
        destination.View() == Apply(old(destination.View()), inserted)
    {
      if uid !in messages {
        return None;
      }
      var message := messages[uid];
      var newMsg := destination.Append(message.flags, message.content, recent);
      return Some(newMsg.uid);
    }

    /** The first half of a move: takes the message out of this mailbox. */
    method Take(uid: int) returns (message: Option<Message>)
      requires Valid()
      modifies this, log
      ensures Valid() && View() == Apply(old(View()), Pop(uid))
      ensures message == if uid in old(messages) then Some(old(messages)[uid]) else None
    {
      if uid !in messages {
        return None;
      }
      message := Some(messages[uid]);
      ApplyWellFormed(View(), Pop(uid));
      messages := messages - {uid};
      log.Expunge([uid]);
    }

    method Move(uid: int, destination: MailboxData, recent: bool) returns (destUid: Option<int>)
      requires Valid() && destination.Valid()
      requires destination != this ==> destination.log != log
      modifies this, log, destination, destination.log
      ensures Valid() && destination.Valid()
      ensures destUid.Some? <==> uid in old(messages)
      ensures destUid.None? ==> View() == old(View()) && destination.View() == old(destination.View())
      ensures destUid.Some? ==> destUid.value == destination.maxUid == old(destination.maxUid) + 1
      ensures destUid.Some? ==>
        var popped := Apply(old(View()), Pop(uid));
        var inserted := Insert(old(messages)[uid].flags, recent, old(messages)[uid].content);
        if destination == this then View() == Apply(popped, inserted)
        else View() == popped && destination.View() == Apply(old(destination.View()), inserted)
    {
      var message := Take(uid);
      if message.None? {
        return None;
      }
      var newMsg := destination.Append(message.value.flags, message.value.content, recent);
      return Some(newMsg.uid);
    }

    function Get(uid: int, cachedMsg: Message): Result<Message, LookupError>
      reads this
    {
      if uid < 1 || uid > maxUid then Failure(IndexError(uid))
      else if uid in messages then Success(messages[uid])
      else Success(cachedMsg.(expunged := true))
    }

    method Update(uid: int, cachedMsg: Message, flagSet: set<Flag>, mode: FlagOp)
      returns (r: Result<Message, LookupError>)
      requires Valid()
      modifies this, log
      ensures Valid() && View() == Apply(old(View()), UpdateFlags(uid, flagSet, mode))
      ensures r.Failure? <==> uid < 1 || uid > maxUid
      ensures r.Success? ==> r.value.expunged == (uid !in messages)
      ensures r.Success? && uid in messages ==> r.value == messages[uid]
    {
      ApplyWellFormed(View(), UpdateFlags(uid, flagSet, mode));
      r := Get(uid, cachedMsg);
      if r.Success? {
        var msg := r.value.(flags := mode.Apply(r.value.flags, flagSet));
        if uid in messages {
          messages := messages[uid := msg];
        }
        log.Update([uid]);
        r := Success(msg);
      }
    }

    method Delete(uids: seq<int>)
      requires Valid()
      modifies this, log
      ensures Valid() && View() == Apply(old(View()), DeleteMessages(uids))
    {
      ApplyWellFormed(View(), DeleteMessages(uids));
      for i := 0 to |uids|
        invariant log.Valid() && log.history == old(log.history) && maxUid == old(maxUid)
        invariant messages == old(messages) - Elements(uids[..i])
      {
        CutNext(old(messages), uids, i);
        messages := messages - {uids[i]};
      }
      assert uids[..|uids|] == uids;
      log.Expunge(uids);
    }

    method ClaimRecentFor(selected: SelectedMailbox)
      requires Valid()
      modifies this, log, selected.sessionFlags
      ensures Valid() && View() == Apply(old(View()), ClaimRecent)
      ensures selected.sessionFlags.recent == old(selected.sessionFlags.recent) + RecentUids(old(messages))
      ensures selected.sessionFlags.flags == old(selected.sessionFlags.flags)
    {
      ApplyWellFormed(View(), ClaimRecent);
      ClaimedAll(messages);
      var order := Sort(messages.Keys);
      var uids := ClaimEach(order, selected);
      log.Update(uids);
    }

    method ClaimEach(order: seq<int>, selected: SelectedMailbox) returns (uids: seq<int>)
      requires Ascending(order) && forall i :: 0 <= i < |order| ==> order[i] in messages
      modifies this`messages, selected.sessionFlags
      ensures messages == ClearedUpTo(old(messages), order)
      ensures uids == RecentAmong(old(messages), order)
      ensures selected.sessionFlags.recent == old(selected.sessionFlags.recent) + Elements(uids)
      ensures selected.sessionFlags.flags == old(selected.sessionFlags.flags)
    {
      uids := [];
      for i := 0 to |order|
        invariant messages == ClearedUpTo(old(messages), order[..i])
        invariant uids == RecentAmong(old(messages), order[..i])
        invariant selected.sessionFlags.recent == old(selected.sessionFlags.recent) + Elements(uids)
        invariant selected.sessionFlags.flags == old(selected.sessionFlags.flags)
      {
        var uid := order[i];
        ClaimNext(old(messages), order, i);
        var msg := messages[uid];
        if msg.recent {
          messages := messages[uid := msg.(recent := false)];
          selected.sessionFlags.AddRecent(uid);
          ElementsConcat(uids, [uid]);
          uids := uids + [uid];
        }
      }
      assert order[..|order|] == order;
    }

    method UpdateSelected(selected: SelectedMailbox)
      requires Valid() && selected.Valid()
      modifies selected`modSequence, selected.messages, selected.sessionFlags
      ensures selected.Valid() && selected.View() == Sync(old(selected.View()), View())
    {
      var modSequence := selected.modSequence;
      selected.modSequence := Some(log.highest);
      if modSequence.None? {
        TellEverything(selected);
      } else {
        TellSince(selected, modSequence.value);
      }
    }

    method TellEverything(selected: SelectedMailbox)
      requires Valid() && selected.Valid()
      modifies selected.messages, selected.sessionFlags
      ensures selected.Valid() && selected.View() == WithUpdates(old(selected.View()), messages, {})
    {
      var allMessages := ListMessages(messages, messages.Keys);
      assert ByUid(allMessages) == messages;
      selected.AddUpdates(allMessages, []);
      assert Elements<int>([]) == {};
    }

    method TellSince(selected: SelectedMailbox, since: int)
      requires Valid() && selected.Valid()
      modifies selected.messages, selected.sessionFlags
      ensures selected.Valid()
      ensures selected.View() ==
              WithUpdates(old(selected.View()), UpdatedSince(View(), since), ExpungedSince(log.history, since))
    {
      var updated, expunged := log.FindUpdated(since);
      FoundSince(View(), since, updated, expunged);
      var updatedMessages := ListMessages(messages, updated);
      var gone := Iterate(expunged);
      selected.AddUpdates(updatedMessages, gone);
    }
  }

  lemma ClaimNext(before: Cache, order: seq<int>, i: nat)
    requires Ascending(order) && i < |order| && order[i] in before
    ensures var uid, now := order[i], ClearedUpTo(before, order[..i])[order[i]];
            && now == before[uid]
            && ClearedUpTo(before, order[..i + 1]) == ClearedUpTo(before, order[..i])[uid := now.(recent := false)]
            && (!now.recent ==> ClearedUpTo(before, order[..i + 1]) == ClearedUpTo(before, order[..i]))
            && RecentAmong(before, order[..i + 1]) == RecentAmong(before, order[..i]) + if now.recent then [uid] else []
  {
    assert order[..i + 1] == order[..i] + [order[i]];
    assert order[..i + 1][..i] == order[..i];
  }

  ghost function ClearedUpTo(before: Cache, order: seq<int>): Cache {
    map u | u in before :: if u in order then before[u].(recent := false) else before[u]
  }

  ghost function RecentAmong(before: Cache, order: seq<int>): seq<int> {
    if order == [] then []
    else
      var last := order[|order| - 1];
      RecentAmong(before, order[..|order| - 1]) + if last in before && before[last].recent then [last] else []
  }

  lemma {:induction false} RecentAmongIs(before: Cache, order: seq<int>)
    requires Ascending(order)
    ensures Ascending(RecentAmong(before, order))
    ensures forall u :: u in RecentAmong(before, order) <==> u in order && u in before && before[u].recent
  {
    if order != [] {
      var front, last := order[..|order| - 1], order[|order| - 1];
      assert order == front + [last];
      RecentAmongIs(before, front);
      var r := RecentAmong(before, front);
      forall i | 0 <= i < |r| ensures r[i] < last {
        assert r[i] in r && r[i] in front;
      }
    }
  }

  /** Going through the whole mailbox claims exactly the recent messages, in ascending order. */
  lemma ClaimedAll(before: Cache)
    ensures RecentAmong(before, Sorted(before.Keys)) == Sorted(RecentUids(before))
    ensures ClearedUpTo(before, Sorted(before.Keys)) == ClearRecent(before)
    ensures Elements(Sorted(RecentUids(before))) == RecentUids(before)
  {
    var order, recent := Sorted(before.Keys), RecentUids(before);
    RecentAmongIs(before, order);
    forall u ensures (u in order <==> u in before) && (u in Sorted(recent) <==> u in recent) {
      InSorted(before.Keys, u);
      InSorted(recent, u);
    }
    AscendingUnique(RecentAmong(before, order), Sorted(recent));
  }

  /** The messages with the given UIDs, leaving out the UIDs that have none. */
  method ListMessages(messages: Cache, uids: set<int>) returns (list: seq<Message>)
    requires KeyedByUid(messages)
    ensures ByUid(list) == map u | u in messages && u in uids :: messages[u]
  {
    list := [];
    var order := Iterate(uids);
    for i := 0 to |order|
      invariant ByUid(list) == Those(messages, order[..i])
    {
      ThoseNext(messages, order, i);
      if order[i] in messages {
        assert messages[order[i]].uid == order[i];
        ByUidMore(list, messages[order[i]]);
        list := list + [messages[order[i]]];
      }
    }
    assert order[..|order|] == order;
    assert forall u :: u in order <==> u in uids;
  }

  ghost function Those(messages: Cache, uids: seq<int>): Cache {
    map u | u in messages && u in uids :: messages[u]
  }

  lemma ThoseNext(messages: Cache, order: seq<int>, i: nat)
    requires i < |order|
    ensures Those(messages, order[..i + 1]) ==
            if order[i] in messages then Those(messages, order[..i])[order[i] := messages[order[i]]]
            else Those(messages, order[..i])
  {
    assert order[..i + 1] == order[..i] + [order[i]];
  }

  lemma ByUidMore(list: seq<Message>, msg: Message)
    ensures ByUid(list + [msg]) == ByUid(list)[msg.uid := msg]
  {
    assert (list + [msg])[..|list|] == list;
  }

  lemma {:induction false} MentionedHas(h: History, u: int)
    requires LastChange(h, u) > 0
    ensures u in Mentioned(h)
  {
    if u !in h[|h| - 1].uids {
      MentionedHas(h[..|h| - 1], u);
    }
  }

  lemma FoundSince(m: Mbox, since: int, updated: set<int>, expunged: set<int>)
    requires forall u :: u in updated <==> ChangedSince(m.history, since, Updated, u)
    requires forall u :: u in expunged <==> ChangedSince(m.history, since, Expunged, u)
    ensures (map u | u in m.messages && u in updated :: m.messages[u]) == UpdatedSince(m, since)
    ensures expunged == ExpungedSince(m.history, since)
  {
    forall u | u in expunged ensures u in Mentioned(m.history) {
      MentionedHas(m.history, u);
    }
  }
}
