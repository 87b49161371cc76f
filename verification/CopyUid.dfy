/** COPY and MOVE, and the pairing of UIDs that their COPYUID response tells the client. */
module CopyUid {
  import opened Collections
  import opened Flags
  import opened SequenceSets
  import opened Synchronized
  import opened Selected
  import opened Mailbox
  import opened SequenceSetText
  import opened Wire

  ghost function ApplyAll(m: Mbox, events: seq<Event>): Mbox
    decreases |events|
  {
    if events == [] then m else ApplyAll(Apply(m, events[0]), events[1..])
  }

  lemma {:induction false} ApplyAllGrows(m: Mbox, events: seq<Event>)
    requires WellFormed(m)
    ensures WellFormed(ApplyAll(m, events)) && m.maxUid <= ApplyAll(m, events).maxUid
    decreases |events|
  {
    if events != [] {
      ApplyWellFormed(m, events[0]);
      ApplyAllGrows(Apply(m, events[0]), events[1..]);
    }
  }

  /** One operation of some other session. */
  method Perform(m: MailboxData, e: Event)
    requires m.Valid()
    modifies m, m.log
    ensures m.Valid() && m.View() == Apply(old(m.View()), e)
  {
    match e
    case Insert(flags, recent, content) => var _ := m.Append(flags, content, recent);
    case Pop(uid) => var _ := m.Take(uid);
    case UpdateFlags(uid, flagSet, mode) =>
      var _ := m.Update(uid, Message(uid, {}, false, false, 0), flagSet, mode);
    case DeleteMessages(uids) => m.Delete(uids);
    case ClaimRecent =>
      var sessionFlags := new SessionFlags({});
      var other := new SelectedMailbox(false, {}, sessionFlags);
      m.ClaimRecentFor(other);
  }

  method PerformAll(m: MailboxData, events: seq<Event>)
    requires m.Valid()
    modifies m, m.log
    ensures m.Valid() && m.View() == ApplyAll(old(m.View()), events)
  {
    ghost var start := m.View();
    for i := 0 to |events|
      invariant m.Valid() && ApplyAll(start, events) == ApplyAll(m.View(), events[i..])
    {
      assert events[i..][1..] == events[i + 1..];
      Perform(m, events[i]);
    }
  }

  type UidPairs = seq<(int, int)>

  function Sources(pairs: UidPairs): seq<int> {
    seq(|pairs|, i requires 0 <= i < |pairs| => pairs[i].0)
  }

  function Destinations(pairs: UidPairs): seq<int> {
    seq(|pairs|, i requires 0 <= i < |pairs| => pairs[i].1)
  }

  // ----- What COPY and MOVE do

  /** The source and the destination of a COPY or MOVE, which may be one mailbox. */
  datatype Boxes = Apart(source: Mbox, dest: Mbox) | Same(box: Mbox)

  ghost function SourceOf(b: Boxes): Mbox {
    if b.Apart? then b.source else b.box
  }

  ghost function DestOf(b: Boxes): Mbox {
    if b.Apart? then b.dest else b.box
  }

  ghost function OnSource(b: Boxes, events: seq<Event>): Boxes {
    if b.Apart? then b.(source := ApplyAll(b.source, events)) else Same(ApplyAll(b.box, events))
  }

  ghost function OnDest(b: Boxes, events: seq<Event>): Boxes {
    if b.Apart? then b.(dest := ApplyAll(b.dest, events)) else Same(ApplyAll(b.box, events))
  }

  ghost function StepSource(b: Boxes, e: Event): Boxes {
    if b.Apart? then b.(source := Apply(b.source, e)) else Same(Apply(b.box, e))
  }

  ghost function StepDest(b: Boxes, e: Event): Boxes {
    if b.Apart? then b.(dest := Apply(b.dest, e)) else Same(Apply(b.box, e))
  }

  /** What other sessions do around the turn of one message: to the source before it, and to the
      destination before the message is inserted. */
  type Others = (seq<Event>, seq<Event>)

  function OthersAt(others: seq<Others>, i: nat): Others {
    if i < |others| then others[i] else ([], [])
  }

  /** The source when the turn of a message comes. */
  ghost function Seen(b: Boxes, others: Others, moving: bool): Mbox {
    if moving then SourceOf(OnSource(b, others.0)) else SourceOf(OnDest(OnSource(b, others.0), others.1))
  }

  ghost function CopyEvent(msg: Message, recent: bool): Event {
    Insert(msg.flags, recent, msg.content)
  }

  /** One message: a copy is one step, a move takes the message out and then inserts it. */
  ghost function Turn(b: Boxes, uid: int, others: Others, moving: bool, recent: bool): (Boxes, Option<int>) {
    var seen := Seen(b, others, moving);
    var start := OnSource(b, others.0);
    var after := OnDest(if moving then StepSource(start, Pop(uid)) else start, others.1);
    if uid !in seen.messages then (after, None)
    else
      var done := StepDest(after, CopyEvent(seen.messages[uid], recent));
      (done, Some(DestOf(done).maxUid))
  }

  /** One turn, and the pair it adds. */
  ghost function Advance(soFar: (Boxes, UidPairs), uid: int, others: Others, moving: bool, recent: bool)
    : (Boxes, UidPairs)
  {
    var turn := Turn(soFar.0, uid, others, moving, recent);
    (turn.0, Noted(soFar.1, uid, turn.1))
  }

  ghost function Noted(pairs: UidPairs, uid: int, destUid: Option<int>): UidPairs {
    if destUid.Some? then pairs + [(uid, destUid.value)] else pairs
  }

  /** The first `n` messages, in order. */
  ghost function CopyAll(b: Boxes, picked: seq<int>, others: seq<Others>, moving: bool, recent: bool, n: nat)
    : (Boxes, UidPairs)
    requires n <= |picked|
  {
    if n == 0 then (b, [])
    else
      Advance(CopyAll(b, picked, others, moving, recent, n - 1), picked[n - 1], OthersAt(others, n - 1), moving, recent)
  }

  ghost function ViewOf(mbx: MailboxData, dest: MailboxData): Boxes
    reads mbx, mbx.log, dest, dest.log
  {
    if mbx == dest then Same(mbx.View()) else Apart(mbx.View(), dest.View())
  }

  /** COPY (or MOVE, if `moving`) of the selected messages that are still in the mailbox, which may
      be its own destination. `others` says how other sessions change the two mailboxes around each
      message. `destSelected` is the session, if any, that gets the `\Recent` marks. */
  method CopyMessages(
    mbx: MailboxData, selected: SelectedMailbox, seqSet: SequenceSet, dest: MailboxData,
    destSelected: SelectedMailbox?, others: seq<Others>, moving: bool)
    returns (uids: UidPairs)
    requires mbx.Valid() && dest.Valid() && selected.Valid() && (dest != mbx ==> dest.log != mbx.log)
    modifies mbx, mbx.log, dest, dest.log, if destSelected == null then {} else {destSelected.sessionFlags}
    ensures mbx.Valid() && dest.Valid()
    ensures var picked := UidsOf(old(selected.messages.GetUids(seqSet)));
            Ascending(picked) &&
            (ViewOf(mbx, dest), uids) ==
            CopyAll(old(ViewOf(mbx, dest)), picked, others, moving, destSelected == null, |picked|)
    ensures destSelected != null ==>
      destSelected.sessionFlags.recent == old(destSelected.sessionFlags.recent) + Elements(Destinations(uids))
  {
    selected.messages.PickedAscend(seqSet);
    uids := CopyEach(mbx, UidsOf(selected.messages.GetUids(seqSet)), dest, destSelected, others, moving);
  }

  method CopyEach(
    mbx: MailboxData, picked: seq<int>, dest: MailboxData, destSelected: SelectedMailbox?, others: seq<Others>,
    moving: bool)
    returns (uids: UidPairs)
    requires mbx.Valid() && dest.Valid() && (dest != mbx ==> dest.log != mbx.log)
    modifies mbx, mbx.log, dest, dest.log, if destSelected == null then {} else {destSelected.sessionFlags}
    ensures mbx.Valid() && dest.Valid()
    ensures (ViewOf(mbx, dest), uids) ==
            CopyAll(old(ViewOf(mbx, dest)), picked, others, moving, destSelected == null, |picked|)
    ensures destSelected != null ==>
      destSelected.sessionFlags.recent == old(destSelected.sessionFlags.recent) + Elements(Destinations(uids))
  {
    uids := [];
    ghost var start := ViewOf(mbx, dest);
    ghost var marked := if destSelected == null then {} else destSelected.sessionFlags.recent;
    for i := 0 to |picked|
      invariant mbx.Valid() && dest.Valid()
      invariant (ViewOf(mbx, dest), uids) == CopyAll(start, picked, others, moving, destSelected == null, i)
      invariant destSelected != null ==> destSelected.sessionFlags.recent == marked + Elements(Destinations(uids))
    {
      uids := CopyNext(mbx, uids, picked[i], dest, destSelected, OthersAt(others, i), moving, marked);
    }
  }

  method CopyNext(
    mbx: MailboxData, uids: UidPairs, uid: int, dest: MailboxData, destSelected: SelectedMailbox?, others: Others,
    moving: bool, ghost marked: set<int>)
    returns (uids': UidPairs)
    requires mbx.Valid() && dest.Valid() && (dest != mbx ==> dest.log != mbx.log)
    requires destSelected != null ==> destSelected.sessionFlags.recent == marked + Elements(Destinations(uids))
    modifies mbx, mbx.log, dest, dest.log, if destSelected == null then {} else {destSelected.sessionFlags}
    ensures mbx.Valid() && dest.Valid()
    ensures (ViewOf(mbx, dest), uids') ==
            Advance((old(ViewOf(mbx, dest)), uids), uid, others, moving, destSelected == null)
    ensures destSelected != null ==> destSelected.sessionFlags.recent == marked + Elements(Destinations(uids'))
  {
    var destUid := CopyOne(mbx, uid, dest, others, moving, destSelected == null);
    uids' := Record(destSelected, uids, uid, destUid, marked);
  }

  /** Notes down a copied message, and marks it `\Recent` in the session that is to have it. */
  method Record(
    destSelected: SelectedMailbox?, uids: UidPairs, uid: int, destUid: Option<int>, ghost marked: set<int>)
    returns (uids': UidPairs)
    requires destSelected != null ==> destSelected.sessionFlags.recent == marked + Elements(Destinations(uids))
    modifies if destSelected == null then {} else {destSelected.sessionFlags}
    ensures uids' == Noted(uids, uid, destUid)
    ensures destSelected != null ==> destSelected.sessionFlags.recent == marked + Elements(Destinations(uids'))
  {
    if destUid.None? {
      return uids;
    }
    DestinationsAdd(uids, uid, destUid.value);
    if destSelected != null {
      destSelected.sessionFlags.AddRecent(destUid.value);
    }
    uids' := uids + [(uid, destUid.value)];
  }

  lemma DestinationsAdd(pairs: UidPairs, uid: int, destUid: int)
    ensures Elements(Destinations(pairs + [(uid, destUid)])) == Elements(Destinations(pairs)) + {destUid}
  {
    assert Destinations(pairs + [(uid, destUid)]) == Destinations(pairs) + [destUid];
    ElementsConcat(Destinations(pairs), [destUid]);
  }

  method PerformOnSource(mbx: MailboxData, dest: MailboxData, events: seq<Event>)
    requires mbx.Valid() && dest.Valid() && (dest != mbx ==> dest.log != mbx.log)
    modifies mbx, mbx.log
    ensures mbx.Valid() && dest.Valid() && ViewOf(mbx, dest) == OnSource(old(ViewOf(mbx, dest)), events)
  {
    PerformAll(mbx, events);
  }

  method PerformOnDest(mbx: MailboxData, dest: MailboxData, events: seq<Event>)
    requires mbx.Valid() && dest.Valid() && (dest != mbx ==> dest.log != mbx.log)
    modifies dest, dest.log
    ensures mbx.Valid() && dest.Valid() && ViewOf(mbx, dest) == OnDest(old(ViewOf(mbx, dest)), events)
  {
    PerformAll(dest, events);
  }

  method TakeFromSource(mbx: MailboxData, dest: MailboxData, uid: int) returns (message: Option<Message>)
    requires mbx.Valid() && dest.Valid() && (dest != mbx ==> dest.log != mbx.log)
    modifies mbx, mbx.log
    ensures mbx.Valid() && dest.Valid() && ViewOf(mbx, dest) == StepSource(old(ViewOf(mbx, dest)), Pop(uid))
    ensures var messages := SourceOf(old(ViewOf(mbx, dest))).messages;
            message == if uid in messages then Some(messages[uid]) else None
  {
    message := mbx.Take(uid);
  }

  method PutIntoDest(mbx: MailboxData, dest: MailboxData, message: Message, recent: bool) returns (destUid: int)
    requires mbx.Valid() && dest.Valid() && (dest != mbx ==> dest.log != mbx.log)
    modifies dest, dest.log
    ensures mbx.Valid() && dest.Valid()
    ensures ViewOf(mbx, dest) == StepDest(old(ViewOf(mbx, dest)), CopyEvent(message, recent))
    ensures destUid == DestOf(ViewOf(mbx, dest)).maxUid
  {
    var newMsg := dest.Append(message.flags, message.content, recent);
    destUid := newMsg.uid;
  }

  method CopyOne(mbx: MailboxData, uid: int, dest: MailboxData, others: Others, moving: bool, recent: bool)
    returns (destUid: Option<int>)
    requires mbx.Valid() && dest.Valid() && (dest != mbx ==> dest.log != mbx.log)
    modifies mbx, mbx.log, dest, dest.log
    ensures mbx.Valid() && dest.Valid()
    ensures (ViewOf(mbx, dest), destUid) == Turn(old(ViewOf(mbx, dest)), uid, others, moving, recent)
  {
    PerformOnSource(mbx, dest, others.0);
    if moving {
      var message := TakeFromSource(mbx, dest, uid);
      PerformOnDest(mbx, dest, others.1);
      if message.None? {
        return None;
      }
      var newUid := PutIntoDest(mbx, dest, message.value, recent);
      return Some(newUid);
    } else {
      PerformOnDest(mbx, dest, others.1);
      destUid := CopyStep(mbx, uid, dest, recent);
    }
  }

  method CopyStep(mbx: MailboxData, uid: int, dest: MailboxData, recent: bool) returns (destUid: Option<int>)
    requires mbx.Valid() && dest.Valid() && (dest != mbx ==> dest.log != mbx.log)
    modifies dest, dest.log
    ensures mbx.Valid() && dest.Valid()
    ensures var b := old(ViewOf(mbx, dest));
            if uid !in SourceOf(b).messages then ViewOf(mbx, dest) == b && destUid == None
            else ViewOf(mbx, dest) == StepDest(b, CopyEvent(SourceOf(b).messages[uid], recent))
                 && destUid == Some(DestOf(ViewOf(mbx, dest)).maxUid)
  {
    destUid := mbx.Copy(uid, dest, recent);
  }

  // ----- What the pairs say

  /** Ascending on both sides, with destination UIDs that were handed out after `base`. */
  ghost predicate PairsOk(pairs: UidPairs, base: int, maxUid: int) {
    && Ascending(Sources(pairs)) && Ascending(Destinations(pairs))
    && (forall i :: 0 <= i < |pairs| ==> 1 <= pairs[i].0 && base < pairs[i].1 <= maxUid)
  }

  lemma PairsAdd(pairs: UidPairs, base: int, maxUid: int, uid: int, destUid: int)
    requires PairsOk(pairs, base, maxUid) && base <= maxUid < destUid && 1 <= uid
    requires forall i :: 0 <= i < |pairs| ==> pairs[i].0 < uid
    ensures PairsOk(pairs + [(uid, destUid)], base, destUid)
  {
    var longer := pairs + [(uid, destUid)];
    assert forall i :: 0 <= i < |longer| ==>
      longer[i].0 == Sources(longer)[i] && longer[i].1 == Destinations(longer)[i];
    assert forall i :: 0 <= i < |pairs| ==> Sources(pairs)[i] == longer[i].0 && Destinations(pairs)[i] == longer[i].1;
  }

  lemma PairsLater(pairs: UidPairs, base: int, maxUid: int, later: int)
    requires PairsOk(pairs, base, maxUid) && maxUid <= later
    ensures PairsOk(pairs, base, later)
  {
  }

  ghost predicate BoxesOk(b: Boxes) {
    WellFormed(SourceOf(b)) && WellFormed(DestOf(b))
  }

  lemma EventsOk(b: Boxes, events: seq<Event>)
    requires BoxesOk(b)
    ensures BoxesOk(OnSource(b, events)) && BoxesOk(OnDest(b, events))
    ensures DestOf(b).maxUid <= DestOf(OnSource(b, events)).maxUid
    ensures DestOf(b).maxUid <= DestOf(OnDest(b, events)).maxUid
  {
    ApplyAllGrows(SourceOf(b), events);
    ApplyAllGrows(DestOf(b), events);
  }

  lemma TurnOk(b: Boxes, uid: int, others: Others, moving: bool, recent: bool)
    requires BoxesOk(b)
    ensures var (after, destUid) := Turn(b, uid, others, moving, recent);
            && BoxesOk(after) && DestOf(b).maxUid <= DestOf(after).maxUid
            && (destUid.Some? ==> 1 <= uid && DestOf(b).maxUid < destUid.value == DestOf(after).maxUid)
  {
    var seen := Seen(b, others, moving);
    SeenOk(b, others, moving);
    EventsOk(b, others.0);
    var start := OnSource(b, others.0);
    StepOk(start, Pop(uid));
    var popped := if moving then StepSource(start, Pop(uid)) else start;
    EventsOk(popped, others.1);
    if uid in seen.messages {
      StepOk(OnDest(popped, others.1), CopyEvent(seen.messages[uid], recent));
    }
  }

  lemma StepOk(b: Boxes, e: Event)
    requires BoxesOk(b)
    ensures BoxesOk(StepSource(b, e)) && BoxesOk(StepDest(b, e))
    ensures DestOf(b).maxUid <= DestOf(StepSource(b, e)).maxUid && DestOf(b).maxUid <= DestOf(StepDest(b, e)).maxUid
    ensures e.Insert? ==> DestOf(StepDest(b, e)).maxUid == DestOf(b).maxUid + 1
  {
    ApplyWellFormed(SourceOf(b), e);
    ApplyWellFormed(DestOf(b), e);
  }

  lemma SeenOk(b: Boxes, others: Others, moving: bool)
    requires BoxesOk(b)
    ensures WellFormed(Seen(b, others, moving))
  {
    EventsOk(b, others.0);
    EventsOk(OnSource(b, others.0), others.1);
  }

  lemma {:induction false} CopyAllOk(
    b: Boxes, picked: seq<int>, others: seq<Others>, moving: bool, recent: bool, n: nat)
    requires n <= |picked| && BoxesOk(b) && Ascending(picked)
    ensures var (after, pairs) := CopyAll(b, picked, others, moving, recent, n);
            && BoxesOk(after) && DestOf(b).maxUid <= DestOf(after).maxUid
            && PairsOk(pairs, DestOf(b).maxUid, DestOf(after).maxUid)
            && (forall i :: 0 <= i < |pairs| ==> exists k :: 0 <= k < n && pairs[i].0 == picked[k])
  {
    if n > 0 {
      CopyAllOk(b, picked, others, moving, recent, n - 1);
      var (before, pairs) := CopyAll(b, picked, others, moving, recent, n - 1);
      TurnOk(before, picked[n - 1], OthersAt(others, n - 1), moving, recent);
      var (after, destUid) := Turn(before, picked[n - 1], OthersAt(others, n - 1), moving, recent);
      PairsLater(pairs, DestOf(b).maxUid, DestOf(before).maxUid, DestOf(after).maxUid);
      if destUid.Some? {
        PairsLater(pairs, DestOf(b).maxUid, DestOf(before).maxUid, destUid.value - 1);
        PairsAdd(pairs, DestOf(b).maxUid, destUid.value - 1, picked[n - 1], destUid.value);
      }
    }
  }

  // ----- What is copied

  /** The copy of a message under its new UID. */
  ghost function CopyOf(msg: Message, destUid: int, recent: bool): Message {
    Message(destUid, msg.flags, recent, false, msg.content)
  }

  lemma TurnCopies(b: Boxes, uid: int, others: Others, moving: bool, recent: bool)
    requires BoxesOk(b)
    ensures var (after, destUid) := Turn(b, uid, others, moving, recent);
            var seen := Seen(b, others, moving).messages;
            && (destUid.Some? <==> uid in seen)
            && (destUid.Some? ==>
              && destUid.value in DestOf(after).messages
              && DestOf(after).messages[destUid.value] == CopyOf(seen[uid], destUid.value, recent)
              && (moving ==> uid !in SourceOf(after).messages))
  {
    var seen := Seen(b, others, moving);
    EventsOk(b, others.0);
    var start := OnSource(b, others.0);
    StepOk(start, Pop(uid));
    if moving {
      var popped := StepSource(start, Pop(uid));
      EventsOk(popped, others.1);
      if uid in seen.messages {
        NeverAgain(DestOf(popped), others.1, uid);
      }
    } else {
      EventsOk(start, others.1);
    }
  }

  /** A UID that was handed out and is gone does not come back. */
  lemma {:induction false} NeverAgain(m: Mbox, events: seq<Event>, uid: int)
    requires WellFormed(m)
    ensures uid <= m.maxUid && uid !in m.messages ==> uid !in ApplyAll(m, events).messages
    decreases |events|
  {
    if events != [] {
      ApplyWellFormed(m, events[0]);
      NeverAgain(Apply(m, events[0]), events[1..], uid);
    }
  }

  /** Whatever the other sessions do: a picked message gets a pair exactly if it is there when its
      turn comes, and the UID it is paired with then holds its copy. A moved message is gone. */
  lemma EachTurn(b: Boxes, picked: seq<int>, others: seq<Others>, moving: bool, recent: bool, k: nat)
    requires k < |picked| && BoxesOk(b) && Ascending(picked)
    ensures var before := CopyAll(b, picked, others, moving, recent, k).0;
            var (after, pairs) := CopyAll(b, picked, others, moving, recent, k + 1);
            var all := CopyAll(b, picked, others, moving, recent, |picked|).1;
            var uid, seen := picked[k], Seen(before, OthersAt(others, k), moving).messages;
            && (uid in Sources(all) <==> uid in seen)
            && (uid in seen ==>
              && 0 < |pairs| <= |all| && all[|pairs| - 1] == pairs[|pairs| - 1]
              && var (source, dest) := pairs[|pairs| - 1];
                && source == uid && dest in DestOf(after).messages
                && DestOf(after).messages[dest] == CopyOf(seen[uid], dest, recent)
                && (moving ==> uid !in SourceOf(after).messages))
  {
    CopyAllOk(b, picked, others, moving, recent, k);
    var (before, soFar) := CopyAll(b, picked, others, moving, recent, k);
    TurnCopies(before, picked[k], OthersAt(others, k), moving, recent);
    LaterTurns(b, picked, others, moving, recent, k + 1, |picked|);
    var pairs := CopyAll(b, picked, others, moving, recent, k + 1).1;
    var all := CopyAll(b, picked, others, moving, recent, |picked|).1;
    forall i | 0 <= i < |soFar| ensures soFar[i].0 != picked[k] {
      var j :| 0 <= j < k && soFar[i].0 == picked[j];
    }
    PairedOrNot(soFar, pairs, all, picked[k]);
  }

  /** The later turns add pairs of later messages. */
  lemma {:induction false} LaterTurns(
    b: Boxes, picked: seq<int>, others: seq<Others>, moving: bool, recent: bool, k: nat, n: nat)
    requires k <= n <= |picked| && Ascending(picked)
    ensures var pairs := CopyAll(b, picked, others, moving, recent, k).1;
            var all := CopyAll(b, picked, others, moving, recent, n).1;
            pairs <= all && forall i :: |pairs| <= i < |all| ==> 0 < k ==> picked[k - 1] < all[i].0
    decreases n
  {
    if k < n {
      LaterTurns(b, picked, others, moving, recent, k, n - 1);
    }
  }

  lemma PairedOrNot(soFar: UidPairs, pairs: UidPairs, all: UidPairs, uid: int)
    requires pairs <= all && forall i :: |pairs| <= i < |all| ==> uid < all[i].0
    requires forall i :: 0 <= i < |soFar| ==> soFar[i].0 != uid
    requires pairs == soFar || (pairs != [] && pairs[..|pairs| - 1] == soFar && pairs[|pairs| - 1].0 == uid)
    ensures uid in Sources(all) <==> pairs != soFar
    ensures pairs != soFar ==> |pairs| <= |all| && all[|pairs| - 1] == pairs[|pairs| - 1]
  {
    if pairs == soFar {
      forall i | 0 <= i < |all| ensures Sources(all)[i] != uid {
        assert i < |pairs| ==> all[i] == pairs[i];
      }
    } else {
      assert all[|pairs| - 1] == pairs[|pairs| - 1];
      assert Sources(all)[|pairs| - 1] == uid;
    }
  }

  // ----- With nobody else at work

  /** The picked messages that are there. */
  ghost function Present(picked: seq<int>, messages: Cache): seq<int> {
    if picked == [] then []
    else
      var last := picked[|picked| - 1];
      Present(picked[..|picked| - 1], messages) + if last in messages then [last] else []
  }

  /** The UIDs after `base`, in order, for the given messages. */
  ghost function Numbered(sources: seq<int>, base: int): UidPairs {
    seq(|sources|, i requires 0 <= i < |sources| => (sources[i], base + 1 + i))
  }

  ghost function Copies(sources: seq<int>, messages: Cache, base: int, recent: bool): Cache {
    map d | base < d <= base + |sources| && CopiedTo(sources, messages, base, d) ::
      CopyOf(messages[sources[d - base - 1]], d, recent)
  }

  ghost predicate CopiedTo(sources: seq<int>, messages: Cache, base: int, d: int) {
    base < d <= base + |sources| && sources[d - base - 1] in messages
  }

  ghost function Kept(messages: Cache, picked: seq<int>, moving: bool): Cache {
    if moving then messages - Elements(picked) else messages
  }

  /** What is to be left of both mailboxes, and the pairs. */
  ghost predicate CopiedAll(b: Boxes, picked: seq<int>, moving: bool, recent: bool, after: (Boxes, UidPairs)) {
    var source, base := SourceOf(b).messages, DestOf(b).maxUid;
    var sources := Present(picked, source);
    Copied(b, sources, Kept(source, picked, moving), Copies(sources, source, base, recent), after)
  }

  ghost predicate Copied(b: Boxes, sources: seq<int>, kept: Cache, copies: Cache, after: (Boxes, UidPairs)) {
    && after.1 == Numbered(sources, DestOf(b).maxUid)
    && DestOf(after.0).maxUid == DestOf(b).maxUid + |sources|
    && Holds(b, kept, copies, after.0)
  }

  ghost predicate Holds(b: Boxes, kept: Cache, copies: Cache, after: Boxes) {
    if b.Apart? then
      after.Apart? && after.source.messages == kept && after.dest.messages == b.dest.messages + copies
    else
      after.Same? && after.box.messages == kept + copies
  }

  /** When no other session interferes, and every UID picked from a mailbox that is its own
      destination was handed out before: exactly the picked messages that are there are copied, to the
      next UIDs of the destination and in order, and a move takes exactly them away. */
  lemma {:induction false} CopyAlone(b: Boxes, picked: seq<int>, moving: bool, recent: bool, n: nat)
    requires n <= |picked| && BoxesOk(b) && Ascending(picked)
    requires b.Same? ==> forall i :: 0 <= i < |picked| ==> picked[i] <= b.box.maxUid
    ensures CopiedAll(b, picked[..n], moving, recent, CopyAll(b, picked, [], moving, recent, n))
  {
    if n == 0 {
      NothingCopied(b, picked[..0], moving, recent);
    } else {
      CopyAlone(b, picked, moving, recent, n - 1);
      StepAlone(b, picked, moving, recent, n, CopyAll(b, picked, [], moving, recent, n - 1));
    }
  }

  lemma StepAlone(b: Boxes, picked: seq<int>, moving: bool, recent: bool, n: nat, before: (Boxes, UidPairs))
    requires 0 < n <= |picked| && BoxesOk(b) && Ascending(picked) && (b.Same? ==> picked[n - 1] <= b.box.maxUid)
    requires CopiedAll(b, picked[..n - 1], moving, recent, before)
    ensures CopiedAll(b, picked[..n], moving, recent, Advance(before, picked[n - 1], ([], []), moving, recent))
  {
    LastPicked(picked, n);
    OneMoreTurn(b, picked[..n - 1], picked[n - 1], moving, recent, before);
  }

  lemma OneMoreTurn(b: Boxes, front: seq<int>, last: int, moving: bool, recent: bool, before: (Boxes, UidPairs))
    requires BoxesOk(b) && Ascending(front + [last]) && (b.Same? ==> last <= b.box.maxUid)
    requires CopiedAll(b, front, moving, recent, before)
    ensures CopiedAll(b, front + [last], moving, recent, Advance(before, last, ([], []), moving, recent))
  {
    var after := Advance(before, last, ([], []), moving, recent);
    AdvanceAlone(before, last, moving, recent);
    AloneTurn(b, front, last, moving, recent, before, after);
  }

  lemma NothingCopied(b: Boxes, picked: seq<int>, moving: bool, recent: bool)
    requires picked == []
    ensures CopiedAll(b, picked, moving, recent, (b, []))
  {
    assert Kept(SourceOf(b).messages, picked, moving) == SourceOf(b).messages;
  }

  lemma LastPicked(picked: seq<int>, n: nat)
    requires 0 < n <= |picked| && Ascending(picked)
    ensures picked[..n] == picked[..n - 1] + [picked[n - 1]] && Ascending(picked[..n])
  {
  }

  /** One turn, as far as messages and pairs go. */
  ghost predicate Turned(before: (Boxes, UidPairs), uid: int, moving: bool, recent: bool, after: (Boxes, UidPairs)) {
    if uid !in SourceOf(before.0).messages then after == before
    else
      var next := DestOf(before.0).maxUid + 1;
      var copy := CopyOf(SourceOf(before.0).messages[uid], next, recent);
      && after.1 == before.1 + [(uid, next)] && DestOf(after.0).maxUid == next
      && (match before.0
        case Apart(source, dest) =>
          && after.0.Apart? && after.0.source.messages == Without(source.messages, uid, moving)
          && after.0.dest.messages == dest.messages[next := copy]
        case Same(box) =>
          after.0.Same? && after.0.box.messages == Without(box.messages, uid, moving)[next := copy])
  }

  ghost function Without(messages: Cache, uid: int, moving: bool): Cache {
    if moving then messages - {uid} else messages
  }

  lemma AdvanceAlone(before: (Boxes, UidPairs), uid: int, moving: bool, recent: bool)
    ensures Turned(before, uid, moving, recent, Advance(before, uid, ([], []), moving, recent))
  {
    var b := before.0;
    assert OnSource(b, []) == b && OnDest(b, []) == b;
    assert OnDest(StepSource(b, Pop(uid)), []) == StepSource(b, Pop(uid));
  }

  lemma AloneTurn(
    b: Boxes, front: seq<int>, last: int, moving: bool, recent: bool, before: (Boxes, UidPairs),
    after: (Boxes, UidPairs))
    requires BoxesOk(b) && Ascending(front + [last]) && (b.Same? ==> last <= b.box.maxUid)
    requires CopiedAll(b, front, moving, recent, before) && Turned(before, last, moving, recent, after)
    ensures CopiedAll(b, front + [last], moving, recent, after)
  {
    StillHere(b, front, last, moving, recent, before);
    if last in SourceOf(b).messages {
      PresentTurn(b, front, last, moving, recent, before, after);
    } else {
      AbsentTurn(b, front, last, moving, recent, before);
    }
  }

  lemma PresentTurn(
    b: Boxes, front: seq<int>, last: int, moving: bool, recent: bool, before: (Boxes, UidPairs),
    after: (Boxes, UidPairs))
    requires CopiedAll(b, front, moving, recent, before) && Turned(before, last, moving, recent, after)
    requires var source, now := SourceOf(b).messages, SourceOf(before.0).messages;
             last in source && last in now && now[last] == source[last]
    requires var source := SourceOf(b).messages;
             b.Same? ==> last !in Copies(Present(front, source), source, DestOf(b).maxUid, recent)
    ensures CopiedAll(b, front + [last], moving, recent, after)
  {
    var source, base, picked := SourceOf(b).messages, DestOf(b).maxUid, front + [last];
    var next := base + |Present(front, source)| + 1;
    PartsMore(source, front, last, moving, base, recent, next, CopyOf(source[last], next, recent));
    CopiedMore(b, Present(front, source), Kept(source, front, moving),
               Copies(Present(front, source), source, base, recent),
               before, last, moving, recent, next, CopyOf(source[last], next, recent), after,
               Present(picked, source), Kept(source, picked, moving),
               Copies(Present(picked, source), source, base, recent));
  }

  lemma AbsentTurn(b: Boxes, front: seq<int>, last: int, moving: bool, recent: bool, before: (Boxes, UidPairs))
    requires CopiedAll(b, front, moving, recent, before) && last !in SourceOf(b).messages
    ensures CopiedAll(b, front + [last], moving, recent, before)
  {
    var source := SourceOf(b).messages;
    var sources := Present(front, source);
    PresentMore(front, last, source);
    KeptSame(source, front, last, moving);
    CopiedParts(b, front + [last], moving, recent, before, sources, Kept(source, front, moving),
                Copies(sources, source, DestOf(b).maxUid, recent));
  }

  lemma CopiedParts(
    b: Boxes, picked: seq<int>, moving: bool, recent: bool, after: (Boxes, UidPairs), sources: seq<int>, kept: Cache,
    copies: Cache)
    requires sources == Present(picked, SourceOf(b).messages) && kept == Kept(SourceOf(b).messages, picked, moving)
    requires copies == Copies(sources, SourceOf(b).messages, DestOf(b).maxUid, recent)
    requires Copied(b, sources, kept, copies, after)
    ensures CopiedAll(b, picked, moving, recent, after)
  {
  }

  lemma StillHere(b: Boxes, front: seq<int>, last: int, moving: bool, recent: bool, before: (Boxes, UidPairs))
    requires BoxesOk(b) && Ascending(front + [last]) && (b.Same? ==> last <= b.box.maxUid)
    requires CopiedAll(b, front, moving, recent, before)
    ensures var source, now := SourceOf(b).messages, SourceOf(before.0).messages;
            (last in now <==> last in source) && (last in source ==> now[last] == source[last])
    ensures var source := SourceOf(b).messages;
            b.Same? ==> last !in Copies(Present(front, source), source, DestOf(b).maxUid, recent)
  {
    var source := SourceOf(b).messages;
    var copies := Copies(Present(front, source), source, DestOf(b).maxUid, recent);
    StillThere(source, front, last, moving, if b.Same? then copies else map[]);
    assert Kept(source, front, moving) + map[] == Kept(source, front, moving);
  }

  lemma PartsMore(
    source: Cache, front: seq<int>, last: int, moving: bool, base: int, recent: bool, next: int, copy: Message)
    requires last in source && next == base + |Present(front, source)| + 1 && copy == CopyOf(source[last], next, recent)
    ensures Present(front + [last], source) == Present(front, source) + [last]
    ensures Kept(source, front + [last], moving) == Without(Kept(source, front, moving), last, moving)
    ensures Copies(Present(front + [last], source), source, base, recent) ==
            Copies(Present(front, source), source, base, recent)[next := copy]
  {
    PresentMore(front, last, source);
    KeptMore(source, front, last, moving);
    CopiesMore(Present(front, source), source, base, recent, last);
  }

  lemma CopiedMore(
    b: Boxes, sources: seq<int>, kept: Cache, copies: Cache, before: (Boxes, UidPairs), uid: int, moving: bool,
    recent: bool, next: int, copy: Message, after: (Boxes, UidPairs), sources': seq<int>, kept': Cache, copies': Cache)
    requires Copied(b, sources, kept, copies, before) && Turned(before, uid, moving, recent, after)
    requires uid in SourceOf(before.0).messages && (b.Same? ==> uid !in copies)
    requires next == DestOf(before.0).maxUid + 1 && copy == CopyOf(SourceOf(before.0).messages[uid], next, recent)
    requires sources' == sources + [uid]
    requires kept' == Without(kept, uid, moving)
    requires copies' == copies[next := copy]
    ensures Copied(b, sources', kept', copies', after)
  {
    NumberedMore(sources, DestOf(b).maxUid, uid);
  }

  lemma PresentMore(front: seq<int>, last: int, messages: Cache)
    ensures Present(front + [last], messages) ==
            if last in messages then Present(front, messages) + [last] else Present(front, messages)
  {
    assert (front + [last])[..|front|] == front;
  }

  lemma KeptMore(messages: Cache, front: seq<int>, last: int, moving: bool)
    ensures Kept(messages, front + [last], moving) == Without(Kept(messages, front, moving), last, moving)
  {
    ElementsConcat(front, [last]);
  }

  lemma KeptSame(messages: Cache, front: seq<int>, last: int, moving: bool)
    requires last !in messages
    ensures Kept(messages, front + [last], moving) == Kept(messages, front, moving)
  {
    KeptMore(messages, front, last, moving);
  }

  lemma StillThere(messages: Cache, front: seq<int>, last: int, moving: bool, copies: Cache)
    requires Ascending(front + [last]) && last !in copies
    ensures var now := Kept(messages, front, moving) + copies;
            (last in now <==> last in messages) && (last in messages ==> now[last] == messages[last])
  {
    forall i | 0 <= i < |front| ensures front[i] != last {
      assert (front + [last])[i] < (front + [last])[|front|];
    }
  }

  lemma NumberedMore(sources: seq<int>, base: int, last: int)
    ensures Numbered(sources + [last], base) == Numbered(sources, base) + [(last, base + |sources| + 1)]
  {
  }

  lemma CopiesMore(sources: seq<int>, messages: Cache, base: int, recent: bool, last: int)
    requires last in messages
    ensures var next := base + |sources| + 1;
            Copies(sources + [last], messages, base, recent) ==
            Copies(sources, messages, base, recent)[next := CopyOf(messages[last], next, recent)]
  {
  }

  function UidsOf(picked: seq<(int, int)>): seq<int> {
    seq(|picked|, i requires 0 <= i < |picked| => picked[i].1)
  }

  /** The two sets of a COPYUID response; it is built only for a list that is not empty. */
  method CopyUidSets(pairs: UidPairs) returns (sourceSet: SequenceSet, destSet: SequenceSet)
    requires pairs != [] && forall i :: 0 <= i < |pairs| ==> 0 <= pairs[i].0 && 0 <= pairs[i].1
    ensures sourceSet.Listed? && CoversExactly(sourceSet.sequences, Elements(Sources(pairs)))
    ensures destSet.Listed? && CoversExactly(destSet.sequences, Elements(Destinations(pairs)))
  {
    var sources := Build(Sources(pairs), false);
    var dests := Build(Destinations(pairs), false);
    sourceSet, destSet := sources.value, dests.value;
  }

  /** How a client reads the pairs: the first of one set with the first of the other, and so on. */
  ghost function Zip(sources: seq<int>, dests: seq<int>): UidPairs {
    var n := Min(|sources|, |dests|);
    seq(n, i requires 0 <= i < n => (sources[i], dests[i]))
  }

  /** Expanding the two sets in ascending order and pairing them up gives back the very pairs,
      exactly if they were in ascending order on both sides. */
  lemma PairingIsExact(pairs: UidPairs, sourceElems: seq<SeqElem>, destElems: seq<SeqElem>, maxValue: int)
    requires CoversExactly(sourceElems, Elements(Sources(pairs)))
    requires CoversExactly(destElems, Elements(Destinations(pairs)))
    requires forall i :: 0 <= i < |pairs| ==> pairs[i].0 <= maxValue && pairs[i].1 <= maxValue
    ensures Zip(Sorted(FlattenElems(sourceElems, maxValue)), Sorted(FlattenElems(destElems, maxValue))) == pairs <==>
            Ascending(Sources(pairs)) && Ascending(Destinations(pairs))
  {
    var sources, dests := Sources(pairs), Destinations(pairs);
    FlattenCover(sourceElems, Elements(sources), maxValue);
    FlattenCover(destElems, Elements(dests), maxValue);
    var s, d := Sorted(Elements(sources)), Sorted(Elements(dests));
    if Ascending(sources) && Ascending(dests) {
      SortedIs(sources, Elements(sources));
      SortedIs(dests, Elements(dests));
      assert Zip(sources, dests) == pairs;
    }
    if Zip(s, d) == pairs {
      forall i | 0 <= i < |pairs| ensures sources[i] == s[i] && dests[i] == d[i] {
        assert Zip(s, d)[i] == pairs[i];
      }
    }
  }

  /** The bytes that follow a set in a COPYUID response. */
  const CLOSE_BRACKET: Byte := 0x5d

  lemma GroupsPositive(elems: seq<SeqElem>, items: set<int>)
    requires CoversExactly(elems, items) && forall x :: x in items ==> 1 <= x
    ensures forall i :: 0 <= i < |elems| ==> Positive(elems[i])
  {
    forall i | 0 <= i < |elems| ensures Positive(elems[i]) {
      assert Group(elems[i]);
      assert InGroup(elems, i, Low(elems[i])) && InGroup(elems, i, High(elems[i]));
    }
  }

  lemma ClientReads(elems: seq<SeqElem>, items: set<int>, rest: Bytes)
    requires CoversExactly(elems, items) && items != {} && forall x :: x in items ==> 1 <= x
    requires rest != [] && (rest[0] == SPACE || rest[0] == CLOSE_BRACKET)
    ensures ParseSet(PrintElems(elems) + rest, false) == Success((Listed(elems, false), rest))
  {
    GroupsPositive(elems, items);
    HasElement(items);
    var x :| x in items;
    assert exists i :: InGroup(elems, i, x);
    RoundTrip(elems, false, rest);
  }

  /** From the COPY loop to the client: the pairs of any COPY or MOVE are read back from the two
      printed sets. */
  lemma ClientPairs(pairs: UidPairs, base: int, maxUid: int, sourceElems: seq<SeqElem>, destElems: seq<SeqElem>,
                    afterSources: Bytes, afterDests: Bytes, maxValue: int)
    requires pairs != [] && 0 <= base && PairsOk(pairs, base, maxUid)
    requires CoversExactly(sourceElems, Elements(Sources(pairs)))
    requires CoversExactly(destElems, Elements(Destinations(pairs)))
    requires afterSources != [] && afterSources[0] == SPACE && afterDests != [] && afterDests[0] == CLOSE_BRACKET
    requires forall i :: 0 <= i < |pairs| ==> pairs[i].0 <= maxValue && pairs[i].1 <= maxValue
    ensures ParseSet(PrintElems(sourceElems) + afterSources, false) ==
            Success((Listed(sourceElems, false), afterSources))
    ensures ParseSet(PrintElems(destElems) + afterDests, false) == Success((Listed(destElems, false), afterDests))
    ensures Zip(Sorted(FlattenElems(sourceElems, maxValue)), Sorted(FlattenElems(destElems, maxValue))) == pairs
  {
    assert Sources(pairs)[0] in Elements(Sources(pairs)) && Destinations(pairs)[0] in Elements(Destinations(pairs));
    ClientReads(sourceElems, Elements(Sources(pairs)), afterSources);
    ClientReads(destElems, Elements(Destinations(pairs)), afterDests);
    PairingIsExact(pairs, sourceElems, destElems, maxValue);
  }
}
