/** The `\Recent` flag over any interleaving of sessions: no message is ever recent in two places. */
module RecentFlag {
  import opened Collections
  import opened Flags
  import opened Synchronized
  import opened Selected
  import opened Mailbox

  /** A session's selection of a mailbox, for as long as anything may refer to it. */
  datatype Selection = Selection(box: int, readonly: bool)

  /** The mailbox that an operation puts messages into, and the session it picked when it began. */
  datatype Pick = Pick(box: int, choice: Option<int>)

  /** All selections ever made, the UIDs that each one still in use holds as recent, and the
      operations under way. */
  datatype World = World(
    boxes: map<int, Mbox>, selections: map<int, Selection>, recent: map<int, set<int>>, picks: map<int, Pick>)

  /** An APPEND, COPY or MOVE picks a session once, in `Begin`, and then puts its messages one by one,
      each in a step of its own. `Forget` drops the flags of expunged messages. */
  datatype Action =
    | Open(sid: int, box: int, readonly: bool)
    | Claim(sid: int)
    | Close(sid: int)
    | Begin(op: int, box: int, own: Option<int>, choice: Option<int>)
    | Put(op: int, flags: set<Flag>, content: int)
    | Other(box: int, event: Event)
    | Forget(sid: int, uids: set<int>)

  ghost predicate SelectedOn(w: World, sid: int, box: int) {
    sid in w.recent && sid in w.selections && w.selections[sid].box == box
  }

  /** The session's own selection if it is the mailbox in question, or else any selection that may
      write to it, even one that is no longer in use, or nobody if there is none in use. */
  ghost predicate Picked(w: World, box: int, own: Option<int>, choice: Option<int>) {
    if own.Some? && SelectedOn(w, own.value, box) then choice == own
    else if choice.Some? then choice.value in w.selections && w.selections[choice.value] == Selection(box, false)
    else forall sid :: SelectedOn(w, sid, box) ==> w.selections[sid].readonly
  }

  /** A selection is never made twice; a picked session may be closed, and others opened, before
      a message is put. */
  ghost predicate Possible(w: World, a: Action) {
    match a
    case Open(sid, box, _) => sid !in w.selections && box in w.boxes
    case Claim(sid) => sid in w.recent && sid in w.selections && !w.selections[sid].readonly
    case Close(_) => true
    case Begin(_, box, own, choice) => box in w.boxes && Picked(w, box, own, choice)
    case Put(op, _, _) => op in w.picks
    case Other(box, e) => box in w.boxes && !e.Insert? && !e.ClaimRecent?
    case Forget(sid, _) => sid in w.recent
  }

  ghost function Marked(recent: map<int, set<int>>, sid: int, uids: set<int>): map<int, set<int>> {
    if sid in recent then recent[sid := recent[sid] + uids] else recent
  }

  ghost function Do(w: World, a: Action): World
    requires WorldOk(w) && Possible(w, a)
  {
    match a
    case Open(sid, box, readonly) =>
      w.(selections := w.selections[sid := Selection(box, readonly)], recent := w.recent[sid := {}])
    case Claim(sid) =>
      var box := w.selections[sid].box;
      w.(boxes := w.boxes[box := Apply(w.boxes[box], ClaimRecent)],
         recent := Marked(w.recent, sid, RecentUids(w.boxes[box].messages)))
    case Close(sid) => w.(recent := w.recent - {sid})
    case Begin(op, box, _, choice) => w.(picks := w.picks[op := Pick(box, choice)])
    case Put(op, flags, content) =>
      var Pick(box, choice) := w.picks[op];
      var after := Apply(w.boxes[box], Insert(flags, choice.None?, content));
      w.(boxes := w.boxes[box := after],
         recent := if choice.Some? then Marked(w.recent, choice.value, {after.maxUid}) else w.recent)
    case Other(box, e) => w.(boxes := w.boxes[box := Apply(w.boxes[box], e)])
    case Forget(sid, uids) => w.(recent := w.recent[sid := w.recent[sid] - uids])
  }

  /** Where a message can be recent: in the mailbox itself or in a session. */
  datatype Place = Stored | InSession(sid: int)

  ghost predicate RecentAt(w: World, box: int, uid: int, place: Place) {
    match place
    case Stored => box in w.boxes && uid in w.boxes[box].messages && w.boxes[box].messages[uid].recent
    case InSession(sid) => SelectedOn(w, sid, box) && uid in w.recent[sid]
  }

  ghost predicate NeverShared(w: World) {
    forall box, uid, p, q :: RecentAt(w, box, uid, p) && RecentAt(w, box, uid, q) ==> p == q
  }

  ghost predicate SelectionsOk(w: World) {
    && (forall sid :: sid in w.recent ==> sid in w.selections)
    && (forall sid :: sid in w.selections ==> w.selections[sid].box in w.boxes)
  }

  ghost predicate PickOk(w: World, pick: Pick) {
    && pick.box in w.boxes
    && (pick.choice.Some? ==>
      pick.choice.value in w.selections && w.selections[pick.choice.value].box == pick.box)
  }

  ghost predicate WorldOk(w: World) {
    && (forall box :: box in w.boxes ==> WellFormed(w.boxes[box]))
    && SelectionsOk(w)
    && (forall op :: op in w.picks ==> PickOk(w, w.picks[op]))
    && (forall sid, uid :: sid in w.recent && uid in w.recent[sid] ==> uid <= w.boxes[w.selections[sid].box].maxUid)
    && NeverShared(w)
  }

  /** The mailbox that a step changes, and how. */
  ghost function Changed(w: World, a: Action): Option<(int, Event)>
    requires WorldOk(w) && Possible(w, a)
  {
    match a
    case Claim(sid) => Some((w.selections[sid].box, ClaimRecent))
    case Put(op, flags, content) => Some((w.picks[op].box, Insert(flags, w.picks[op].choice.None?, content)))
    case Other(box, e) => Some((box, e))
    case _ => None
  }

  lemma BoxesStay(w: World, a: Action)
    requires WorldOk(w) && Possible(w, a)
    ensures Do(w, a).boxes.Keys == w.boxes.Keys
    ensures forall box :: box in w.boxes ==>
              WellFormed(Do(w, a).boxes[box]) && w.boxes[box].maxUid <= Do(w, a).boxes[box].maxUid
    ensures SelectionsOk(Do(w, a)) && forall op :: op in Do(w, a).picks ==> PickOk(Do(w, a), Do(w, a).picks[op])
  {
    var change := Changed(w, a);
    if change.Some? {
      ApplyWellFormed(w.boxes[change.value.0], change.value.1);
    }
  }

  /** The session that a Put marks, if it is still there, or the mailbox if nobody was picked. */
  ghost function PutPlace(w: World, op: int): Place
    requires op in w.picks
  {
    if w.picks[op].choice.Some? then InSession(w.picks[op].choice.value) else Stored
  }

  /** A place where a message is recent after a step goes back to one where it was before: the
      same place, or the mailbox from which it was claimed; or the message is new. */
  lemma WhereFrom(w: World, a: Action, box: int, uid: int, place: Place)
    requires WorldOk(w) && Possible(w, a) && RecentAt(Do(w, a), box, uid, place)
    ensures || RecentAt(w, box, uid, place)
            || (a.Claim? && w.selections[a.sid].box == box && place == InSession(a.sid)
                && RecentAt(w, box, uid, Stored))
            || (a.Put? && w.picks[a.op].box == box && uid == w.boxes[box].maxUid + 1 && place == PutPlace(w, a.op))
  {
  }

  lemma ClaimedIsGone(w: World, sid: int, uid: int)
    requires WorldOk(w) && Possible(w, Claim(sid))
    ensures !RecentAt(Do(w, Claim(sid)), w.selections[sid].box, uid, Stored)
  {
  }

  lemma NewIsNowhere(w: World, box: int, place: Place)
    requires WorldOk(w) && box in w.boxes
    ensures !RecentAt(w, box, w.boxes[box].maxUid + 1, place)
  {
  }

  lemma StepNeverShared(w: World, a: Action)
    requires WorldOk(w) && Possible(w, a)
    ensures NeverShared(Do(w, a))
  {
    var w' := Do(w, a);
    forall box, uid, p, q | RecentAt(w', box, uid, p) && RecentAt(w', box, uid, q) ensures p == q {
      WhereFrom(w, a, box, uid, p);
      WhereFrom(w, a, box, uid, q);
      if a.Claim? && w.selections[a.sid].box == box {
        ClaimedIsGone(w, a.sid, uid);
      }
      if a.Put? && w.picks[a.op].box == box {
        NewIsNowhere(w, box, p);
        NewIsNowhere(w, box, q);
      }
    }
  }

  lemma StepBounded(w: World, a: Action, sid: int, uid: int)
    requires WorldOk(w) && Possible(w, a) && sid in Do(w, a).recent && uid in Do(w, a).recent[sid]
    ensures sid in Do(w, a).selections && Do(w, a).selections[sid].box in Do(w, a).boxes
    ensures uid <= Do(w, a).boxes[Do(w, a).selections[sid].box].maxUid
  {
    BoxesStay(w, a);
  }

  lemma StepOk(w: World, a: Action)
    requires WorldOk(w) && Possible(w, a)
    ensures WorldOk(Do(w, a))
  {
    BoxesStay(w, a);
    StepNeverShared(w, a);
    forall sid, uid | sid in Do(w, a).recent && uid in Do(w, a).recent[sid]
      ensures uid <= Do(w, a).boxes[Do(w, a).selections[sid].box].maxUid
    {
      StepBounded(w, a, sid, uid);
    }
  }

  ghost predicate PossibleRun(w: World, run: seq<Action>)
    requires WorldOk(w)
    decreases |run|
  {
    run != [] ==> Possible(w, run[0]) && (StepOk(w, run[0]); PossibleRun(Do(w, run[0]), run[1..]))
  }

  ghost function DoAll(w: World, run: seq<Action>): World
    requires WorldOk(w) && PossibleRun(w, run)
    decreases |run|
  {
    if run == [] then w else
      StepOk(w, run[0]);
      DoAll(Do(w, run[0]), run[1..])
  }

  /** Over every interleaving of selects, appends, copies, moves, deletions and flag updates by any
      number of sessions, a message is recent in at most one place. */
  lemma {:induction false} RunNeverShared(w: World, run: seq<Action>)
    requires WorldOk(w) && PossibleRun(w, run)
    ensures WorldOk(DoAll(w, run)) && NeverShared(DoAll(w, run))
    decreases |run|
  {
    if run != [] {
      StepOk(w, run[0]);
      RunNeverShared(Do(w, run[0]), run[1..]);
    }
  }

  // ----- No mark is lost but by closing, expunging or forgetting

  ghost predicate IsRecent(w: World, box: int, uid: int) {
    exists place :: RecentAt(w, box, uid, place)
  }

  /** The step takes the mark from where it is: it closes the session, forgets the message there, or
      removes the message from the mailbox. */
  ghost predicate Loses(w: World, a: Action, box: int, uid: int) {
    match a
    case Close(sid) => RecentAt(w, box, uid, InSession(sid))
    case Forget(sid, uids) => uid in uids && RecentAt(w, box, uid, InSession(sid))
    case Other(b, Pop(popped)) => b == box && popped == uid && RecentAt(w, box, uid, Stored)
    case Other(b, DeleteMessages(uids)) => b == box && uid in uids && RecentAt(w, box, uid, Stored)
    case _ => false
  }

  /** The step puts a new message, which is marked unless the session that was picked is closed. */
  ghost predicate Brings(w: World, a: Action, box: int, uid: int)
    requires Possible(w, a) && WorldOk(w)
  {
    && a.Put? && w.picks[a.op].box == box && uid == w.boxes[box].maxUid + 1
    && (w.picks[a.op].choice.Some? ==> w.picks[a.op].choice.value in w.recent)
  }

  lemma MarkStays(w: World, a: Action, box: int, uid: int, place: Place) returns (place': Place)
    requires WorldOk(w) && Possible(w, a) && RecentAt(w, box, uid, place) && !Loses(w, a, box, uid)
    ensures RecentAt(Do(w, a), box, uid, place')
  {
    place' := place;
    match a
    case Claim(sid) =>
      if place.Stored? && w.selections[sid].box == box {
        place' := InSession(sid);
      }
    case _ =>
  }

  /** Whatever the step: a message is recent somewhere after it exactly if it was before and the step does
      not take the mark away, or the step has put it. */
  lemma StepMarksExactly(w: World, a: Action, box: int, uid: int)
    requires WorldOk(w) && Possible(w, a)
    ensures IsRecent(Do(w, a), box, uid) <==>
            (IsRecent(w, box, uid) && !Loses(w, a, box, uid)) || Brings(w, a, box, uid)
  {
    if place :| RecentAt(w, box, uid, place) {
      if !Loses(w, a, box, uid) {
        var place' := MarkStays(w, a, box, uid, place);
      }
    }
    if Brings(w, a, box, uid) {
      assert RecentAt(Do(w, a), box, uid, PutPlace(w, a.op));
    }
    if place :| RecentAt(Do(w, a), box, uid, place) {
      WhereFrom(w, a, box, uid, place);
      LostIsGone(w, a, box, uid, place);
    }
  }

  lemma LostIsGone(w: World, a: Action, box: int, uid: int, place: Place)
    requires WorldOk(w) && Possible(w, a) && RecentAt(Do(w, a), box, uid, place)
    ensures !Loses(w, a, box, uid)
    ensures a.Put? && !RecentAt(w, box, uid, place) ==> Brings(w, a, box, uid)
  {
    WhereFrom(w, a, box, uid, place);
  }

  /** A step of the run takes the mark away. */
  ghost predicate LostIn(w: World, run: seq<Action>, box: int, uid: int)
    requires WorldOk(w) && PossibleRun(w, run)
    decreases |run|
  {
    run != [] && (Loses(w, run[0], box, uid) || (StepOk(w, run[0]); LostIn(Do(w, run[0]), run[1..], box, uid)))
  }

  /** Over every interleaving: a message that is recent stays recent, in exactly one place, exactly if no
      step takes the mark away. */
  lemma {:induction false} RunMarksExactly(w: World, run: seq<Action>, box: int, uid: int)
    requires WorldOk(w) && PossibleRun(w, run) && IsRecent(w, box, uid) && box in w.boxes
    requires uid <= w.boxes[box].maxUid
    ensures IsRecent(DoAll(w, run), box, uid) <==> !LostIn(w, run, box, uid)
    decreases |run|
  {
    if run != [] {
      var next := Do(w, run[0]);
      StepOk(w, run[0]);
      StepMarksExactly(w, run[0], box, uid);
      BoxesStay(w, run[0]);
      if IsRecent(next, box, uid) {
        RunMarksExactly(next, run[1..], box, uid);
      } else {
        NeverAgain(next, run[1..], box, uid);
      }
    }
  }

  /** A mark that is gone does not come back. */
  lemma {:induction false} NeverAgain(w: World, run: seq<Action>, box: int, uid: int)
    requires WorldOk(w) && PossibleRun(w, run) && !IsRecent(w, box, uid) && box in w.boxes
    requires uid <= w.boxes[box].maxUid
    ensures !IsRecent(DoAll(w, run), box, uid)
    decreases |run|
  {
    if run != [] {
      StepOk(w, run[0]);
      StepMarksExactly(w, run[0], box, uid);
      BoxesStay(w, run[0]);
      NeverAgain(Do(w, run[0]), run[1..], box, uid);
    }
  }

  /** A fresh server meets the condition: empty mailboxes and no session. */
  lemma FreshWorldOk(w: World)
    requires w.selections == map[] && w.recent == map[] && w.picks == map[]
    requires forall box :: box in w.boxes ==> w.boxes[box] == Mbox(100, map[], [])
    ensures WorldOk(w)
  {
  }
}
