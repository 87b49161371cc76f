/** The answer to a whole command: its own FETCH responses, and after them the responses of the fork. */
module Answers {
  import opened Flags
  import Selected
  import SessionRuns
  import opened ResponseMerge
  import opened MergeExact

  const FLAGS_ATTRIBUTE: int := 1
  const UID_ATTRIBUTE: int := 2

  function Number(n: int): nat {
    if n < 0 then 0 else n
  }

  /** A response of a fork as it is merged; `code` stands for the printed flags. */
  function OnWire(r: Selected.Response, code: set<Flag> -> int): Untagged {
    match r
    case Bye => Other(0)
    case Expunge(n) => Expunge(Number(n))
    case Exists(n) => Other(n)
    case RecentCount(n) => Other(n)
    case Fetch(n, flags, uid) =>
      var data := map[FLAGS_ATTRIBUTE := code(flags)];
      Fetch(Number(n), if uid.Some? then data[UID_ATTRIBUTE := uid.value] else data)
  }

  function AllOnWire(rs: seq<Selected.Response>, code: set<Flag> -> int): (list: seq<Untagged>)
    ensures |list| == |rs| && forall i :: 0 <= i < |rs| ==> list[i] == OnWire(rs[i], code)
  {
    seq(|rs|, i requires 0 <= i < |rs| => OnWire(rs[i], code))
  }

  ghost function Answer(command: seq<Untagged>, s: Selected.Session, withUid: bool, code: set<Flag> -> int)
    : seq<Untagged>
  {
    command + AllOnWire(Selected.Responses(s, withUid), code)
  }

  /** No command sends an EXPUNGE of its own, whatever else it sends. */
  ghost predicate NoExpunges(list: seq<Untagged>) {
    forall i :: 0 <= i < |list| ==> !list[i].Expunge?
  }

  /** A command that hides expunges may have its answer merged, whatever it sent itself. */
  lemma HiddenAnswerMerges(command: seq<Untagged>, s: Selected.Session, withUid: bool, code: set<Flag> -> int,
                           initial: nat -> Attributes, number: nat)
    requires s.hideExpunged && NoExpunges(command)
    ensures Held(initial, MergeAll([], Answer(command, s, withUid, code)), number) ==
            Held(initial, Answer(command, s, withUid, code), number)
  {
    var answer := Answer(command, s, withUid, code);
    SessionRuns.HiddenSendsNone(s, withUid);
    forall k | 0 <= k < |answer| ensures !answer[k].Expunge? {
      assert k >= |command| ==> answer[k] == OnWire(Selected.Responses(s, withUid)[k - |command|], code);
    }
    WithoutExpunge(initial, answer, number);
  }

  predicate Apart(own: Untagged, gone: Untagged, again: Untagged) {
    gone.Expunge? && again.Fetch? && IsFetch(own, again.number) ==> gone.number > again.number
  }

  /** Whenever a number is fetched by the command and again by the fork, only higher numbers are
      expunged. */
  ghost predicate FetchedBelow(command: seq<Untagged>, fork: seq<Untagged>) {
    forall i, k, j :: 0 <= i < |command| && 0 <= k < |fork| && 0 <= j < |fork| ==>
      Apart(command[i], fork[k], fork[j])
  }

  lemma ExpungesFirst(command: seq<Untagged>, gone: seq<Untagged>, others: seq<Untagged>)
    requires NoExpunges(command)
    requires forall i :: 0 <= i < |gone| ==> gone[i].Expunge?
    requires forall i :: 0 <= i < |others| ==> !others[i].Expunge?
    ensures Safe(command + (gone + others)) <==> FetchedBelow(command, gone + others)
  {
    var fork := gone + others;
    var list := command + fork;
    if FetchedBelow(command, fork) {
      forall i, k, j | 0 <= i < k < j < |list| && list[i].Fetch? && IsFetch(list[j], list[i].number) && list[k].Expunge?
        ensures list[k].number > list[i].number
      {
        assert list[k] == fork[k - |command|] && list[j] == fork[j - |command|] && list[i] == command[i];
        assert Apart(command[i], fork[k - |command|], fork[j - |command|]);
      }
    }
    if Safe(list) {
      forall i, k, j | 0 <= i < |command| && 0 <= k < |fork| && 0 <= j < |fork|
        ensures Apart(command[i], fork[k], fork[j])
      {
        assert fork[k].Expunge? && fork[j].Fetch? ==> k < |gone| <= j;
        assert list[i] == command[i] && list[|command| + k] == fork[k] && list[|command| + j] == fork[j];
      }
    }
  }

  /** A fork sends its EXPUNGE responses first. */
  lemma ForkSplits(s: Selected.Session, withUid: bool)
    returns (gone: seq<Selected.Response>, others: seq<Selected.Response>)
    ensures Selected.Responses(s, withUid) == gone + others
    ensures forall i :: 0 <= i < |gone| ==> gone[i].Expunge?
    ensures forall i :: 0 <= i < |others| ==> !others[i].Expunge?
  {
    if s.prev.Some? && !s.isDeleted {
      SessionRuns.ForkAnnounces(s, withUid);
      gone, others := Selected.Expunges(s.prev.value, SessionRuns.Announced(s)), SessionRuns.OtherResponses(s, withUid);
    } else {
      gone, others := [], Selected.Responses(s, withUid);
    }
  }

  /** The answer to a command may be merged, whatever it reports for its numbers, exactly if no number
      that the command fetched and the fork fetches again is at or above one that the fork expunges. */
  lemma AnswerExact(command: seq<Untagged>, s: Selected.Session, withUid: bool, code: set<Flag> -> int)
    requires NoExpunges(command)
    ensures FetchedBelow(command, AllOnWire(Selected.Responses(s, withUid), code)) <==>
            forall other :: SameNumbers(Answer(command, s, withUid, code), other) ==> MergesWell(other)
  {
    var gone, others := ForkSplits(s, withUid);
    ForkSafe(command, Selected.Responses(s, withUid), gone, others, code);
    MergingExact(Answer(command, s, withUid, code));
  }

  lemma ForkSafe(command: seq<Untagged>, fork: seq<Selected.Response>, gone: seq<Selected.Response>,
                 others: seq<Selected.Response>, code: set<Flag> -> int)
    requires NoExpunges(command) && fork == gone + others
    requires forall i :: 0 <= i < |gone| ==> gone[i].Expunge?
    requires forall i :: 0 <= i < |others| ==> !others[i].Expunge?
    ensures Safe(command + AllOnWire(fork, code)) <==> FetchedBelow(command, AllOnWire(fork, code))
    ensures ExpungesTogether(command + AllOnWire(fork, code))
  {
    var first, rest := AllOnWire(gone, code), AllOnWire(others, code);
    assert AllOnWire(fork, code) == first + rest;
    ExpungesFirst(command, first, rest);
    Together(command, first, rest);
  }

  lemma Together(command: seq<Untagged>, gone: seq<Untagged>, others: seq<Untagged>)
    requires NoExpunges(command)
    requires forall i :: 0 <= i < |gone| ==> gone[i].Expunge?
    requires forall i :: 0 <= i < |others| ==> !others[i].Expunge?
    ensures ExpungesTogether(command + (gone + others))
  {
    var list := command + (gone + others);
    forall i, j, k | 0 <= i < j < k < |list| && list[i].Expunge? && list[j].Fetch?
      ensures !list[k].Expunge?
    {
      assert i >= |command|;
      assert j >= |command| + |gone|;
      assert list[k] == others[k - |command| - |gone|];
    }
  }
}
