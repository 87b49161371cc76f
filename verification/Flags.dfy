/** Message flags: the STORE operations on them, the filter for flags a mailbox knows,
    and the flags that live only as long as one client has the mailbox selected. */
module Flags {
  import opened Collections

  datatype Flag = Recent | Wildcard | Seen | Answered | Flagged | Deleted | Draft | Keyword(name: string)

  datatype FlagOp = Replace | Add | Delete {
    function Apply(flagSet: set<Flag>, operand: set<Flag>): set<Flag> {
      match this
      case Add => flagSet + operand
      case Delete => flagSet - operand
      case Replace => operand
    }
  }

  /** The flags of `other` that a mailbox defining `defined` accepts; `\*` accepts all. */
  function Intersect(defined: set<Flag>, other: set<Flag>): set<Flag> {
    if Wildcard in defined then other else defined * other
  }

  /** The session flags of one message, `\Recent` included. */
  function SessionFlagsOf(flags: map<int, set<Flag>>, recent: set<int>, uid: int): set<Flag> {
    var mark: set<Flag> := if uid in recent then {Recent} else {};
    if uid in flags then flags[uid] + mark else mark
  }

  class SessionFlags {
    const defined: set<Flag>
    var flags: map<int, set<Flag>>
    var recent: set<int>

    constructor (defined: set<Flag>)
      ensures this.defined == defined - {Recent}
      ensures flags == map[] && recent == {}
    {
      this.defined := defined - {Recent};
      flags, recent := map[], {};
    }

    function Get(uid: int): set<Flag>
      reads this
    {
      SessionFlagsOf(flags, recent, uid)
    }

    method Remove(uids: seq<int>)
      modifies this
      ensures recent == old(recent) - Elements(uids)
      ensures flags == old(flags) - Elements(uids)
    {
      for i := 0 to |uids|
        invariant recent == old(recent) - Elements(uids[..i])
        invariant flags == old(flags) - Elements(uids[..i])
      {
        assert uids[..i + 1] == uids[..i] + [uids[i]];
        ElementsConcat(uids[..i], [uids[i]]);
        recent := recent - {uids[i]};
        flags := flags - {uids[i]};
      }
      assert uids[..|uids|] == uids;
    }

    method Update(uid: int, flagSet: set<Flag>, op: FlagOp) returns (newFlags: set<Flag>)
      modifies this
      ensures recent == old(recent)
      ensures newFlags == op.Apply(if uid in old(flags) then old(flags)[uid] else {}, Intersect(defined, flagSet))
      ensures flags == if newFlags == {} then old(flags) - {uid} else old(flags)[uid := newFlags]
    {
      var origSet := if uid in flags then flags[uid] else {};
      newFlags := op.Apply(origSet, Intersect(defined, flagSet));
      if newFlags != {} {
        flags := flags[uid := newFlags];
      } else {
        flags := flags - {uid};
      }
    }

    method AddRecent(uid: int)
      modifies this
      ensures recent == old(recent) + {uid} && flags == old(flags)
    {
      recent := recent + {uid};
    }
  }
}
