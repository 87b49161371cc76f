/** The modification sequences of a mailbox: a log of changes compacted so that each message
    is listed only under its last change. */
module ChangeLog {
  import opened Collections

  datatype Kind = Updated | Expunged

  /** One call: the UIDs in the order given. */
  datatype Batch = Batch(kind: Kind, uids: seq<int>)

  type History = seq<Batch>

  /** The number of the last batch that mentions `uid`, from 1, or 0. */
  ghost function LastChange(h: History, uid: int): (r: nat)
    ensures r <= |h|
    ensures r > 0 ==> uid in h[r - 1].uids
    ensures forall k :: r <= k < |h| ==> uid !in h[k].uids
  {
    if h == [] then 0
    else if uid in h[|h| - 1].uids then |h|
    else LastChange(h[..|h| - 1], uid)
  }

  ghost function Count(uids: seq<int>, uid: int): nat {
    multiset(uids)[uid]
  }

  /** Batch `k` is the last to mention `uid`, is of the given kind, and mentions it once. */
  ghost predicate Current(h: History, kind: Kind, k: int, uid: int) {
    && 1 <= k <= |h| && LastChange(h, uid) == k
    && h[k - 1].kind == kind && Count(h[k - 1].uids, uid) == 1
  }

  /** Halfway through a batch: what an entry holds after the first `done` UIDs of `batch`. */
  ghost predicate Midway(h: History, batch: Batch, done: nat, kind: Kind, k: int, uid: int)
    requires done <= |batch.uids|
  {
    if k == |h| + 1 then kind == batch.kind && uid in batch.uids && Count(batch.uids[..done], uid) <= 1
    else Current(h, kind, k, uid) && uid !in batch.uids[..done]
  }

  type Entries = map<int, set<int>>

  ghost predicate WellKeyed(data: Entries, h: History, kind: Kind) {
    forall k :: k in data ==> 1 <= k <= |h| && h[k - 1].kind == kind && (data[k] == {} ==> h[k - 1].uids == [])
  }

  ghost predicate Has(data: Entries, k: int, uid: int) {
    k in data && uid in data[k]
  }

  /** What a map of entries holds between calls. */
  ghost predicate Compacted(data: Entries, h: History, kind: Kind) {
    && WellKeyed(data, h, kind)
    && (forall k, u :: Has(data, k, u) <==> Current(h, kind, k, u))
  }

  ghost predicate CompactedMidway(data: Entries, h: History, batch: Batch, done: nat, kind: Kind)
    requires done <= |batch.uids|
  {
    && WellKeyed(data, h + [batch], kind)
    && (forall k, u :: Has(data, k, u) <==> Midway(h, batch, done, kind, k, u))
  }

  /** Takes one UID out of an entry, and the entry out once it is empty. */
  function Drop(data: Entries, k: int, uid: int): Entries {
    if k !in data then data
    else if data[k] - {uid} == {} then data - {k}
    else data[k := data[k] - {uid}]
  }

  function Without(s: seq<int>, x: int): seq<int> {
    if s == [] then [] else if s[0] == x then s[1..] else [s[0]] + Without(s[1..], x)
  }

  lemma WithoutIs(s: seq<int>, items: set<int>, x: int)
    requires Ascending(s) && Lists(s, items) && x in items
    ensures Ascending(Without(s, x)) && Lists(Without(s, x), items - {x})
  {
    WithoutAscends(s, x);
    forall y ensures y in Without(s, x) <==> y in items - {x} {
      WithoutHas(s, x, y);
    }
  }

  lemma {:induction false} WithoutHas(s: seq<int>, x: int, y: int)
    requires Ascending(s)
    ensures y in Without(s, x) <==> y in s && y != x
  {
    if s != [] {
      assert y in s <==> y == s[0] || y in s[1..];
      WithoutHas(s[1..], x, y);
      assert s[0] == x ==> x !in s[1..];
    }
  }

  lemma {:induction false} WithoutAscends(s: seq<int>, x: int)
    requires Ascending(s)
    ensures Ascending(Without(s, x))
  {
    if s != [] && s[0] != x {
      WithoutAscends(s[1..], x);
      var rest := Without(s[1..], x);
      forall i | 0 <= i < |rest| ensures s[0] < rest[i] {
        WithoutHas(s[1..], x, rest[i]);
      }
    }
  }

  lemma DropKeys(data: Entries, k: int, uid: int)
    ensures Drop(data, k, uid).Keys == if k in data && data[k] - {uid} == {} then data.Keys - {k} else data.Keys
  {
  }

  /** The order list follows when an entry is dropped. */
  lemma DropOrder(order: seq<int>, data: Entries, others: Entries, k: int)
    requires Ascending(order) && Lists(order, data.Keys + others.Keys) && k in data && k !in others
    ensures Ascending(Without(order, k)) && Lists(Without(order, k), data.Keys - {k} + others.Keys)
  {
    WithoutIs(order, data.Keys + others.Keys, k);
    assert data.Keys + others.Keys - {k} == data.Keys - {k} + others.Keys;
  }

  lemma NonemptyElements(s: seq<int>)
    ensures s != [] ==> Elements(s) != {}
  {
    if s != [] {
      assert s[0] in Elements(s);
    }
  }

  lemma EntriesStart(data: Entries, h: History, batch: Batch)
    requires Compacted(data, h, batch.kind)
    ensures CompactedMidway(data[|h| + 1 := Elements(batch.uids)], h, batch, 0, batch.kind)
  {
    NonemptyElements(batch.uids);
    var data' := data[|h| + 1 := Elements(batch.uids)];
    forall k, u ensures Has(data', k, u) <==> Midway(h, batch, 0, batch.kind, k, u) {
      assert k != |h| + 1 ==> (Has(data', k, u) <==> Has(data, k, u));
    }
  }

  lemma OtherEntriesStart(data: Entries, h: History, batch: Batch, kind: Kind)
    requires Compacted(data, h, kind) && kind != batch.kind
    ensures CompactedMidway(data, h, batch, 0, kind)
  {
    assert !Has(data, |h| + 1, 0);
    forall k, u ensures Has(data, k, u) <==> Midway(h, batch, 0, kind, k, u) {
    }
  }

  lemma DropHas(data: Entries, k0: int, u0: int)
    ensures var data' := Drop(data, k0, u0);
            && (forall k, u :: Has(data', k, u) <==> Has(data, k, u) && !(k == k0 && u == u0))
            && (forall k :: k in data' ==> k in data && (data'[k] == {} ==> data[k] == {} || k0 !in data))
  {
    var data' := Drop(data, k0, u0);
    forall k, u ensures Has(data', k, u) <==> Has(data, k, u) && !(k == k0 && u == u0) {
      if k0 in data {
        assert u in data[k0] - {u0} <==> u in data[k0] && u != u0;
      }
    }
  }

  /** Where the entry of the next UID is to be found. */
  ghost function Previous(h: History, batch: Batch, done: nat): int
    requires done < |batch.uids|
  {
    if batch.uids[done] in batch.uids[..done] then |h| + 1 else LastChange(h, batch.uids[done])
  }

  /** The step for the next UID: it leaves the entry it was last listed under. */
  lemma DropKeeps(data: Entries, h: History, batch: Batch, done: nat, kind: Kind)
    requires done < |batch.uids| && CompactedMidway(data, h, batch, done, kind)
    ensures CompactedMidway(Drop(data, Previous(h, batch, done), batch.uids[done]), h, batch, done + 1, kind)
  {
    var prev, uid, next := Previous(h, batch, done), batch.uids[done], done + 1;
    var data' := Drop(data, prev, uid);
    DropHas(data, prev, uid);
    assert WellKeyed(data', h + [batch], kind);
    forall k, u ensures Has(data', k, u) <==> Midway(h, batch, next, kind, k, u) {
      MidwayNext(h, batch, done, kind, k, u);
    }
  }

  lemma MidwayNext(h: History, batch: Batch, done: nat, kind: Kind, k: int, u: int)
    requires done < |batch.uids|
    ensures Midway(h, batch, done + 1, kind, k, u) <==>
            Midway(h, batch, done, kind, k, u) && !(k == Previous(h, batch, done) && u == batch.uids[done])
  {
    assert batch.uids[..done + 1] == batch.uids[..done] + [batch.uids[done]];
  }

  lemma EntriesEnd(data: Entries, h: History, batch: Batch, kind: Kind)
    requires CompactedMidway(data, h, batch, |batch.uids|, kind)
    ensures Compacted(data, h + [batch], kind)
  {
    var h', done := h + [batch], |batch.uids|;
    assert batch.uids[..done] == batch.uids;
    forall k, u ensures Has(data, k, u) <==> Current(h', kind, k, u) {
      assert h'[..|h|] == h;
      assert Has(data, k, u) <==> Midway(h, batch, done, kind, k, u);
    }
  }

  ghost function Started(data: Entries, h: History, batch: Batch, kind: Kind): Entries {
    if kind == batch.kind then data[|h| + 1 := Elements(batch.uids)] else data
  }

  lemma BatchStarts(
    uids: map<int, int>, updates: Entries, expunges: Entries, order: seq<int>, h: History, batch: Batch)
    requires KnowsLast(uids, h) && Compacted(updates, h, Updated) && Compacted(expunges, h, Expunged)
    requires Ascending(order) && Lists(order, updates.Keys + expunges.Keys)
    ensures KnowsLastMidway(uids, h, batch, 0)
    ensures CompactedMidway(Started(updates, h, batch, Updated), h, batch, 0, Updated)
    ensures CompactedMidway(Started(expunges, h, batch, Expunged), h, batch, 0, Expunged)
    ensures Ascending(order + [|h| + 1])
    ensures Lists(order + [|h| + 1],
                  Started(updates, h, batch, Updated).Keys + Started(expunges, h, batch, Expunged).Keys)
  {
    OrderGrows(order, updates, expunges, h, Elements(batch.uids));
    EntriesStarted(updates, h, batch, Updated);
    EntriesStarted(expunges, h, batch, Expunged);
  }

  lemma EntriesStarted(data: Entries, h: History, batch: Batch, kind: Kind)
    requires Compacted(data, h, kind)
    ensures CompactedMidway(Started(data, h, batch, kind), h, batch, 0, kind)
  {
    if kind == batch.kind {
      EntriesStart(data, h, batch);
    } else {
      OtherEntriesStart(data, h, batch, kind);
    }
  }

  class ModSequenceMapping {
    var highest: nat
    var uids: map<int, int>
    var updates: Entries
    var expunges: Entries
    var modSeqsOrder: seq<int>
    ghost var history: History

    /** `_uids` knows the last batch of every UID ever mentioned. */
    ghost predicate Valid()
      reads this
    {
      && highest == |history|
      && KnowsLast(uids, history)
      && Compacted(updates, history, Updated)
      && Compacted(expunges, history, Expunged)
      && Ascending(modSeqsOrder)
      && Lists(modSeqsOrder, updates.Keys + expunges.Keys)
    }

    constructor ()
      ensures Valid() && history == []
    {
      highest, uids, updates, expunges, modSeqsOrder, history := 0, map[], map[], map[], [], [];
    }

    method RemovePrev(uid: int, prevModSeq: int, kind: Kind)
      requires Ascending(modSeqsOrder) && Lists(modSeqsOrder, updates.Keys + expunges.Keys)
      requires forall k :: k in updates ==> k !in expunges
      modifies this`updates, this`expunges, this`modSeqsOrder
      ensures Ascending(modSeqsOrder) && Lists(modSeqsOrder, updates.Keys + expunges.Keys)
      ensures updates == if kind.Updated? then Drop(old(updates), prevModSeq, uid) else old(updates)
      ensures expunges == if kind.Expunged? then Drop(old(expunges), prevModSeq, uid) else old(expunges)
    {
      var data, others := updates, expunges;
      if kind.Expunged? {
        data, others := expunges, updates;
      }
      assert data.Keys + others.Keys == updates.Keys + expunges.Keys;
      var dropped := DropFrom(data, others, prevModSeq, uid);
      if kind.Updated? {
        updates := dropped;
      } else {
        expunges := dropped;
      }
    }

    method DropFrom(data: Entries, ghost others: Entries, prevModSeq: int, uid: int) returns (dropped: Entries)
      requires Ascending(modSeqsOrder) && Lists(modSeqsOrder, data.Keys + others.Keys)
      requires prevModSeq in data ==> prevModSeq !in others
      modifies this`modSeqsOrder
      ensures dropped == Drop(data, prevModSeq, uid)
      ensures Ascending(modSeqsOrder) && Lists(modSeqsOrder, dropped.Keys + others.Keys)
    {
      dropped := data;
      DropKeys(data, prevModSeq, uid);
      if prevModSeq in data {
        var uidSet := data[prevModSeq] - {uid};
        if uidSet == {} {
          DropOrder(modSeqsOrder, data, others, prevModSeq);
          dropped := data - {prevModSeq};
          modSeqsOrder := Without(modSeqsOrder, prevModSeq);
        } else {
          dropped := data[prevModSeq := uidSet];
        }
      }
    }

    method Set(changed: seq<int>, kind: Kind)
      requires Valid()
      modifies this
      ensures Valid()
      ensures history == old(history) + [Batch(kind, changed)]
    {
      ghost var h, batch := history, Batch(kind, changed);
      StartBatch(kind, changed);
      for i := 0 to |changed|
        invariant history == h && highest == |h| + 1
        invariant InBatch(h, batch, i)
      {
        Relist(h, batch, i, changed[i]);
      }
      EntriesEnd(updates, h, batch, Updated);
      EntriesEnd(expunges, h, batch, Expunged);
      KnowsEnd(uids, h, batch);
      history := history + [batch];
    }

    /** The state of the loop in `Set` after `done` UIDs. */
    ghost predicate InBatch(h: History, batch: Batch, done: nat)
      requires done <= |batch.uids|
      reads this
    {
      && KnowsLastMidway(uids, h, batch, done)
      && CompactedMidway(updates, h, batch, done, Updated)
      && CompactedMidway(expunges, h, batch, done, Expunged)
      && Ascending(modSeqsOrder)
      && Lists(modSeqsOrder, updates.Keys + expunges.Keys)
    }

    method StartBatch(kind: Kind, changed: seq<int>)
      requires Valid()
      modifies this`highest, this`modSeqsOrder, this`updates, this`expunges
      ensures highest == |history| + 1
      ensures InBatch(history, Batch(kind, changed), 0)
    {
      BatchStarts(uids, updates, expunges, modSeqsOrder, history, Batch(kind, changed));
      highest := highest + 1;
      modSeqsOrder := modSeqsOrder + [highest];
      if kind.Updated? {
        updates := updates[highest := Elements(changed)];
      } else {
        expunges := expunges[highest := Elements(changed)];
      }
    }

    /** One round of the loop in `Set`. */
    method Relist(ghost h: History, ghost batch: Batch, ghost done: nat, uid: int)
      requires done < |batch.uids| && uid == batch.uids[done]
      requires highest == |h| + 1 && InBatch(h, batch, done)
      modifies this`uids, this`modSeqsOrder, this`updates, this`expunges
      ensures InBatch(h, batch, done + 1)
    {
      DropKeeps(updates, h, batch, done, Updated);
      DropKeeps(expunges, h, batch, done, Expunged);
      KnowsNext(uids, h, batch, done);
      assert forall k :: k in updates ==> k !in expunges;
      if uid in uids {
        var prevModSeq := uids[uid];
        uids := uids[uid := highest];
        RemovePrev(uid, prevModSeq, Updated);
        RemovePrev(uid, prevModSeq, Expunged);
      } else {
        uids := uids[uid := highest];
      }
    }

    method Update(changed: seq<int>)
      requires Valid()
      modifies this
      ensures Valid() && history == old(history) + [Batch(Updated, changed)]
    {
      Set(changed, Updated);
    }

    method Expunge(changed: seq<int>)
      requires Valid()
      modifies this
      ensures Valid() && history == old(history) + [Batch(Expunged, changed)]
    {
      Set(changed, Expunged);
    }

    method FindUpdated(modSeq: int) returns (updated: set<int>, expunged: set<int>)
      requires Valid()
      ensures forall u :: u in updated <==>
                LastChange(history, u) >= modSeq && Current(history, Updated, LastChange(history, u), u)
      ensures forall u :: u in expunged <==>
                LastChange(history, u) >= modSeq && Current(history, Expunged, LastChange(history, u), u)
      ensures updated !! expunged
    {
      var idx := BisectLeft(modSeqsOrder, modSeq);
      updated, expunged := Collect(updates, expunges, modSeqsOrder[idx..]);
      CollectedAll(updates, expunges, modSeqsOrder, idx, modSeq, history);
    }
  }

  /** The loop of `FindUpdated` over the numbers from the given one on. */
  method Collect(updates: Entries, expunges: Entries, numbers: seq<int>) returns (updated: set<int>, expunged: set<int>)
    ensures updated == Collected(updates, numbers)
    ensures expunged == Collected(expunges, numbers)
  {
    updated, expunged := {}, {};
    for i := 0 to |numbers|
      invariant updated == Collected(updates, numbers[..i])
      invariant expunged == Collected(expunges, numbers[..i])
    {
      var newer := numbers[i];
      assert numbers[..i + 1] == numbers[..i] + [newer];
      if newer in updates {
        updated := updated + updates[newer];
      }
      if newer in expunges {
        expunged := expunged + expunges[newer];
      }
    }
    assert numbers[..|numbers|] == numbers;
  }

  /** The union of the entries with the given numbers. */
  ghost function Collected(data: Entries, numbers: seq<int>): set<int> {
    if numbers == [] then {}
    else
      var last := numbers[|numbers| - 1];
      Collected(data, numbers[..|numbers| - 1]) + if last in data then data[last] else {}
  }

  lemma {:induction false} CollectedHas(data: Entries, numbers: seq<int>, u: int) returns (k: int)
    requires u in Collected(data, numbers)
    ensures k in numbers && Has(data, k, u)
  {
    var last := numbers[|numbers| - 1];
    if last in data && u in data[last] {
      k := last;
    } else {
      k := CollectedHas(data, numbers[..|numbers| - 1], u);
    }
  }

  lemma {:induction false} CollectedGets(data: Entries, numbers: seq<int>, k: int, u: int)
    requires k in numbers && Has(data, k, u)
    ensures u in Collected(data, numbers)
  {
    if k != numbers[|numbers| - 1] {
      CollectedGets(data, numbers[..|numbers| - 1], k, u);
    }
  }

  /** The last change of `uid` came at or after `modSeq` and was of the given kind, in a batch
      that names it once. */
  ghost predicate ChangedSince(h: History, modSeq: int, kind: Kind, uid: int) {
    LastChange(h, uid) >= modSeq && Current(h, kind, LastChange(h, uid), uid)
  }

  lemma CollectedSince(data: Entries, order: seq<int>, idx: nat, modSeq: int, h: History, kind: Kind, u: int)
    requires Compacted(data, h, kind) && Ascending(order) && idx <= |order|
    requires forall k :: k in data ==> k in order
    requires forall i :: 0 <= i < idx ==> order[i] < modSeq
    requires forall i :: idx <= i < |order| ==> modSeq <= order[i]
    ensures u in Collected(data, order[idx..]) <==> ChangedSince(h, modSeq, kind, u)
  {
    var last := LastChange(h, u);
    if ChangedSince(h, modSeq, kind, u) {
      assert Has(data, last, u);
      assert order[IndexOf(order, last) - idx + idx] == last;
      assert last == order[idx..][IndexOf(order, last) - idx];
      CollectedGets(data, order[idx..], last, u);
    }
    if u in Collected(data, order[idx..]) {
      var k := CollectedHas(data, order[idx..], u);
      assert Current(h, kind, k, u);
    }
  }

  lemma CollectedAll(updates: Entries, expunges: Entries, order: seq<int>, idx: nat, modSeq: int, h: History)
    requires Compacted(updates, h, Updated) && Compacted(expunges, h, Expunged)
    requires Ascending(order) && Lists(order, updates.Keys + expunges.Keys)
    requires idx == BisectLeft(order, modSeq)
    ensures forall u :: u in Collected(updates, order[idx..]) <==> ChangedSince(h, modSeq, Updated, u)
    ensures forall u :: u in Collected(expunges, order[idx..]) <==> ChangedSince(h, modSeq, Expunged, u)
    ensures Collected(updates, order[idx..]) !! Collected(expunges, order[idx..])
  {
    forall u ensures u in Collected(updates, order[idx..]) <==> ChangedSince(h, modSeq, Updated, u) {
      CollectedSince(updates, order, idx, modSeq, h, Updated, u);
    }
    forall u ensures u in Collected(expunges, order[idx..]) <==> ChangedSince(h, modSeq, Expunged, u) {
      CollectedSince(expunges, order, idx, modSeq, h, Expunged, u);
    }
    forall u ensures !(u in Collected(updates, order[idx..]) && u in Collected(expunges, order[idx..])) {
      assert !(ChangedSince(h, modSeq, Updated, u) && ChangedSince(h, modSeq, Expunged, u));
    }
  }

  lemma OrderGrows(order: seq<int>, updates: Entries, expunges: Entries, h: History, listed: set<int>)
    requires WellKeyed(updates, h, Updated) && WellKeyed(expunges, h, Expunged)
    requires Ascending(order) && Lists(order, updates.Keys + expunges.Keys)
    ensures Ascending(order + [|h| + 1])
    ensures Lists(order + [|h| + 1], updates[|h| + 1 := listed].Keys + expunges.Keys)
    ensures Lists(order + [|h| + 1], updates.Keys + expunges[|h| + 1 := listed].Keys)
  {
    forall i | 0 <= i < |order| ensures order[i] <= |h| {
      assert order[i] in updates.Keys + expunges.Keys;
    }
  }

  lemma KnowsNext(uids: map<int, int>, h: History, batch: Batch, done: nat)
    requires done < |batch.uids| && KnowsLastMidway(uids, h, batch, done)
    ensures var uid := batch.uids[done];
            && (uid in uids ==> uids[uid] == Previous(h, batch, done))
            && (uid !in uids ==> Previous(h, batch, done) == 0)
            && KnowsLastMidway(uids[uid := |h| + 1], h, batch, done + 1)
  {
    assert batch.uids[..done + 1] == batch.uids[..done] + [batch.uids[done]];
  }

  lemma KnowsEnd(uids: map<int, int>, h: History, batch: Batch)
    requires KnowsLastMidway(uids, h, batch, |batch.uids|)
    ensures KnowsLast(uids, h + [batch])
  {
    assert batch.uids[..|batch.uids|] == batch.uids;
    assert (h + [batch])[..|h|] == h;
  }

  ghost predicate KnowsLast(uids: map<int, int>, h: History) {
    forall u :: (u in uids <==> LastChange(h, u) > 0) && (u in uids ==> uids[u] == LastChange(h, u))
  }

  ghost predicate KnowsLastMidway(uids: map<int, int>, h: History, batch: Batch, done: nat)
    requires done <= |batch.uids|
  {
    forall u ::
      var last := if u in batch.uids[..done] then |h| + 1 else LastChange(h, u);
      (u in uids <==> last > 0) && (u in uids ==> uids[u] == last)
  }

  lemma {:induction false} ImageSize(image: set<int>, m: map<int, int>)
    requires forall k :: k in image ==> exists u :: u in m && m[u] == k
    ensures |image| <= |m.Keys|
  {
    if image != {} {
      HasElement(image);
      var k :| k in image;
      var u :| u in m && m[u] == k;
      forall k' | k' in image - {k} ensures exists v :: v in m - {u} && (m - {u})[v] == k' {
        var u' :| u' in m && m[u'] == k';
        assert u' in m - {u} && (m - {u})[u'] == k';
      }
      ImageSize(image - {k}, m - {u});
      assert (m - {u}).Keys == m.Keys - {u};
    }
  }

  /** Compaction works: the log never has more non-empty entries than there are known UIDs. */
  lemma EntriesBounded(log: ModSequenceMapping, filled: set<int>)
    requires log.Valid()
    requires forall k :: k in filled ==>
      (k in log.updates && log.updates[k] != {}) || (k in log.expunges && log.expunges[k] != {})
    ensures |filled| <= |log.uids.Keys|
  {
    forall k | k in filled ensures exists u :: u in log.uids && log.uids[u] == k {
      if k in log.updates && log.updates[k] != {} {
        HasElement(log.updates[k]);
        var u :| u in log.updates[k];
        assert Has(log.updates, k, u) && log.uids[u] == k;
      } else {
        HasElement(log.expunges[k]);
        var u :| u in log.expunges[k];
        assert Has(log.expunges, k, u) && log.uids[u] == k;
      }
    }
    ImageSize(filled, log.uids);
  }
}
