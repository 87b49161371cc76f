/** Values shared by the other modules: optional values, strictly ascending lists of
    numbers, and the ascending listing of a finite set. */
module Collections {

  datatype Option<+T> = None | Some(value: T)

  datatype Result<+T, +E> = Success(value: T) | Failure(error: E)

  function Elements<T>(s: seq<T>): (r: set<T>)
  {
    set x | x in s
  }

  lemma ElementsConcat<T>(s: seq<T>, t: seq<T>)
    ensures Elements(s + t) == Elements(s) + Elements(t)
  {
    assert forall x :: x in s + t <==> x in s || x in t;
  }

  lemma ConcatAssoc<T>(a: seq<T>, b: seq<T>, c: seq<T>)
    ensures a + (b + c) == a + b + c
  {
  }

  ghost predicate NoDuplicates<T(!new)>(s: seq<T>) {
    forall i, j :: 0 <= i < j < |s| ==> s[i] != s[j]
  }

  ghost predicate Ascending(s: seq<int>) {
    forall i, j :: 0 <= i < j < |s| ==> s[i] < s[j]
  }

  lemma HasElement(items: set<int>)
    requires items != {}
    ensures exists x :: x in items
  {
    if forall x :: x !in items { assert false; }
  }

  function Maximum(items: set<int>): (top: int)
    requires items != {}
    ensures top in items && forall x :: x in items ==> x <= top
  {
    MaximumExists(items);
    var top :| top in items && forall x :: x in items ==> x <= top;
    top
  }

  lemma MaximumExists(items: set<int>)
    requires items != {}
    ensures exists top :: top in items && forall x :: x in items ==> x <= top
  {
    HasElement(items);
    var pick :| pick in items;
    if items != {pick} {
      MaximumExists(items - {pick});
      var best :| best in items - {pick} && forall x :: x in items - {pick} ==> x <= best;
      var top := if best < pick then pick else best;
      assert forall x :: x in items ==> x == pick || x in items - {pick};
      assert top in items && forall x :: x in items ==> x <= top;
    }
  }

  ghost predicate SameElements(s: seq<int>, t: seq<int>) {
    forall x :: x in s <==> x in t
  }

  ghost predicate Lists(s: seq<int>, items: set<int>) {
    && (forall i :: 0 <= i < |s| ==> s[i] in items)
    && (forall x :: x in items ==> x in s)
  }

  /** The ascending listing of a set, as Python's `sorted` gives it. */
  ghost function Sorted(items: set<int>): (r: seq<int>)
    ensures Ascending(r) && Lists(r, items)
  {
    SortedExists(items);
    var r :| Ascending(r) && Lists(r, items);
    r
  }

  lemma InSorted(items: set<int>, x: int)
    ensures x in Sorted(items) <==> x in items
  {
    if x in Sorted(items) {
      assert Sorted(items)[IndexOf(Sorted(items), x)] in items;
    }
  }

  lemma {:induction false} SortedExists(items: set<int>)
    ensures exists r :: Ascending(r) && Lists(r, items)
  {
    if items == {} {
      assert Ascending([]) && Lists([], items);
    } else {
      var top := Maximum(items);
      SortedExists(items - {top});
      var rest :| Ascending(rest) && Lists(rest, items - {top});
      assert forall i :: 0 <= i < |rest| ==> rest[i] in items - {top};
      assert Ascending(rest + [top]) && Lists(rest + [top], items);
    }
  }

  lemma {:induction false} AscendingSize(s: seq<int>, items: set<int>)
    requires Ascending(s) && Lists(s, items)
    ensures |s| == |items|
  {
    if s == [] {
      assert forall x :: x !in items;
    } else {
      var last := s[|s| - 1];
      assert s == s[..|s| - 1] + [last];
      assert last in items;
      AscendingSize(s[..|s| - 1], items - {last});
    }
  }

  lemma HeadIsIn(t: seq<int>)
    ensures t != [] ==> t[0] in t
  {
  }

  lemma FrontIs(s: seq<int>, x: int)
    requires Ascending(s) && s != []
    ensures x in s[..|s| - 1] <==> x in s && x != s[|s| - 1]
  {
    assert s == s[..|s| - 1] + [s[|s| - 1]];
  }

  lemma LastSame(s: seq<int>, t: seq<int>)
    requires Ascending(s) && Ascending(t) && SameElements(s, t) && s != [] && t != []
    ensures s[|s| - 1] == t[|t| - 1]
  {
    assert s[|s| - 1] in s && s[|s| - 1] in t;
    assert t[|t| - 1] in t && t[|t| - 1] in s;
  }

  /** A set has only one ascending listing. */
  lemma {:induction false} AscendingUnique(s: seq<int>, t: seq<int>)
    requires Ascending(s) && Ascending(t) && SameElements(s, t)
    ensures s == t
  {
    HeadIsIn(s);
    HeadIsIn(t);
    if s != [] {
      var s', t' := s[..|s| - 1], t[..|t| - 1];
      LastSame(s, t);
      forall x ensures x in s' <==> x in t' {
        FrontIs(s, x);
        FrontIs(t, x);
      }
      AscendingUnique(s', t');
      assert s == s' + [s[|s| - 1]] && t == t' + [t[|t| - 1]];
    }
  }

  lemma SortedIs(s: seq<int>, items: set<int>)
    requires Ascending(s) && Lists(s, items)
    ensures Sorted(items) == s
  {
    AscendingUnique(Sorted(items), s);
  }

  /** Where a new element goes into the ascending listing. */
  lemma SortedInsert(items: set<int>, x: int)
    requires x !in items
    ensures var s, k := Sorted(items), BisectRight(Sorted(items), x);
            Sorted(items + {x}) == s[..k] + [x] + s[k..]
  {
    var s, k := Sorted(items), BisectRight(Sorted(items), x);
    forall i | 0 <= i < k ensures s[i] < x { assert s[i] in items; }
    InsertAscending(s, k, x);
    InsertLists(s, k, x, items);
    SortedIs(s[..k] + [x] + s[k..], items + {x});
  }

  lemma InsertLists(s: seq<int>, k: nat, x: int, items: set<int>)
    requires k <= |s| && Lists(s, items)
    ensures Lists(s[..k] + [x] + s[k..], items + {x})
  {
    assert (s[..k] + [x] + s[k..])[k] == x;
    forall y | y in items ensures y in s[..k] + [x] + s[k..] {
      PlaceAfterInsert(s, k, x, y);
    }
  }

  lemma InsertAscending(s: seq<int>, k: nat, x: int)
    requires Ascending(s) && k <= |s|
    requires forall i :: 0 <= i < k ==> s[i] < x
    requires forall i :: k <= i < |s| ==> x < s[i]
    ensures Ascending(s[..k] + [x] + s[k..])
  {
  }

  lemma PlaceAfterInsert(s: seq<int>, k: nat, x: int, y: int)
    requires k <= |s| && y in s
    ensures y in s[..k] + [x] + s[k..]
  {
    assert s == s[..k] + s[k..];
    assert y in s[..k] || y in s[k..];
  }

  /** Everything in `high` lies above everything in `low`, so their listings concatenate. */
  lemma SortedAppend(low: set<int>, high: set<int>)
    requires forall x, y :: x in low && y in high ==> x < y
    ensures Sorted(low + high) == Sorted(low) + Sorted(high)
  {
    var l, h := Sorted(low), Sorted(high);
    forall i, j | 0 <= i < j < |l + h| ensures (l + h)[i] < (l + h)[j] {
      if i < |l| <= j {
        assert l[i] in low && h[j - |l|] in high;
      }
    }
    AscendingUnique(Sorted(low + high), l + h);
  }

  /** The place of `x` in `s`, counting from 0. */
  function IndexOf(s: seq<int>, x: int): (r: nat)
    requires x in s
    ensures r < |s| && s[r] == x
  {
    if s[0] == x then 0 else 1 + IndexOf(s[1..], x)
  }

  lemma IndexOfAscending(s: seq<int>, i: nat)
    requires Ascending(s) && i < |s|
    ensures IndexOf(s, s[i]) == i
  {
  }

  /** Where a new element goes in an ascending list, after any equal one (`bisect_right`). */
  function BisectRight(s: seq<int>, x: int): (r: nat)
    requires Ascending(s)
    ensures r <= |s|
    ensures forall i :: 0 <= i < r ==> s[i] <= x
    ensures forall i :: r <= i < |s| ==> x < s[i]
  {
    if s == [] || x < s[0] then 0 else 1 + BisectRight(s[1..], x)
  }

  /** The first place at or after which every element is at least `x` (`bisect_left`). */
  function BisectLeft(s: seq<int>, x: int): (r: nat)
    requires Ascending(s)
    ensures r <= |s|
    ensures forall i :: 0 <= i < r ==> s[i] < x
    ensures forall i :: r <= i < |s| ==> x <= s[i]
  {
    if s == [] || x <= s[0] then 0 else 1 + BisectLeft(s[1..], x)
  }

  /** Runs through a set once, in whatever order the set yields its elements. */
  method Iterate(items: set<int>) returns (order: seq<int>)
    ensures Elements(order) == items
    ensures NoDuplicates(order)
  {
    order := [];
    var rest := items;
    while rest != {}
      invariant rest <= items
      invariant Elements(order) == items - rest
      invariant NoDuplicates(order)
      decreases rest
    {
      HasElement(rest);
      var x :| x in rest;
      ElementsConcat(order, [x]);
      order := order + [x];
      rest := rest - {x};
    }
  }

  /** Lists a set in ascending order. */
  method Sort(items: set<int>) returns (r: seq<int>)
    ensures r == Sorted(items)
  {
    r := [];
    var rest := items;
    while rest != {}
      invariant rest <= items
      invariant Ascending(r) && Lists(r, items - rest)
      invariant forall x, y :: x in rest && y in r ==> x < y
      decreases rest
    {
      var top := Maximum(rest);
      assert forall i :: 0 <= i < |r| ==> top < r[i];
      r := [top] + r;
      rest := rest - {top};
    }
    AscendingUnique(r, Sorted(items));
  }
}
