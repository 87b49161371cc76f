/** Renaming a mailbox together with its inferiors, one move in the mailbox map at a time. */
module Rename {
  import opened Collections
  import opened Names
  import opened ListTree

  const INBOX: Name := "INBOX"

  /** The mailboxes by name, with the inbox kept apart, and the identity of the next new mailbox. */
  datatype Boxes = Boxes(named: map<Name, int>, inbox: int, next: int)

  /** `INBOX` is never a key of the map. */
  predicate Valid(b: Boxes) {
    INBOX !in b.named
  }

  predicate Owned(b: Boxes, name: Name) {
    name == INBOX || name in b.named
  }

  function Box(b: Boxes, name: Name): int
    requires Owned(b, name)
  {
    if name == INBOX then b.inbox else b.named[name]
  }

  datatype RenameError = KeyError(name: Name) | ValueError(name: Name)

  datatype Outcome = Outcome(boxes: Boxes, error: Option<RenameError>)

  function Move(b: Boxes, before: Name, after: Name): Boxes
    requires Owned(b, before)
  {
    if before == INBOX then Boxes(b.named[after := b.inbox], b.next, b.next + 1)
    else b.(named := b.named[after := b.named[before]] - {before})
  }

  /** The moves in order, up to the first name that is not there. */
  function MoveAll(b: Boxes, froms: seq<Name>, tos: seq<Name>): Outcome
    requires |froms| == |tos|
    decreases |froms|
  {
    if froms == [] then Outcome(b, None)
    else if !Owned(b, froms[0]) then Outcome(b, Some(KeyError(froms[0])))
    else MoveAll(Move(b, froms[0], tos[0]), froms[1..], tos[1..])
  }

  lemma MoveAllStep(b: Boxes, froms: seq<Name>, tos: seq<Name>, done: nat)
    requires |froms| == |tos| && done < |froms|
    ensures MoveAll(b, froms[done..], tos[done..]) ==
            if Owned(b, froms[done]) then MoveAll(Move(b, froms[done], tos[done]), froms[done + 1..], tos[done + 1..])
            else Outcome(b, Some(KeyError(froms[done])))
  {
    assert froms[done..][1..] == froms[done + 1..] && tos[done..][1..] == tos[done + 1..];
  }

  /** The names are those of the map, in some order of its keys. */
  ghost predicate ListsKeys(order: seq<Name>, b: Boxes) {
    forall name :: name in order <==> name in b.named
  }

  function Tree(order: seq<Name>): Node {
    Build([INBOX] + order)
  }

  /** The whole of a rename, with the checks before it. */
  function Renaming(b: Boxes, order: seq<Name>, before: Name, after: Name): Outcome {
    match Find(Tree(order), Split(before))
    case None => Outcome(b, Some(KeyError(before)))
    case Some(node) =>
      if HasNode(Tree(order), Split(after)) then Outcome(b, Some(ValueError(after)))
      else
        NamesArePaths(node, before);
        NamesArePaths(node, after);
        MoveAll(b, NamesBelow(node, before), NamesBelow(node, after))
  }

  class MailboxSet {
    var named: map<Name, int>
    var inbox: int
    var next: int

    constructor (inbox: int, next: int)
      ensures Now() == Boxes(map[], inbox, next)
    {
      this.named, this.inbox, this.next := map[], inbox, next;
    }

    function Now(): Boxes
      reads this
    {
      Boxes(named, inbox, next)
    }

    method MoveEach(froms: seq<Name>, tos: seq<Name>) returns (error: Option<RenameError>)
      requires |froms| == |tos|
      modifies this
      ensures Outcome(Now(), error) == MoveAll(old(Now()), froms, tos)
    {
      assert froms[0..] == froms && tos[0..] == tos;
      var i := 0;
      while i < |froms|
        invariant 0 <= i <= |froms|
        invariant MoveAll(old(Now()), froms, tos) == MoveAll(Now(), froms[i..], tos[i..])
      {
        MoveAllStep(Now(), froms, tos, i);
        if froms[i] == INBOX {
          named := named[tos[i] := inbox];
          inbox, next := next, next + 1;
        } else if froms[i] !in named {
          return Some(KeyError(froms[i]));
        } else {
          named := named[tos[i] := named[froms[i]]];
          named := named - {froms[i]};
        }
        i := i + 1;
      }
      return None;
    }

    method RenameMailbox(order: seq<Name>, before: Name, after: Name) returns (error: Option<RenameError>)
      requires ListsKeys(order, Now())
      modifies this
      ensures Outcome(Now(), error) == Renaming(old(Now()), order, before, after)
    {
      var tree := Tree(order);
      var node := Find(tree, Split(before));
      if node.None? {
        return Some(KeyError(before));
      } else if HasNode(tree, Split(after)) {
        return Some(ValueError(after));
      }
      NamesArePaths(node.value, before);
      NamesArePaths(node.value, after);
      error := MoveEach(NamesBelow(node.value, before), NamesBelow(node.value, after));
    }
  }

  /** What a rename is for: each mailbox at or below `before` is found under `after` with the
      same suffix, the others stay as they are, and nothing else is there. */
  ghost predicate Renamed(b: Boxes, c: Boxes, before: Name, after: Name) {
    && c.inbox == (if before == INBOX then b.next else b.inbox)
    && (forall name :: Owned(b, name) && AtOrBelow(name, before) ==>
      HasAt(c, Rebase(name, before, after), Box(b, name)))
    && (forall name :: name in b.named && !AtOrBelow(name, before) ==> HasAt(c, name, b.named[name]))
    && (forall name :: name in c.named ==> ComesFrom(b, name, before, after))
  }

  predicate HasAt(b: Boxes, name: Name, box: int) {
    name in b.named && b.named[name] == box
  }

  predicate ComesFrom(b: Boxes, name: Name, before: Name, after: Name) {
    || (name in b.named && !AtOrBelow(name, before))
    || (AtOrBelow(name, after) && Owned(b, Rebase(name, after, before)))
  }

  /** Moves between two sets of names, the second one free. */
  ghost predicate Movable(b: Boxes, froms: seq<Name>, tos: seq<Name>) {
    && |froms| == |tos|
    && NoDuplicates(froms) && NoDuplicates(tos)
    && (forall name :: name in froms ==> Owned(b, name))
    && (forall name :: name in tos ==> !Owned(b, name))
  }

  lemma MovableRest(b: Boxes, froms: seq<Name>, tos: seq<Name>)
    requires Movable(b, froms, tos) && froms != [] && Valid(b)
    ensures Owned(b, froms[0]) && Valid(Move(b, froms[0], tos[0]))
    ensures Movable(Move(b, froms[0], tos[0]), froms[1..], tos[1..])
    ensures !Owned(b, tos[0]) && tos[0] !in froms && tos[0] !in tos[1..] && froms[0] !in froms[1..]
  {
    assert froms[0] in froms && tos[0] in tos;
    assert forall name :: name in froms[1..] ==> name in froms && name != froms[0];
    assert forall name :: name in tos[1..] ==> name in tos && name != tos[0];
  }

  /** Free target names make the order of the moves irrelevant: each name is moved once. */
  lemma {:induction false} MoveAllMoves(b: Boxes, froms: seq<Name>, tos: seq<Name>, name: Name)
    requires Movable(b, froms, tos) && Valid(b)
    ensures MoveAll(b, froms, tos).error.None? && Valid(MoveAll(b, froms, tos).boxes)
    ensures MoveAll(b, froms, tos).boxes.inbox == if INBOX in froms then b.next else b.inbox
    ensures name !in tos ==> (name in MoveAll(b, froms, tos).boxes.named <==> name in b.named && name !in froms)
    ensures name in b.named && name !in froms ==> HasAt(MoveAll(b, froms, tos).boxes, name, b.named[name])
    decreases |froms|
  {
    if froms != [] {
      MovableRest(b, froms, tos);
      MoveAllMoves(Move(b, froms[0], tos[0]), froms[1..], tos[1..], name);
      assert froms == [froms[0]] + froms[1..] && tos == [tos[0]] + tos[1..];
    }
  }

  lemma {:induction false} MoveAllArrives(b: Boxes, froms: seq<Name>, tos: seq<Name>, i: nat)
    requires Movable(b, froms, tos) && Valid(b) && i < |froms|
    ensures Owned(b, froms[i]) && HasAt(MoveAll(b, froms, tos).boxes, tos[i], Box(b, froms[i]))
    decreases |froms|
  {
    assert froms[i] in froms;
    MovableRest(b, froms, tos);
    var moved := Move(b, froms[0], tos[0]);
    if i == 0 {
      assert froms == [froms[0]] + froms[1..];
      MoveAllMoves(moved, froms[1..], tos[1..], tos[0]);
    } else {
      assert froms[1..][i - 1] == froms[i] && tos[1..][i - 1] == tos[i];
      assert froms[i] != froms[0];
      MoveAllArrives(moved, froms[1..], tos[1..], i - 1);
    }
  }

  lemma {:induction false} FindConcat(node: Node, first: Path, second: Path)
    requires HasNode(node, first)
    ensures Find(node, first + second) == Find(Find(node, first).value, second)
    decreases |first|
  {
    if first == [] {
      assert first + second == second;
    } else {
      assert (first + second)[1..] == first[1..] + second;
      FindConcat(Lookup(node.children, first[0]).value, first[1..], second);
    }
  }

  lemma {:induction false} FindTidy(node: Node, path: Path)
    requires TidyNode(node) && HasNode(node, path)
    ensures TidyNode(Find(node, path).value)
    decreases |path|
  {
    if path != [] {
      LookupTidy(node.children, path[0]);
      FindTidy(Lookup(node.children, path[0]).value, path[1..]);
    }
  }

  lemma SplitInjective(a: Name, b: Name)
    requires Split(a) == Split(b)
    ensures a == b
  {
    JoinSplit(a);
    JoinSplit(b);
  }

  lemma TreeOwns(b: Boxes, order: seq<Name>, name: Name)
    requires ListsKeys(order, b)
    ensures Exists(Tree(order), Split(name)) <==> Owned(b, name)
  {
    var names := [INBOX] + order;
    BuildFinds(names, Split(name));
    assert forall n :: n in names <==> Owned(b, n);
    if IsNamed(names, Split(name)) {
      var other :| other in names && Split(name) == Split(other);
      SplitInjective(name, other);
    }
  }

  /** A name has a node when a mailbox is at it or below it. */
  lemma NodeAbove(b: Boxes, order: seq<Name>, name: Name, top: Name)
    requires ListsKeys(order, b) && Owned(b, name) && AtOrBelow(name, top)
    ensures HasNode(Tree(order), Split(top))
  {
    var names := [INBOX] + order;
    BuildFinds(names, Split(top));
    BelowIsPrefix(name, top);
    assert name in names;
  }

  /** The two checks before a rename ask whether any mailbox is at or below the name. */
  lemma NodeExact(b: Boxes, order: seq<Name>, top: Name)
    requires ListsKeys(order, b)
    ensures HasNode(Tree(order), Split(top)) <==> exists name :: Owned(b, name) && AtOrBelow(name, top)
  {
    var names := [INBOX] + order;
    BuildFinds(names, Split(top));
    if HasNode(Tree(order), Split(top)) {
      var name :| name in names && Split(top) <= Split(name);
      BelowIsPrefix(name, top);
      assert Owned(b, name) && AtOrBelow(name, top);
    } else if name :| Owned(b, name) && AtOrBelow(name, top) {
      NodeAbove(b, order, name, top);
    }
  }

  /** The walk from the node of `before` reaches exactly the mailboxes at and below it. */
  lemma PathsOwned(b: Boxes, order: seq<Name>, before: Name, node: Node, path: Path)
    requires ListsKeys(order, b) && Find(Tree(order), Split(before)) == Some(node)
    ensures TidyNode(node)
    ensures path in Paths(node) <==> Plain(path) && Owned(b, Under(before, path))
  {
    BuildTidy([INBOX] + order);
    FindTidy(Tree(order), Split(before));
    PathsExact(node, path);
    FindConcat(Tree(order), Split(before), path);
    if Exists(node, path) {
      ExistsPlain(node, path);
    }
    if Plain(path) {
      SplitUnder(before, path);
      TreeOwns(b, order, Under(before, path));
    }
  }

  /** No mailbox lies below `top`. */
  ghost predicate Childless(b: Boxes, top: Name) {
    forall name :: Owned(b, name) && AtOrBelow(name, top) ==> name == top
  }

  /** The listing writes the names of the mailboxes that a rename moves as they are. */
  ghost predicate Sound(b: Boxes, before: Name, after: Name) {
    (before != [] && after != []) || Childless(b, before)
  }

  lemma UnderBelow(name: Name, path: Path)
    ensures AtOrBelow(Under(name, path), name)
    ensures path != [] ==> Under(name, path) != name
    ensures forall to :: Rebase(Under(name, path), name, to) == Under(to, path)
  {
    if path != [] {
      assert Under(name, path)[|name|..] == [DELIMITER] + Join(path);
    }
  }

  lemma WrittenSound(b: Boxes, order: seq<Name>, before: Name, after: Name, node: Node, path: Path)
    requires ListsKeys(order, b) && Find(Tree(order), Split(before)) == Some(node)
    requires Sound(b, before, after) && path in Paths(node)
    ensures Written(before, path) == Under(before, path) && Written(after, path) == Under(after, path)
  {
    PathsOwned(b, order, before, node, path);
    UnderBelow(before, path);
    if before != [] && after != [] {
      WrittenIsUnder(before, path);
      WrittenIsUnder(after, path);
    }
  }

  /** The lists of a sound rename name each mailbox at or below `before` once, and free names. */
  lemma SoundMovable(b: Boxes, order: seq<Name>, before: Name, after: Name, node: Node)
    requires Valid(b) && ListsKeys(order, b) && Find(Tree(order), Split(before)) == Some(node)
    requires Sound(b, before, after) && !HasNode(Tree(order), Split(after))
    ensures Movable(b, NamesBelow(node, before), NamesBelow(node, after))
  {
    var paths := Paths(node);
    var froms, tos := NamesBelow(node, before), NamesBelow(node, after);
    NamesArePaths(node, before);
    NamesArePaths(node, after);
    forall i | 0 <= i < |paths|
      ensures Owned(b, froms[i]) && !Owned(b, tos[i])
      ensures Split(froms[i]) == Split(before) + paths[i] && Split(tos[i]) == Split(after) + paths[i]
    {
      SoundAt(b, order, before, after, node, paths[i]);
    }
    PathsOwned(b, order, before, node, []);
    PathsOnce(node);
    DistinctByPath(froms, before, paths);
    DistinctByPath(tos, after, paths);
  }

  lemma SoundAt(b: Boxes, order: seq<Name>, before: Name, after: Name, node: Node, path: Path)
    requires ListsKeys(order, b) && Find(Tree(order), Split(before)) == Some(node)
    requires Sound(b, before, after) && !HasNode(Tree(order), Split(after)) && path in Paths(node)
    ensures Owned(b, Written(before, path)) && !Owned(b, Written(after, path))
    ensures Split(Written(before, path)) == Split(before) + path
    ensures Split(Written(after, path)) == Split(after) + path
  {
    PathsOwned(b, order, before, node, path);
    WrittenSound(b, order, before, after, node, path);
    SplitUnder(before, path);
    SplitUnder(after, path);
    UnderBelow(after, path);
    if Owned(b, Under(after, path)) {
      NodeAbove(b, order, Under(after, path), after);
      assert false;
    }
  }

  lemma DistinctByPath(names: seq<Name>, top: Name, paths: seq<Path>)
    requires |names| == |paths| && NoDuplicates(paths)
    requires forall i :: 0 <= i < |paths| ==> Split(names[i]) == Split(top) + paths[i]
    ensures NoDuplicates(names)
  {
    forall i, j | 0 <= i < j < |names|
      ensures names[i] != names[j]
    {
      assert (Split(top) + paths[i])[|Split(top)|..] == paths[i];
      assert (Split(top) + paths[j])[|Split(top)|..] == paths[j];
    }
  }

  /** Where in the lists a mailbox that must move is named. */
  lemma MovedAt(b: Boxes, order: seq<Name>, before: Name, after: Name, node: Node, name: Name) returns (i: nat)
    requires ListsKeys(order, b) && Find(Tree(order), Split(before)) == Some(node)
    requires Sound(b, before, after) && Owned(b, name) && AtOrBelow(name, before)
    ensures i < |NamesBelow(node, before)| == |NamesBelow(node, after)|
    ensures NamesBelow(node, before)[i] == name && NamesBelow(node, after)[i] == Rebase(name, before, after)
    ensures name in NamesBelow(node, before)
  {
    var path := PathBelow(name, before, after);
    PathsOwned(b, order, before, node, path);
    WrittenSound(b, order, before, after, node, path);
    NamesArePaths(node, before);
    NamesArePaths(node, after);
    i :| 0 <= i < |Paths(node)| && Paths(node)[i] == path;
  }

  lemma PathBelow(name: Name, before: Name, after: Name) returns (path: Path)
    requires AtOrBelow(name, before)
    ensures Plain(path) && Under(before, path) == name && Under(after, path) == Rebase(name, before, after)
  {
    BelowIsPrefix(name, before);
    JoinSplit(name);
    path := Split(name)[|Split(before)|..];
    assert Split(name) == Split(before) + path;
    UnderRebase(name, before, after, path);
  }

  /** Nothing but the mailboxes at or below `before` is named. */
  lemma MovedOnly(b: Boxes, order: seq<Name>, before: Name, after: Name, node: Node, i: nat)
    requires ListsKeys(order, b) && Find(Tree(order), Split(before)) == Some(node)
    requires Sound(b, before, after)
    requires i < |NamesBelow(node, before)|
    ensures |NamesBelow(node, before)| == |NamesBelow(node, after)|
    ensures AtOrBelow(NamesBelow(node, before)[i], before) && Owned(b, NamesBelow(node, before)[i])
    ensures AtOrBelow(NamesBelow(node, after)[i], after)
    ensures Rebase(NamesBelow(node, after)[i], after, before) == NamesBelow(node, before)[i]
  {
    NamesArePaths(node, before);
    NamesArePaths(node, after);
    var path := Paths(node)[i];
    PathsOwned(b, order, before, node, path);
    WrittenSound(b, order, before, after, node, path);
    UnderBelow(before, path);
    UnderBelow(after, path);
  }

  lemma InboxAlone(before: Name)
    ensures AtOrBelow(INBOX, before) <==> before == INBOX
  {
    SplitPlain(INBOX);
    BelowIsPrefix(INBOX, before);
    if Split(before) <= [INBOX] {
      assert Split(before) == [INBOX];
      SplitInjective(before, INBOX);
    }
  }

  lemma SoundRename(b: Boxes, order: seq<Name>, before: Name, after: Name)
    requires Valid(b) && ListsKeys(order, b)
    requires HasNode(Tree(order), Split(before)) && !HasNode(Tree(order), Split(after))
    requires Sound(b, before, after)
    ensures Renaming(b, order, before, after).error.None?
    ensures Valid(Renaming(b, order, before, after).boxes)
    ensures Renamed(b, Renaming(b, order, before, after).boxes, before, after)
  {
    var node := Find(Tree(order), Split(before)).value;
    var froms, tos := NamesBelow(node, before), NamesBelow(node, after);
    SoundMovable(b, order, before, after, node);
    var done := MoveAll(b, froms, tos);
    SoundInbox(b, order, before, after, node);
    forall name | Owned(b, name) && AtOrBelow(name, before)
      ensures HasAt(done.boxes, Rebase(name, before, after), Box(b, name))
    {
      var i := MovedAt(b, order, before, after, node, name);
      MoveAllArrives(b, froms, tos, i);
    }
    forall name | name in b.named && !AtOrBelow(name, before)
      ensures HasAt(done.boxes, name, b.named[name])
    {
      MoveAllMoves(b, froms, tos, name);
      NotMoved(b, order, before, after, node, name);
    }
    forall name | name in done.boxes.named
      ensures ComesFrom(b, name, before, after)
    {
      Arrived(b, order, before, after, node, name);
    }
  }

  lemma SoundInbox(b: Boxes, order: seq<Name>, before: Name, after: Name, node: Node)
    requires Valid(b) && ListsKeys(order, b) && Find(Tree(order), Split(before)) == Some(node)
    requires Sound(b, before, after) && Movable(b, NamesBelow(node, before), NamesBelow(node, after))
    ensures var done := MoveAll(b, NamesBelow(node, before), NamesBelow(node, after));
            done.error.None? && Valid(done.boxes) && done.boxes.inbox == if before == INBOX then b.next else b.inbox
  {
    InboxAlone(before);
    MoveAllMoves(b, NamesBelow(node, before), NamesBelow(node, after), INBOX);
    if before == INBOX {
      var i := MovedAt(b, order, before, after, node, INBOX);
    } else {
      NotMoved(b, order, before, after, node, INBOX);
    }
  }

  lemma NotMoved(b: Boxes, order: seq<Name>, before: Name, after: Name, node: Node, name: Name)
    requires ListsKeys(order, b) && Find(Tree(order), Split(before)) == Some(node)
    requires Sound(b, before, after)
    ensures name in NamesBelow(node, before) ==> AtOrBelow(name, before)
  {
    if name in NamesBelow(node, before) {
      var i :| 0 <= i < |NamesBelow(node, before)| && NamesBelow(node, before)[i] == name;
      MovedOnly(b, order, before, after, node, i);
    }
  }

  lemma Arrived(b: Boxes, order: seq<Name>, before: Name, after: Name, node: Node, name: Name)
    requires Valid(b) && ListsKeys(order, b) && Find(Tree(order), Split(before)) == Some(node)
    requires Sound(b, before, after) && Movable(b, NamesBelow(node, before), NamesBelow(node, after))
    requires name in MoveAll(b, NamesBelow(node, before), NamesBelow(node, after)).boxes.named
    ensures ComesFrom(b, name, before, after)
  {
    var froms, tos := NamesBelow(node, before), NamesBelow(node, after);
    if name in tos {
      var i :| 0 <= i < |tos| && tos[i] == name;
      MovedOnly(b, order, before, after, node, i);
    } else {
      MoveAllMoves(b, froms, tos, name);
      if AtOrBelow(name, before) {
        var i := MovedAt(b, order, before, after, node, name);
      }
    }
  }

  predicate Rooted(name: Name) {
    name != [] && name[0] == DELIMITER
  }

  lemma {:induction false} WrittenKeeps(name: Name, path: Path)
    ensures name <= Written(name, path)
    decreases |path|
  {
    if path != [] && name != [] {
      WrittenKeeps(ChildName(name, path[0]), path[1..]);
    }
  }

  /** From the empty name, the listing never writes a name that begins with the delimiter. */
  lemma {:induction false} WrittenNotRooted(path: Path)
    requires Plain(path)
    ensures !Rooted(Written([], path))
    decreases |path|
  {
    if path != [] {
      assert Plain(path[1..]);
      if path[0] == [] {
        WrittenNotRooted(path[1..]);
      } else {
        assert path[0][0] in path[0];
        WrittenKeeps(path[0], path[1..]);
      }
    }
  }

  lemma NamesNotRooted(b: Boxes, order: seq<Name>, before: Name, node: Node, name: Name)
    requires ListsKeys(order, b) && Find(Tree(order), Split(before)) == Some(node)
    requires name in NamesBelow(node, [])
    ensures !Rooted(name)
  {
    NamesArePaths(node, []);
    var i :| 0 <= i < |NamesBelow(node, [])| && NamesBelow(node, [])[i] == name;
    PathsOwned(b, order, before, node, Paths(node)[i]);
    WrittenNotRooted(Paths(node)[i]);
  }

  /** Whatever the lists, only named keys leave the map and only named keys enter it. */
  lemma {:induction false} MoveAllKeys(b: Boxes, froms: seq<Name>, tos: seq<Name>, name: Name)
    requires |froms| == |tos|
    ensures name in b.named && name !in froms ==> name in MoveAll(b, froms, tos).boxes.named
    ensures name in MoveAll(b, froms, tos).boxes.named ==> name in b.named || name in tos
    decreases |froms|
  {
    if froms != [] && Owned(b, froms[0]) {
      assert froms == [froms[0]] + froms[1..] && tos == [tos[0]] + tos[1..];
      MoveAllKeys(Move(b, froms[0], tos[0]), froms[1..], tos[1..], name);
    }
  }

  /** A rename does what it is for exactly when neither name is empty or nothing lies below `before`. */
  lemma RenameExact(b: Boxes, order: seq<Name>, before: Name, after: Name)
    requires Valid(b) && ListsKeys(order, b)
    requires HasNode(Tree(order), Split(before)) && !HasNode(Tree(order), Split(after))
    ensures Sound(b, before, after) <==> Renamed(b, Renaming(b, order, before, after).boxes, before, after)
    ensures Sound(b, before, after) ==> Renaming(b, order, before, after).error.None?
  {
    if Sound(b, before, after) {
      SoundRename(b, order, before, after);
    } else {
      var name :| Owned(b, name) && AtOrBelow(name, before) && name != before;
      if before == [] {
        EmptyBefore(b, order, after, name);
      } else {
        EmptyAfter(b, order, before, name);
      }
    }
  }

  lemma EmptyBefore(b: Boxes, order: seq<Name>, after: Name, name: Name)
    requires Valid(b) && ListsKeys(order, b)
    requires HasNode(Tree(order), Split([])) && !HasNode(Tree(order), Split(after))
    requires Owned(b, name) && AtOrBelow(name, []) && name != []
    ensures !Renamed(b, Renaming(b, order, [], after).boxes, [], after)
  {
    var node := Find(Tree(order), Split([])).value;
    var done := Renaming(b, order, [], after).boxes;
    NamesArePaths(node, []);
    NamesArePaths(node, after);
    MoveAllKeys(b, NamesBelow(node, []), NamesBelow(node, after), name);
    if name in NamesBelow(node, []) {
      NamesNotRooted(b, order, [], node, name);
    }
    assert name in done.named;
    if AtOrBelow(name, after) {
      NodeAbove(b, order, name, after);
    }
  }

  lemma EmptyAfter(b: Boxes, order: seq<Name>, before: Name, name: Name)
    requires Valid(b) && ListsKeys(order, b)
    requires HasNode(Tree(order), Split(before)) && !HasNode(Tree(order), Split([]))
    requires Owned(b, name) && AtOrBelow(name, before) && name != before
    ensures !Renamed(b, Renaming(b, order, before, []).boxes, before, [])
  {
    var node := Find(Tree(order), Split(before)).value;
    var done := Renaming(b, order, before, []).boxes;
    var target := Rebase(name, before, []);
    assert Rooted(target);
    NamesArePaths(node, before);
    NamesArePaths(node, []);
    MoveAllKeys(b, NamesBelow(node, before), NamesBelow(node, []), target);
    if target in NamesBelow(node, []) {
      NamesNotRooted(b, order, before, node, target);
    }
    if target in b.named {
      NodeAbove(b, order, target, []);
    }
    assert target !in done.named;
  }

  /** When the two names are in order, no mailbox is overwritten: the new names were all free. */
  lemma TargetsFree(b: Boxes, order: seq<Name>, before: Name, after: Name, name: Name)
    requires ListsKeys(order, b) && !HasNode(Tree(order), Split(after))
    requires Owned(b, name) && AtOrBelow(name, before)
    ensures !Owned(b, Rebase(name, before, after))
  {
    var target := Rebase(name, before, after);
    if Owned(b, target) {
      NodeAbove(b, order, target, after);
      assert false;
    }
  }

  // ----- Refusals, and what no rename loses

  ghost predicate Used(b: Boxes, top: Name) {
    exists name :: Owned(b, name) && AtOrBelow(name, top)
  }

  /** Mailboxes that are there and named once are moved without an error. */
  lemma {:induction false} MoveAllFinds(b: Boxes, froms: seq<Name>, tos: seq<Name>)
    requires |froms| == |tos| && NoDuplicates(froms) && forall name :: name in froms ==> Owned(b, name)
    ensures MoveAll(b, froms, tos).error.None?
    decreases |froms|
  {
    if froms != [] {
      assert froms[0] in froms;
      var moved := Move(b, froms[0], tos[0]);
      forall name | name in froms[1..] ensures Owned(moved, name) {
        assert name in froms && name != froms[0];
      }
      MoveAllFinds(moved, froms[1..], tos[1..]);
    }
  }

  lemma {:induction false} MoveAllErrors(b: Boxes, froms: seq<Name>, tos: seq<Name>)
    requires |froms| == |tos|
    ensures MoveAll(b, froms, tos).error.Some? ==> MoveAll(b, froms, tos).error.value.KeyError?
    decreases |froms|
  {
    if froms != [] && Owned(b, froms[0]) {
      MoveAllErrors(Move(b, froms[0], tos[0]), froms[1..], tos[1..]);
    }
  }

  /** From a name that is not empty, or has no inferiors, the listing names mailboxes that are there. */
  lemma ListedAreOwned(b: Boxes, order: seq<Name>, before: Name, node: Node)
    requires ListsKeys(order, b) && Find(Tree(order), Split(before)) == Some(node)
    requires before != [] || Childless(b, before)
    ensures NoDuplicates(NamesBelow(node, before))
    ensures forall name :: name in NamesBelow(node, before) ==> Owned(b, name)
  {
    var names, paths := NamesBelow(node, before), Paths(node);
    NamesArePaths(node, before);
    forall i | 0 <= i < |paths| ensures Owned(b, names[i]) && Split(names[i]) == Split(before) + paths[i] {
      PathsOwned(b, order, before, node, paths[i]);
      WrittenSound(b, order, before, before, node, paths[i]);
      SplitUnder(before, paths[i]);
    }
    PathsOwned(b, order, before, node, []);
    PathsOnce(node);
    DistinctByPath(names, before, paths);
  }

  /** Whatever the names: a rename is refused with nothing changed if no mailbox is at or below the old
      name, and if one is and so is one at or below the new name. A ValueError means just the latter. */
  lemma RefusedExactly(b: Boxes, order: seq<Name>, before: Name, after: Name)
    requires ListsKeys(order, b)
    ensures var r := Renaming(b, order, before, after);
            && (!Used(b, before) ==> r == Outcome(b, Some(KeyError(before))))
            && (Used(b, before) && Used(b, after) ==> r == Outcome(b, Some(ValueError(after))))
            && (r.error.Some? && r.error.value.ValueError? <==> Used(b, before) && Used(b, after))
  {
    NodeExact(b, order, before);
    NodeExact(b, order, after);
    if Used(b, before) && !Used(b, after) {
      var node := Find(Tree(order), Split(before)).value;
      NamesArePaths(node, before);
      NamesArePaths(node, after);
      MoveAllErrors(b, NamesBelow(node, before), NamesBelow(node, after));
    }
  }

  /** When its turn comes, a listed name is not there. */
  ghost predicate MissingAt(b: Boxes, froms: seq<Name>, tos: seq<Name>, i: int) {
    && |froms| == |tos| && 0 <= i < |froms|
    && var before := MoveAll(b, froms[..i], tos[..i]);
       before.error.None? && !Owned(before.boxes, froms[i])
  }

  lemma MissingLater(b: Boxes, froms: seq<Name>, tos: seq<Name>, i: nat)
    requires |froms| == |tos| && i + 1 < |froms| && Owned(b, froms[0])
    ensures MissingAt(b, froms, tos, i + 1) <==> MissingAt(Move(b, froms[0], tos[0]), froms[1..], tos[1..], i)
  {
    assert froms[..i + 1][1..] == froms[1..][..i] && tos[..i + 1][1..] == tos[1..][..i];
    assert froms[1..][i] == froms[i + 1];
  }

  lemma {:induction false} MoveAllFails(b: Boxes, froms: seq<Name>, tos: seq<Name>)
    requires |froms| == |tos|
    ensures MoveAll(b, froms, tos).error.Some? <==> exists i :: MissingAt(b, froms, tos, i)
    decreases |froms|
  {
    if froms != [] {
      assert froms[..0] == [] && tos[..0] == [];
      if !Owned(b, froms[0]) {
        assert MissingAt(b, froms, tos, 0);
      } else {
        var moved := Move(b, froms[0], tos[0]);
        MoveAllFails(moved, froms[1..], tos[1..]);
        if i :| MissingAt(moved, froms[1..], tos[1..], i) {
          MissingLater(b, froms, tos, i);
        }
        if i :| MissingAt(b, froms, tos, i) {
          MissingLater(b, froms, tos, i - 1);
        }
      }
    }
  }

  /** A KeyError means that no mailbox is at or below the old name, or that at some turn the name that the
      listing has written is not there. That does not happen unless the old name is empty and has inferiors. */
  lemma KeyErrorExactly(b: Boxes, order: seq<Name>, before: Name, after: Name)
    requires ListsKeys(order, b)
    ensures var r := Renaming(b, order, before, after);
            var failed := r.error.Some? && r.error.value.KeyError?;
            && (Used(b, before) ==> HasNode(Tree(order), Split(before)))
            && (failed <==> !Used(b, before) || (!Used(b, after) && Unlisted(b, order, before, after)))
            && (before != [] || Childless(b, before) ==>
              (failed <==> !Used(b, before)) && (r.error.None? <==> Used(b, before) && !Used(b, after)))
  {
    RefusedExactly(b, order, before, after);
    NodeExact(b, order, before);
    NodeExact(b, order, after);
    if Used(b, before) && !Used(b, after) {
      var node := Find(Tree(order), Split(before)).value;
      NamesArePaths(node, before);
      NamesArePaths(node, after);
      MoveAllErrors(b, NamesBelow(node, before), NamesBelow(node, after));
      MoveAllFails(b, NamesBelow(node, before), NamesBelow(node, after));
      if before != [] || Childless(b, before) {
        ListedAreOwned(b, order, before, node);
        MoveAllFinds(b, NamesBelow(node, before), NamesBelow(node, after));
      }
    }
  }

  /** The listing gives a name that is not there at its turn. */
  ghost predicate Unlisted(b: Boxes, order: seq<Name>, before: Name, after: Name)
    requires HasNode(Tree(order), Split(before))
  {
    var node := Find(Tree(order), Split(before)).value;
    exists i :: MissingAt(b, NamesBelow(node, before), NamesBelow(node, after), i)
  }

  ghost predicate Holds(b: Boxes, box: int) {
    exists name :: Owned(b, name) && Box(b, name) == box
  }

  /** No two names stand for one mailbox, and none for the next new one. */
  ghost predicate Distinct(b: Boxes) {
    && (forall name :: Owned(b, name) ==> Box(b, name) < b.next)
    && (forall name, other :: Owned(b, name) && Owned(b, other) && Box(b, name) == Box(b, other) ==> name == other)
  }

  /** Refused or not, a sound rename loses no mailbox. */
  lemma NothingLost(b: Boxes, order: seq<Name>, before: Name, after: Name, box: int)
    requires Valid(b) && ListsKeys(order, b) && Sound(b, before, after) && Holds(b, box)
    ensures Holds(Renaming(b, order, before, after).boxes, box)
  {
    RefusedExactly(b, order, before, after);
    NodeExact(b, order, before);
    NodeExact(b, order, after);
    if Used(b, before) && !Used(b, after) {
      SoundRename(b, order, before, after);
      var c := Renaming(b, order, before, after).boxes;
      var name :| Owned(b, name) && Box(b, name) == box;
      if AtOrBelow(name, before) {
        assert Owned(c, Rebase(name, before, after));
      } else {
        assert Owned(c, name);
      }
    }
  }

  lemma {:induction false} MoveAllNext(b: Boxes, froms: seq<Name>, tos: seq<Name>)
    requires |froms| == |tos|
    ensures b.next <= MoveAll(b, froms, tos).boxes.next
    ensures INBOX in froms && MoveAll(b, froms, tos).error.None? ==> b.next < MoveAll(b, froms, tos).boxes.next
    decreases |froms|
  {
    if froms != [] && Owned(b, froms[0]) {
      assert froms == [froms[0]] + froms[1..];
      MoveAllNext(Move(b, froms[0], tos[0]), froms[1..], tos[1..]);
    }
  }

  lemma NextGrows(b: Boxes, order: seq<Name>, before: Name, after: Name)
    requires Valid(b) && ListsKeys(order, b) && Sound(b, before, after) && Used(b, before) && !Used(b, after)
    ensures var c := Renaming(b, order, before, after).boxes;
            b.next <= c.next && (before == INBOX ==> b.next < c.next)
  {
    NodeExact(b, order, before);
    NodeExact(b, order, after);
    SoundRename(b, order, before, after);
    var node := Find(Tree(order), Split(before)).value;
    NamesArePaths(node, before);
    NamesArePaths(node, after);
    MoveAllNext(b, NamesBelow(node, before), NamesBelow(node, after));
    if before == INBOX {
      var i := MovedAt(b, order, before, after, node, INBOX);
    }
  }

  /** The mailbox under a name after a rename was under one before, or is the new inbox. */
  lemma CameFrom(b: Boxes, c: Boxes, before: Name, after: Name, name: Name) returns (source: Name)
    requires Valid(b) && Valid(c) && Renamed(b, c, before, after) && !Used(b, after) && Owned(c, name)
    ensures !(name == INBOX == before) ==> Owned(b, source) && Box(c, name) == Box(b, source)
    ensures AtOrBelow(source, before) ==> name == INBOX == before || name == Rebase(source, before, after)
    ensures !AtOrBelow(source, before) ==> name == source
  {
    InboxAlone(before);
    if name in c.named && AtOrBelow(name, after) && Owned(b, Rebase(name, after, before)) {
      source := Rebase(name, after, before);
      RebasedBack(name, after, before);
    } else {
      source := name;
    }
  }

  lemma RebasedBack(name: Name, from: Name, to: Name)
    requires AtOrBelow(name, from)
    ensures AtOrBelow(Rebase(name, from, to), to) && Rebase(Rebase(name, from, to), to, from) == name
  {
    var moved := Rebase(name, from, to);
    assert moved[|to|..] == name[|from|..];
    if name != from {
      assert name[|from|] == DELIMITER;
      assert moved[..|to| + 1] == to + [DELIMITER];
    }
  }

  /** A sound rename keeps mailboxes apart, the new inbox included. */
  lemma KeepsDistinct(b: Boxes, order: seq<Name>, before: Name, after: Name)
    requires Valid(b) && ListsKeys(order, b) && Sound(b, before, after) && Distinct(b)
    ensures Distinct(Renaming(b, order, before, after).boxes)
  {
    RefusedExactly(b, order, before, after);
    NodeExact(b, order, before);
    NodeExact(b, order, after);
    if Used(b, before) && !Used(b, after) {
      SoundRename(b, order, before, after);
      NextGrows(b, order, before, after);
      StillDistinct(b, Renaming(b, order, before, after).boxes, before, after);
    }
  }

  lemma StillDistinct(b: Boxes, c: Boxes, before: Name, after: Name)
    requires Valid(b) && Valid(c) && Renamed(b, c, before, after) && !Used(b, after) && Distinct(b)
    requires b.next <= c.next && (before == INBOX ==> b.next < c.next)
    ensures Distinct(c)
  {
    forall name | Owned(c, name) ensures Box(c, name) < c.next {
      var source := CameFrom(b, c, before, after, name);
    }
    forall name, other | Owned(c, name) && Owned(c, other) && Box(c, name) == Box(c, other) ensures name == other {
      var source := CameFrom(b, c, before, after, name);
      var source' := CameFrom(b, c, before, after, other);
    }
  }

  /** A mailbox at `/x`, and the empty name to be renamed to `y`: refused because `x` is not there. */
  lemma EmptyNameNotFound(b: Boxes)
    requires b.named == map["/x" := 1]
    ensures Used(b, "") && Renaming(b, ["/x"], "", "y") == Outcome(b, Some(KeyError("x")))
  {
    assert "/x" != INBOX && Owned(b, "/x");
    assert "" + [DELIMITER] == ['/'] <= "/x" && AtOrBelow("/x", "");
    assert ListsKeys(["/x"], b);
    NodeExact(b, ["/x"], "");
    NodeExact(b, ["/x"], "y");
    assert !AtOrBelow("/x", "y") && !AtOrBelow(INBOX, "y");
    var node := Find(Tree(["/x"]), Split("")).value;
    NamesArePaths(node, "");
    NamesArePaths(node, "y");
    OnlyPath(b, node);
  }

  lemma OnlyPath(b: Boxes, node: Node)
    requires b.named == map["/x" := 1] && ListsKeys(["/x"], b) && Find(Tree(["/x"]), Split("")) == Some(node)
    ensures Paths(node) == [["x"]]
  {
    var paths := Paths(node);
    forall i | 0 <= i < |paths| ensures paths[i] == ["x"] {
      SlashXPath(b, node, paths[i]);
    }
    SlashXPath(b, node, ["x"]);
    PathsOwned(b, ["/x"], "", node, []);
    PathsOnce(node);
    OnlyOne(paths, ["x"]);
  }

  lemma OnlyOne(paths: seq<Path>, only: Path)
    requires NoDuplicates(paths) && only in paths && forall i :: 0 <= i < |paths| ==> paths[i] == only
    ensures paths == [only]
  {
    if |paths| > 1 {
      Differ(paths, 0, 1);
      assert false;
    }
  }

  lemma Differ(paths: seq<Path>, i: nat, j: nat)
    requires NoDuplicates(paths) && i < j < |paths|
    ensures paths[i] != paths[j]
  {
  }

  lemma SlashXPath(b: Boxes, node: Node, path: Path)
    requires b.named == map["/x" := 1] && ListsKeys(["/x"], b) && Find(Tree(["/x"]), Split("")) == Some(node)
    ensures path in Paths(node) <==> path == ["x"]
  {
    PathsOwned(b, ["/x"], "", node, path);
    if Plain(path) {
      SlashX(b, path);
    }
  }

  lemma SlashX(b: Boxes, path: Path)
    requires b.named == map["/x" := 1] && Plain(path)
    ensures Owned(b, Under("", path)) <==> path == ["x"]
  {
    SplitUnder("", path);
    SplitPlain("x");
    SplitPlain("INBOX");
    assert Split("/x") == [""] + Split("x") == ["", "x"] && Split("") == [""];
    if path == ["x"] {
      assert Under("", path) == "/x";
    }
    if Owned(b, Under("", path)) {
      assert ([""] + path)[1..] == path && ["", "x"][1..] == ["x"];
    }
  }

  /** A mailbox at `/x`, and the empty name to be renamed to `y`: the mailbox is not moved. */
  lemma EmptyNameNotRenamed(b: Boxes)
    requires b.named == map["/x" := 1]
    ensures HasNode(Tree(["/x"]), Split("")) && !HasNode(Tree(["/x"]), Split("y"))
    ensures !Renamed(b, Renaming(b, ["/x"], "", "y").boxes, "", "y")
  {
    assert "/x" != INBOX && Owned(b, "/x");
    assert "" + [DELIMITER] == ['/'] <= "/x" && AtOrBelow("/x", "");
    assert ListsKeys(["/x"], b);
    NodeExact(b, ["/x"], "");
    NodeExact(b, ["/x"], "y");
    assert !AtOrBelow("/x", "y") && !AtOrBelow(INBOX, "y");
    RenameExact(b, ["/x"], "", "y");
  }
}
