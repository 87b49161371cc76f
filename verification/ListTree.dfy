/** The tree of mailbox names, and the list of renames it gives. */
module ListTree {
  import opened Collections
  import opened Names

  /** A node with its children in the order in which they were added. */
  datatype Node = Node(exists': bool, children: Forest)

  datatype Forest = NoChild | Child(name: string, node: Node, rest: Forest)

  const EMPTY_NODE: Node := Node(false, NoChild)

  /** Marks the node at the path as existing, adding the nodes that are missing on the way. */
  function Add(node: Node, extra: Path): Node
    decreases |extra|, node, 1
  {
    if extra == [] then node.(exists' := true) else node.(children := AddChild(node.children, extra))
  }

  function AddChild(children: Forest, parts: Path): Forest
    requires parts != []
    decreases |parts|, children, 0
  {
    match children
    case NoChild => Child(parts[0], Add(EMPTY_NODE, parts[1..]), NoChild)
    case Child(name, node, rest) =>
      if name == parts[0] then Child(name, Add(node, parts[1..]), rest)
      else Child(name, node, AddChild(rest, parts))
  }

  function Lookup(children: Forest, name: string): Option<Node> {
    match children
    case NoChild => None
    case Child(n, node, rest) => if n == name then Some(node) else Lookup(rest, name)
  }

  function Find(node: Node, parts: Path): Option<Node>
    decreases |parts|
  {
    if parts == [] then Some(node)
    else
      match Lookup(node.children, parts[0])
      case None => None
      case Some(child) => Find(child, parts[1..])
  }

  predicate HasNode(node: Node, parts: Path) {
    Find(node, parts).Some?
  }

  predicate Exists(node: Node, parts: Path) {
    HasNode(node, parts) && Find(node, parts).value.exists'
  }

  function Old(children: Forest, name: string): Node {
    match Lookup(children, name)
    case None => EMPTY_NODE
    case Some(node) => node
  }

  lemma {:induction false} LookupAdd(children: Forest, parts: Path, name: string)
    requires parts != []
    ensures name != parts[0] ==> Lookup(AddChild(children, parts), name) == Lookup(children, name)
    ensures name == parts[0] ==> Lookup(AddChild(children, parts), name) == Some(Add(Old(children, name), parts[1..]))
  {
    match children
    case NoChild =>
    case Child(n, _, rest) =>
      if n != parts[0] {
        LookupAdd(rest, parts, name);
      }
  }

  lemma EmptyHasNone(path: Path)
    requires path != []
    ensures !HasNode(EMPTY_NODE, path)
  {
  }

  /** Adding a name makes exactly that node exist, and adds exactly the nodes above it. */
  lemma {:induction false} AddFinds(node: Node, extra: Path, path: Path)
    ensures HasNode(Add(node, extra), path) <==> HasNode(node, path) || path <= extra
    ensures Exists(Add(node, extra), path) <==> Exists(node, path) || path == extra
    decreases |extra|
  {
    if extra != [] && path != [] {
      LookupAdd(node.children, extra, path[0]);
      if path[0] == extra[0] {
        AddFinds(Old(node.children, path[0]), extra[1..], path[1..]);
        if path[1..] != [] {
          EmptyHasNone(path[1..]);
        }
        assert path <= extra <==> path[1..] <= extra[1..];
        assert path == extra <==> path[1..] == extra[1..];
      }
    }
  }

  /** The tree of a list of names. */
  function Build(names: seq<Name>): Node {
    if names == [] then EMPTY_NODE
    else Add(Build(names[..|names| - 1]), Split(names[|names| - 1]))
  }

  /** The path leads to one of the names or to a superior of one. */
  ghost predicate LeadsTo(names: seq<Name>, path: Path) {
    exists name :: name in names && path <= Split(name)
  }

  ghost predicate IsNamed(names: seq<Name>, path: Path) {
    exists name :: name in names && path == Split(name)
  }

  lemma NamedLast(names: seq<Name>, last: Name, path: Path)
    ensures LeadsTo(names + [last], path) <==> LeadsTo(names, path) || path <= Split(last)
    ensures IsNamed(names + [last], path) <==> IsNamed(names, path) || path == Split(last)
  {
    var all := names + [last];
    assert last in all && forall name :: name in all <==> name in names || name == last;
  }

  /** The tree holds exactly the given names, and a node for each of their superiors. */
  lemma {:induction false} BuildFinds(names: seq<Name>, path: Path)
    requires path != []
    ensures HasNode(Build(names), path) <==> LeadsTo(names, path)
    ensures Exists(Build(names), path) <==> IsNamed(names, path)
  {
    if names == [] {
      EmptyHasNone(path);
    } else {
      var last := |names| - 1;
      BuildFinds(names[..last], path);
      AddFinds(Build(names[..last]), Split(names[last]), path);
      NamedLast(names[..last], names[last], path);
      assert names[..last] + [names[last]] == names;
    }
  }

  /** Brothers have different names, and no name holds the delimiter. */
  predicate TidyNode(node: Node) {
    Tidy(node.children)
  }

  predicate Tidy(children: Forest) {
    match children
    case NoChild => true
    case Child(name, node, rest) =>
      DELIMITER !in name && Lookup(rest, name).None? && TidyNode(node) && Tidy(rest)
  }

  lemma {:induction false} AddTidy(node: Node, extra: Path)
    requires TidyNode(node) && Plain(extra)
    ensures TidyNode(Add(node, extra))
    decreases |extra|, node, 1
  {
    if extra != [] {
      AddChildTidy(node.children, extra);
    }
  }

  lemma {:induction false} AddChildTidy(children: Forest, parts: Path)
    requires parts != [] && Tidy(children) && Plain(parts)
    ensures Tidy(AddChild(children, parts))
    decreases |parts|, children, 0
  {
    match children
    case NoChild => AddTidy(EMPTY_NODE, parts[1..]);
    case Child(name, node, rest) =>
      if name == parts[0] {
        AddTidy(node, parts[1..]);
      } else {
        AddChildTidy(rest, parts);
        LookupAdd(rest, parts, name);
      }
  }

  lemma {:induction false} BuildTidy(names: seq<Name>)
    ensures TidyNode(Build(names))
  {
    if names != [] {
      var last := |names| - 1;
      BuildTidy(names[..last]);
      JoinSplit(names[last]);
      AddTidy(Build(names[..last]), Split(names[last]));
    }
  }

  /** The name of a child as the listing writes it: no delimiter goes after an empty name. */
  function ChildName(name: Name, child: string): Name {
    if name != [] then name + [DELIMITER] + child else child
  }

  /** The names of the existing nodes at and below `node`, a parent before its children. */
  function NamesBelow(node: Node, name: Name): seq<Name>
    decreases node
  {
    (if node.exists' then [name] else []) + NamesOfChildren(node.children, name)
  }

  function NamesOfChildren(children: Forest, name: Name): seq<Name>
    decreases children
  {
    match children
    case NoChild => []
    case Child(child, node, rest) => NamesBelow(node, ChildName(name, child)) + NamesOfChildren(rest, name)
  }

  /** The paths that lead from `node` to the existing nodes at and below it. */
  function Paths(node: Node): seq<Path>
    decreases node
  {
    (if node.exists' then [[]] else []) + PathsOfChildren(node.children)
  }

  function PathsOfChildren(children: Forest): seq<Path>
    decreases children
  {
    match children
    case NoChild => []
    case Child(child, node, rest) => Prefixed(child, Paths(node)) + PathsOfChildren(rest)
  }

  function Prefixed(part: string, paths: seq<Path>): (all: seq<Path>)
    ensures |all| == |paths|
    ensures forall i :: 0 <= i < |paths| ==> all[i] == [part] + paths[i]
  {
    seq(|paths|, i requires 0 <= i < |paths| => [part] + paths[i])
  }

  /** The name that the listing writes for a path. */
  function Written(name: Name, path: Path): Name
    decreases |path|
  {
    if path == [] then name else Written(ChildName(name, path[0]), path[1..])
  }

  function WriteAll(name: Name, paths: seq<Path>): (names: seq<Name>)
    ensures |names| == |paths|
    ensures forall i :: 0 <= i < |paths| ==> names[i] == Written(name, paths[i])
  {
    seq(|paths|, i requires 0 <= i < |paths| => Written(name, paths[i]))
  }

  lemma WritePrefixed(name: Name, child: string, paths: seq<Path>)
    ensures WriteAll(name, Prefixed(child, paths)) == WriteAll(ChildName(name, child), paths)
  {
    forall i | 0 <= i < |paths|
      ensures WriteAll(name, Prefixed(child, paths))[i] == WriteAll(ChildName(name, child), paths)[i]
    {
      assert ([child] + paths[i])[1..] == paths[i];
    }
  }

  lemma WriteConcat(name: Name, first: seq<Path>, second: seq<Path>)
    ensures WriteAll(name, first + second) == WriteAll(name, first) + WriteAll(name, second)
  {
  }

  lemma WriteHere(name: Name)
    ensures WriteAll(name, [[]]) == [name]
  {
  }

  lemma {:induction false} NamesArePaths(node: Node, name: Name)
    ensures NamesBelow(node, name) == WriteAll(name, Paths(node))
    decreases node
  {
    NamesOfChildrenArePaths(node.children, name);
    WriteHere(name);
    WriteConcat(name, if node.exists' then [[]] else [], PathsOfChildren(node.children));
  }

  lemma {:induction false} NamesOfChildrenArePaths(children: Forest, name: Name)
    ensures NamesOfChildren(children, name) == WriteAll(name, PathsOfChildren(children))
    decreases children
  {
    match children
    case NoChild =>
    case Child(child, node, rest) =>
      NamesArePaths(node, ChildName(name, child));
      WritePrefixed(name, child, Paths(node));
      NamesOfChildrenArePaths(rest, name);
      WriteConcat(name, Prefixed(child, Paths(node)), PathsOfChildren(rest));
  }

  /** The listing writes the right name unless it starts at an empty name and goes down. */
  lemma {:induction false} WrittenIsUnder(name: Name, path: Path)
    requires name != []
    ensures Written(name, path) == Under(name, path)
    decreases |path|
  {
    if path != [] {
      WrittenIsUnder(ChildName(name, path[0]), path[1..]);
    }
  }

  lemma PrefixedHas(part: string, paths: seq<Path>, path: Path)
    ensures path in Prefixed(part, paths) <==> path != [] && path[0] == part && path[1..] in paths
  {
    var all := Prefixed(part, paths);
    if path in all {
      var i :| 0 <= i < |all| && all[i] == path;
      assert ([part] + paths[i])[1..] == paths[i];
    }
    if path != [] && path[0] == part && path[1..] in paths {
      var i :| 0 <= i < |paths| && paths[i] == path[1..];
      assert path == [part] + path[1..];
      assert all[i] == path;
    }
  }

  lemma {:induction false} LookupTidy(children: Forest, name: string)
    requires Tidy(children) && Lookup(children, name).Some?
    ensures DELIMITER !in name && TidyNode(Lookup(children, name).value)
  {
    if children.name != name {
      LookupTidy(children.rest, name);
    }
  }

  lemma {:induction false} ExistsPlain(node: Node, path: Path)
    requires TidyNode(node) && HasNode(node, path)
    ensures Plain(path)
    decreases |path|
  {
    if path != [] {
      LookupTidy(node.children, path[0]);
      ExistsPlain(Lookup(node.children, path[0]).value, path[1..]);
      assert forall i :: 0 < i < |path| ==> path[i] == path[1..][i - 1];
    }
  }

  /** The walk meets each existing node once. */
  lemma {:induction false} PathsExact(node: Node, path: Path)
    requires TidyNode(node)
    ensures path in Paths(node) <==> Exists(node, path)
    decreases node
  {
    PathsOfChildrenExact(node.children, path);
  }

  lemma {:induction false} PathsOfChildrenExact(children: Forest, path: Path)
    requires Tidy(children)
    ensures path in PathsOfChildren(children) <==>
            path != [] && Lookup(children, path[0]).Some? && Exists(Lookup(children, path[0]).value, path[1..])
    decreases children
  {
    match children
    case NoChild =>
    case Child(child, node, rest) =>
      PrefixedHas(child, Paths(node), path);
      PathsOfChildrenExact(rest, path);
      if path != [] {
        PathsExact(node, path[1..]);
      }
  }

  lemma {:induction false} PathsOnce(node: Node)
    requires TidyNode(node)
    ensures NoDuplicates(Paths(node))
    decreases node
  {
    PathsOfChildrenOnce(node.children);
    PathsOfChildrenExact(node.children, []);
  }

  lemma {:induction false} PathsOfChildrenOnce(children: Forest)
    requires Tidy(children)
    ensures NoDuplicates(PathsOfChildren(children))
    decreases children
  {
    match children
    case NoChild =>
    case Child(child, node, rest) =>
      PathsOnce(node);
      PathsOfChildrenOnce(rest);
      var first, second := Prefixed(child, Paths(node)), PathsOfChildren(rest);
      PrefixedOnce(child, Paths(node));
      forall path ensures !(path in first && path in second) {
        PrefixedHas(child, Paths(node), path);
        PathsOfChildrenExact(rest, path);
      }
      ConcatOnce(first, second);
  }

  lemma PrefixedOnce(part: string, paths: seq<Path>)
    requires NoDuplicates(paths)
    ensures NoDuplicates(Prefixed(part, paths))
  {
    var all := Prefixed(part, paths);
    forall i, j | 0 <= i < j < |all|
      ensures all[i] != all[j]
    {
      assert ([part] + paths[i])[1..] == paths[i];
      assert ([part] + paths[j])[1..] == paths[j];
    }
  }

  lemma ConcatOnce(first: seq<Path>, second: seq<Path>)
    requires NoDuplicates(first) && NoDuplicates(second)
    requires forall path :: !(path in first && path in second)
    ensures NoDuplicates(first + second)
  {
    forall i, j | 0 <= i < j < |first + second|
      ensures (first + second)[i] != (first + second)[j]
    {
      if i < |first| <= j {
        assert first[i] in first && second[j - |first|] in second;
      }
    }
  }
}
