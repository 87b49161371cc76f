/** Mailbox names: a hierarchy written with a delimiter. */
module Names {
  type Name = string

  type Path = seq<string>

  const DELIMITER: char := '/'

  /** The parts between the delimiters; a name without any has one part, even the empty name. */
  function Split(name: Name): (parts: Path)
    ensures parts != []
  {
    if name == [] then [[]]
    else if name[0] == DELIMITER then [[]] + Split(name[1..])
    else
      var parts := Split(name[1..]);
      [[name[0]] + parts[0]] + parts[1..]
  }

  function Join(parts: Path): Name
    requires parts != []
  {
    if |parts| == 1 then parts[0] else parts[0] + [DELIMITER] + Join(parts[1..])
  }

  ghost predicate Plain(parts: Path) {
    forall i :: 0 <= i < |parts| ==> DELIMITER !in parts[i]
  }

  lemma {:induction false} JoinConcat(a: Path, b: Path)
    requires a != [] && b != []
    ensures Join(a + b) == Join(a) + [DELIMITER] + Join(b)
  {
    if |a| == 1 {
      assert (a + b)[1..] == b;
    } else {
      assert (a + b)[1..] == a[1..] + b;
      JoinConcat(a[1..], b);
    }
  }

  lemma {:induction false} JoinSplit(name: Name)
    ensures Join(Split(name)) == name && Plain(Split(name))
  {
    if name != [] {
      JoinSplit(name[1..]);
      var rest := Split(name[1..]);
      if name[0] == DELIMITER {
        assert Split(name)[1..] == rest;
      } else if |rest| > 1 {
        assert Split(name)[1..] == rest[1..];
      }
    }
  }

  lemma {:induction false} SplitConcat(a: Name, b: Name)
    ensures Split(a + [DELIMITER] + b) == Split(a) + Split(b)
  {
    if a == [] {
      assert a + [DELIMITER] + b == [DELIMITER] + b;
    } else {
      assert (a + [DELIMITER] + b)[1..] == a[1..] + [DELIMITER] + b;
      SplitConcat(a[1..], b);
    }
  }

  /** `name` is `top` itself or one of its inferiors. */
  predicate AtOrBelow(name: Name, top: Name) {
    name == top || top + [DELIMITER] <= name
  }

  lemma BelowParts(top: Name, rest: Name)
    ensures Split(top + [DELIMITER] + rest) == Split(top) + Split(rest)
    ensures (top + [DELIMITER] + rest)[|top| + 1..] == rest
  {
    SplitConcat(top, rest);
  }

  lemma PrefixBelow(name: Name, top: Name, rest: Path)
    requires rest != [] && Split(name) == Split(top) + rest
    ensures top + [DELIMITER] <= name
  {
    JoinSplit(name);
    JoinSplit(top);
    JoinConcat(Split(top), rest);
  }

  /** The hierarchy is the prefix order on the parts. */
  lemma {:induction false} BelowIsPrefix(name: Name, top: Name)
    ensures AtOrBelow(name, top) <==> Split(top) <= Split(name)
    ensures AtOrBelow(name, top) && name != top ==>
            Split(name) == Split(top) + Split(name[|top| + 1..])
  {
    if top + [DELIMITER] <= name {
      assert name == top + [DELIMITER] + name[|top| + 1..];
      BelowParts(top, name[|top| + 1..]);
    }
    if Split(top) <= Split(name) {
      var rest := Split(name)[|Split(top)|..];
      if rest == [] {
        JoinSplit(name);
        JoinSplit(top);
        assert Split(name) == Split(top);
      } else {
        assert Split(name) == Split(top) + rest;
        PrefixBelow(name, top, rest);
      }
    }
  }

  /** The name under `to` that corresponds to `name` under `from`. */
  function Rebase(name: Name, from: Name, to: Name): Name
    requires AtOrBelow(name, from)
  {
    to + name[|from|..]
  }

  /** The name reached from `name` by going down `path`. */
  function Under(name: Name, path: Path): Name {
    if path == [] then name else name + [DELIMITER] + Join(path)
  }

  lemma {:induction false} SplitPlain(part: string)
    requires DELIMITER !in part
    ensures Split(part) == [part]
  {
    if part != [] {
      SplitPlain(part[1..]);
      assert part[0] in part;
      assert [part[0]] + part[1..] == part;
    }
  }

  lemma {:induction false} SplitJoin(parts: Path)
    requires parts != [] && Plain(parts)
    ensures Split(Join(parts)) == parts
  {
    SplitPlain(parts[0]);
    if |parts| > 1 {
      SplitJoin(parts[1..]);
      SplitConcat(parts[0], Join(parts[1..]));
    }
  }

  /** Going down a path appends it to the parts, so different paths lead to different names. */
  lemma SplitUnder(name: Name, path: Path)
    requires Plain(path)
    ensures Split(Under(name, path)) == Split(name) + path
  {
    if path == [] {
      assert Split(name) + path == Split(name);
    } else {
      SplitJoin(path);
      SplitConcat(name, Join(path));
    }
  }

  /** Every name at or below `top` is reached by one path, and moving it keeps that path. */
  lemma UnderRebase(name: Name, top: Name, to: Name, path: Path)
    requires Plain(path) && Split(name) == Split(top) + path
    ensures AtOrBelow(name, top) && name == Under(top, path)
    ensures Rebase(name, top, to) == Under(to, path)
  {
    JoinSplit(name);
    JoinSplit(top);
    if path == [] {
      assert Split(top) + path == Split(top);
    } else {
      JoinConcat(Split(top), path);
    }
  }
}
