/** The file system as a value: a tree of directories whose leaves are regular
    files and symbolic links. A path is the list of its components below the
    root (`[]` is `/`). Queries here never follow symbolic links.

    The functions at the end are the file operations src/file.rs builds on,
    each as a function from the old tree to the new one or an error:
    `fs::rename`, `fs::remove_file`, the Unix `symlink` and
    `fs::create_dir_all`, and mise's own `file::remove_dir` and
    `file::remove_all`. Each says what it leaves at its path and, through
    `ChangedOnlyAt`, that nothing off that path changes. The class in
    FileSystem applies them one call at a time. */
module FileTree {
  import opened Wrappers

  type Name = string
  type Path = seq<Name>
  type Listing = map<Name, Node>

  datatype Node =
    | File(executable: bool)
    | Dir(children: Listing)
    | Symlink(target: Path)

  function Parent(p: Path): Path
    requires p != []
  {
    p[..|p| - 1]
  }

  function BaseName(p: Path): Name
    requires p != []
  {
    p[|p| - 1]
  }

  /** The node found at `p` below `t`, walking only through directories. */
  function Lookup(t: Node, p: Path): Option<Node>
    decreases |p|
  {
    if p == [] then Some(t)
    else if t.Dir? && p[0] in t.children then Lookup(t.children[p[0]], p[1..])
    else None
  }

  predicate Exists(t: Node, p: Path) { Lookup(t, p).Some? }
  predicate IsDirAt(t: Node, p: Path) { Lookup(t, p).Some? && Lookup(t, p).value.Dir? }
  predicate IsFileAt(t: Node, p: Path) { Lookup(t, p).Some? && Lookup(t, p).value.File? }
  predicate IsSymlinkAt(t: Node, p: Path) { Lookup(t, p).Some? && Lookup(t, p).value.Symlink? }

  /** The entries of the directory at `d` (none when `d` is not a directory). */
  function ChildrenAt(t: Node, d: Path): Listing
  {
    if IsDirAt(t, d) then Lookup(t, d).value.children else map[]
  }

  /** The tree in which the directory at `d` holds exactly `cs`; every other
      directory is untouched. When `d` is not a directory the tree is returned
      unchanged. */
  function Update(t: Node, d: Path, cs: Listing): (r: Node)
    ensures IsDirAt(t, d) ==> Lookup(r, d) == Some(Dir(cs))
    ensures !IsDirAt(t, d) ==> r == t
    ensures t.Dir? <==> r.Dir?
    decreases |d|
  {
    if d == [] then (if t.Dir? then Dir(cs) else t)
    else if t.Dir? && d[0] in t.children then
      Dir(t.children[d[0] := Update(t.children[d[0]], d[1..], cs)])
    else t
  }

  /** The tree without the entry at `p`. */
  function Detach(t: Node, p: Path): Node
    requires p != []
  {
    Update(t, Parent(p), ChildrenAt(t, Parent(p)) - {BaseName(p)})
  }

  /** The tree with `x` stored as the entry at `p`. */
  function Put(t: Node, p: Path, x: Node): Node
    requires p != []
  {
    Update(t, Parent(p), ChildrenAt(t, Parent(p))[BaseName(p) := x])
  }

  // ---- facts about the tree operations ----

  lemma {:induction false} LookupAppend(t: Node, a: Path, b: Path)
    ensures Lookup(t, a + b) == (if Lookup(t, a).Some? then Lookup(Lookup(t, a).value, b) else None)
    decreases |a|
  {
    if a == [] {
      assert a + b == b;
    } else {
      assert (a + b)[0] == a[0] && (a + b)[1..] == a[1..] + b;
      if t.Dir? && a[0] in t.children {
        LookupAppend(t.children[a[0]], a[1..], b);
      }
    }
  }

  lemma {:induction false} UpdateTwice(t: Node, d: Path, a: Listing, b: Listing)
    ensures Update(Update(t, d, a), d, b) == Update(t, d, b)
    decreases |d|
  {
    if d != [] && t.Dir? && d[0] in t.children {
      UpdateTwice(t.children[d[0]], d[1..], a, b);
    }
  }

  lemma {:induction false} UpdateSame(t: Node, d: Path)
    requires IsDirAt(t, d)
    ensures Update(t, d, ChildrenAt(t, d)) == t
    decreases |d|
  {
    if d != [] {
      UpdateSame(t.children[d[0]], d[1..]);
    }
  }

  /** Setting the children of `d + [w]` is setting the entry `w` of `d`. */
  lemma {:induction false} UpdateNested(t: Node, d: Path, w: Name, x: Listing)
    requires IsDirAt(t, d + [w])
    ensures IsDirAt(t, d)
    ensures Update(t, d + [w], x) == Update(t, d, ChildrenAt(t, d)[w := Dir(x)])
    decreases |d|
  {
    LookupAppend(t, d, [w]);
    if d == [] {
      assert [w][1..] == [];
    } else {
      assert (d + [w])[0] == d[0] && (d + [w])[1..] == d[1..] + [w];
      UpdateNested(t.children[d[0]], d[1..], w, x);
    }
  }

  /** A path that does not lie below `d` sees the same node after `d`'s
      children are replaced. */
  lemma {:induction false} LookupUpdateOutside(t: Node, d: Path, cs: Listing, q: Path)
    requires !(d <= q) && !(q <= d)
    ensures Lookup(Update(t, d, cs), q) == Lookup(t, q)
    decreases |q|
  {
    if q != [] && d != [] && t.Dir? && d[0] in t.children && q[0] == d[0] {
      assert !(d[1..] <= q[1..]) && !(q[1..] <= d[1..]);
      LookupUpdateOutside(t.children[d[0]], d[1..], cs, q[1..]);
    }
  }

  /** Replacing the children of `d` keeps every directory on the way to `d`
      a directory. */
  lemma {:induction false} UpdateKeepsAncestors(t: Node, d: Path, cs: Listing, q: Path)
    requires IsDirAt(t, q) && q <= d
    ensures IsDirAt(Update(t, d, cs), q)
    decreases |q|
  {
    if q != [] {
      assert d[0] == q[0] && q[1..] <= d[1..];
      UpdateKeepsAncestors(t.children[d[0]], d[1..], cs, q[1..]);
    }
  }

  /** The node at `d + [n]` once `d` holds `cs`. */
  lemma LookupChild(t: Node, d: Path, cs: Listing, n: Name)
    requires IsDirAt(t, d)
    ensures Lookup(Update(t, d, cs), d + [n]) == (if n in cs then Some(cs[n]) else None)
  {
    LookupAppend(Update(t, d, cs), d, [n]);
  }

  /** Moving `d/w/c` up to `d/c`, when `d/c` is free, only changes `d`'s
      listing: `c` leaves `w` and becomes an entry of `d`. */
  lemma RenameUp(t: Node, d: Path, cs: Listing, w: Name, c: Name)
    requires Lookup(t, d) == Some(Dir(cs))
    requires w in cs && cs[w].Dir? && c in cs[w].children && c !in cs
    ensures Rename(t, d + [w, c], d + [c])
      == Ok(Update(t, d, cs[w := Dir(cs[w].children - {c})][c := cs[w].children[c]]))
  {
    var ws := cs[w].children;
    var from, to := d + [w, c], d + [c];
    assert Parent(to) == d && BaseName(to) == c;
    assert Parent(from) == d + [w] && BaseName(from) == c;
    LookupAppend(t, d, [w, c]);
    LookupAppend(t, d, [w]);
    LookupAppend(t, d, [c]);
    assert [w, c][1..] == [c] && [c][1..] == [];
    assert Lookup(cs[w], [c]) == Some(ws[c]);
    assert Lookup(Dir(cs), [w, c]) == Lookup(cs[w], [c]);
    assert Lookup(t, from) == Some(ws[c]);
    assert Lookup(t, to) == None;
    assert !(from <= to);
    assert from[|d|] != to[|d|];
    UpdateNested(t, d, w, ws - {c});
    var t1 := Update(t, d, cs[w := Dir(ws - {c})]);
    assert Detach(t, from) == t1;
    UpdateTwice(t, d, cs[w := Dir(ws - {c})], cs[w := Dir(ws - {c})][c := ws[c]]);
  }

  // ---- what an operation at one path leaves alone ----

  /** `r` differs from `t` at most at `p`, below `p`, and in the listings of
      the directories on the way to `p`, which stay directories: every path
      that is neither an ancestor of `p`, `p` itself nor below it keeps its
      node. */
  ghost predicate ChangedOnlyAt(t: Node, r: Node, p: Path)
  {
    (forall q :: !(q <= p) && !(p <= q) ==> Lookup(r, q) == Lookup(t, q))
    && (forall q :: q < p && IsDirAt(t, q) ==> IsDirAt(r, q))
  }

  /** Giving directory `d` a listing that differs from its own at most in
      the entry `b` changes the tree only at `d + [b]`. */
  lemma UpdateElsewhere(t: Node, d: Path, cs: Listing, b: Name)
    requires IsDirAt(t, d) && cs - {b} == ChildrenAt(t, d) - {b}
    ensures ChangedOnlyAt(t, Update(t, d, cs), d + [b])
  {
    var r := Update(t, d, cs);
    var p := d + [b];
    var old_cs := ChildrenAt(t, d);
    forall q | !(q <= p) && !(p <= q)
      ensures Lookup(r, q) == Lookup(t, q)
    {
      if d < q {
        var k := |d|;
        assert q[..k + 1] == d + [q[k]];
        assert q[k] != b;
        assert d + q[k..] == q;
        LookupAppend(r, d, q[k..]);
        LookupAppend(t, d, q[k..]);
        assert Lookup(t, d) == Some(Dir(old_cs));
        var n := q[k];
        assert n in cs <==> n in old_cs by {
          assert n in cs <==> n in cs - {b};
          assert n in old_cs <==> n in old_cs - {b};
        }
        if n in cs {
          assert cs[n] == (cs - {b})[n] == (old_cs - {b})[n] == old_cs[n];
        }
      } else {
        assert q <= d ==> q <= p;
        LookupUpdateOutside(t, d, cs, q);
      }
    }
    forall q | q < p && IsDirAt(t, q)
      ensures IsDirAt(r, q)
    {
      assert q <= d;
      UpdateKeepsAncestors(t, d, cs, q);
    }
  }

  /** Removing the entry at `p` leaves nothing there and changes nothing
      else. */
  lemma DetachFacts(t: Node, p: Path)
    requires p != []
    ensures !Exists(Detach(t, p), p)
    ensures ChangedOnlyAt(t, Detach(t, p), p)
  {
    assert Parent(p) + [BaseName(p)] == p;
    LookupAppend(t, Parent(p), [BaseName(p)]);
    if IsDirAt(t, Parent(p)) {
      var cs := ChildrenAt(t, Parent(p));
      LookupChild(t, Parent(p), cs - {BaseName(p)}, BaseName(p));
      UpdateElsewhere(t, Parent(p), cs - {BaseName(p)}, BaseName(p));
    }
  }

  /** Storing `x` at `p`, whose parent is a directory, puts it there and
      changes nothing else. */
  lemma PutFacts(t: Node, p: Path, x: Node)
    requires p != []
    ensures IsDirAt(t, Parent(p)) ==> Lookup(Put(t, p, x), p) == Some(x)
    ensures ChangedOnlyAt(t, Put(t, p, x), p)
  {
    assert Parent(p) + [BaseName(p)] == p;
    if IsDirAt(t, Parent(p)) {
      var cs := ChildrenAt(t, Parent(p));
      LookupChild(t, Parent(p), cs[BaseName(p) := x], BaseName(p));
      UpdateElsewhere(t, Parent(p), cs[BaseName(p) := x], BaseName(p));
    }
  }

  // ---- the file primitives ----

  /** `fs::rename(from, to)` (POSIX rename): the source must exist and the
      target's parent must be a directory; renaming onto itself does nothing;
      a directory cannot move below itself nor onto its own ancestor; an
      existing target is replaced when both are directories and the target
      is empty, or when neither is a directory; every other clash fails. */
  function Rename(t: Node, from: Path, to: Path): (r: Result<Node>)
    ensures r.Ok? ==> from != [] && to != [] && Exists(t, from) && IsDirAt(t, Parent(to)) && !(from < to)
    ensures r.Ok? && from != to ==> Lookup(r.value, to) == Lookup(t, from) && !Exists(r.value, from)
    ensures r.Ok? ==> forall q :: !(q <= from) && !(from <= q) && !(q <= to) && !(to <= q) ==>
      Lookup(r.value, q) == Lookup(t, q)
  {
    if from == [] || to == [] then Err("rename: the root cannot be renamed or replaced")
    else if !Exists(t, from) then Err("rename: no such file or directory")
    else if !IsDirAt(t, Parent(to)) then Err("rename: target directory does not exist")
    else if from == to then Ok(t)
    else if from <= to then Err("rename: cannot move a directory below itself")
    else if to <= from then Err("rename: target directory is not empty")
    else
      var node := Lookup(t, from).value;
      MoveFacts(t, from, to, node);
      match Lookup(t, to)
      case None => Ok(Put(Detach(t, from), to, node))
      case Some(existing) =>
        if node.Dir? && existing == Dir(map[]) then Ok(Put(Detach(t, from), to, node))
        else if !node.Dir? && !existing.Dir? then Ok(Put(Detach(t, from), to, node))
        else Err("rename: target exists")
  }

  /** Detaching `from` and storing its node at `to`, when neither lies on the
      other's path and the target's parent is a directory. */
  lemma MoveFacts(t: Node, from: Path, to: Path, node: Node)
    requires from != [] && to != [] && !(from <= to) && !(to <= from)
    requires IsDirAt(t, Parent(to))
    ensures Lookup(Put(Detach(t, from), to, node), to) == Some(node)
    ensures !Exists(Put(Detach(t, from), to, node), from)
    ensures forall q :: !(q <= from) && !(from <= q) && !(q <= to) && !(to <= q) ==>
      Lookup(Put(Detach(t, from), to, node), q) == Lookup(t, q)
  {
    var d := Detach(t, from);
    DetachFacts(t, from);
    PutFacts(d, to, node);
    assert Parent(to) <= to;
    if Parent(to) < from {
      assert IsDirAt(d, Parent(to));
    } else {
      assert !(from <= Parent(to));
      assert Lookup(d, Parent(to)) == Lookup(t, Parent(to));
    }
  }

  /** `fs::remove_file`: unlinks a file or a symbolic link. */
  function Unlink(t: Node, p: Path): (r: Result<Node>)
    ensures r.Ok? <==> p != [] && Exists(t, p) && !IsDirAt(t, p)
    ensures r.Ok? ==> !Exists(r.value, p) && ChangedOnlyAt(t, r.value, p)
  {
    if p != [] && Exists(t, p) && !IsDirAt(t, p) then
      DetachFacts(t, p);
      Ok(Detach(t, p))
    else Err("rm: not a file")
  }

  /** `std::os::unix::fs::symlink(target, link)`: creates a new link; fails
      when the link path is taken or its parent is not a directory. */
  function CreateSymlink(t: Node, target: Path, link: Path): (r: Result<Node>)
    ensures r.Ok? <==> link != [] && IsDirAt(t, Parent(link)) && !Exists(t, link)
    ensures r.Ok? ==> Lookup(r.value, link) == Some(Symlink(target)) && ChangedOnlyAt(t, r.value, link)
  {
    if link != [] && IsDirAt(t, Parent(link)) && !Exists(t, link) then
      PutFacts(t, link, Symlink(target));
      Ok(Put(t, link, Symlink(target)))
    else Err("ln -s: cannot create link")
  }

  /** A chain of fresh empty directories along `p`. */
  function Chain(p: Path): (r: Node)
    ensures IsDirAt(r, p)
    decreases |p|
  {
    if p == [] then Dir(map[]) else Dir(map[p[0] := Chain(p[1..])])
  }

  /** `fs::create_dir_all(p)` below `t`: creates every missing directory on
      the way; fails when an existing component is not a directory. */
  function MakeDirs(t: Node, p: Path): (r: Result<Node>)
    ensures r.Ok? ==> IsDirAt(r.value, p)
    ensures r.Ok? <==> (forall k :: 0 <= k <= |p| && Exists(t, p[..k]) ==> IsDirAt(t, p[..k]))
    decreases |p|
  {
    if !t.Dir? then
      assert p[..0] == [];
      Err("mkdir -p: not a directory")
    else if p == [] then Ok(t)
    else
      var sub := if p[0] in t.children then MakeDirs(t.children[p[0]], p[1..]) else Ok(Chain(p[1..]));
      PrefixesBelow(t, p);
      if sub.Err? then
        var k' :| 0 <= k' <= |p[1..]| && Exists(t.children[p[0]], p[1..][..k']) && !IsDirAt(t.children[p[0]], p[1..][..k']);
        assert Exists(t, p[..k' + 1]) && !IsDirAt(t, p[..k' + 1]);
        Err(sub.msg)
      else Ok(Dir(t.children[p[0] := sub.value]))
  }

  /** A fresh chain holds nothing off its own path. */
  lemma {:induction false} ChainHoldsOnlyItsPath(p: Path, q: Path)
    requires !(q <= p) && !(p <= q)
    ensures Lookup(Chain(p), q) == None
    decreases |p|
  {
    if q != [] && p != [] && q[0] == p[0] {
      assert !(q[1..] <= p[1..]) && !(p[1..] <= q[1..]);
      ChainHoldsOnlyItsPath(p[1..], q[1..]);
    }
  }

  /** `create_dir_all` changes the tree only along `p`, and not at all when
      `p` already is a directory. */
  lemma {:induction false} MakeDirsFrame(t: Node, p: Path)
    requires MakeDirs(t, p).Ok?
    ensures ChangedOnlyAt(t, MakeDirs(t, p).value, p)
    ensures IsDirAt(t, p) ==> MakeDirs(t, p).value == t
    decreases |p|
  {
    if p != [] {
      var r := MakeDirs(t, p).value;
      var inside := p[0] in t.children;
      if inside {
        MakeDirsFrame(t.children[p[0]], p[1..]);
      }
      var sub := if inside then MakeDirs(t.children[p[0]], p[1..]).value else Chain(p[1..]);
      assert r == Dir(t.children[p[0] := sub]);
      forall q | !(q <= p) && !(p <= q)
        ensures Lookup(r, q) == Lookup(t, q)
      {
        if q[0] == p[0] {
          assert !(q[1..] <= p[1..]) && !(p[1..] <= q[1..]);
          if !inside {
            ChainHoldsOnlyItsPath(p[1..], q[1..]);
          }
        }
      }
      forall q | q < p && IsDirAt(t, q)
        ensures IsDirAt(r, q)
      {
        if q != [] {
          assert q[0] == p[0] && q[1..] < p[1..];
          assert inside && IsDirAt(t.children[p[0]], q[1..]);
          assert IsDirAt(sub, q[1..]);
        }
      }
    }
  }

  /** How the prefixes of a non-empty path relate to the subtree of its
      first component. */
  lemma PrefixesBelow(t: Node, p: Path)
    requires t.Dir? && p != []
    ensures forall k :: 1 <= k <= |p| ==> p[..k] == [p[0]] + p[1..][..k - 1]
    ensures forall k :: 1 <= k <= |p| ==>
      Lookup(t, p[..k]) == (if p[0] in t.children then Lookup(t.children[p[0]], p[1..][..k - 1]) else None)
  {
    forall k | 1 <= k <= |p|
      ensures p[..k] == [p[0]] + p[1..][..k - 1]
    {
    }
    forall k | 1 <= k <= |p|
      ensures Lookup(t, p[..k]) == (if p[0] in t.children then Lookup(t.children[p[0]], p[1..][..k - 1]) else None)
    {
      assert p[..k][0] == p[0] && p[..k][1..] == p[1..][..k - 1];
    }
  }

  /** `file::remove_dir`: removes the directory at `p` only when it exists and
      is empty; a missing path is not an error; listing a non-directory is. */
  function RemoveDir(t: Node, p: Path): (r: Result<Node>)
    ensures !Exists(t, p) ==> r == Ok(t)
    ensures IsDirAt(t, p) && Lookup(t, p).value.children != map[] ==> r == Ok(t)
    ensures Exists(t, p) && !IsDirAt(t, p) ==> r.Err?
    ensures p != [] && Lookup(t, p) == Some(Dir(map[])) ==> r.Ok? && !Exists(r.value, p)
    ensures r.Ok? ==> ChangedOnlyAt(t, r.value, p)
  {
    match Lookup(t, p)
    case None => Ok(t)
    case Some(n) =>
      if !n.Dir? then Err("failed to remove_dir: not a directory")
      else if n.children != map[] then Ok(t)
      else if p == [] then Err("failed to remove_dir: the root cannot be removed")
      else
        DetachFacts(t, p);
        Ok(Detach(t, p))
  }

  /** `file::remove_all`: a missing path is left alone, a file or a link is
      unlinked, a directory is removed with everything below it. */
  function RemoveAll(t: Node, p: Path): (r: Result<Node>)
    ensures !Exists(t, p) ==> r == Ok(t)
    ensures p != [] && Exists(t, p) ==> r.Ok? && !Exists(r.value, p)
    ensures r.Ok? ==> ChangedOnlyAt(t, r.value, p)
  {
    match Lookup(t, p)
    case None => Ok(t)
    case Some(n) =>
      if p == [] then Err("failed rm -rf: the root cannot be removed")
      else
        DetachFacts(t, p);
        Ok(Detach(t, p))
  }
}
