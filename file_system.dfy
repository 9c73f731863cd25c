/** The operations of src/file.rs that change the file system one call at a
    time: a `FileSystem` object owns the whole tree and its methods apply the
    primitives of FileTree in the order the source issues them, stopping at
    the first error as `?` does. */
module Files {
  import opened Wrappers
  import opened FileTree
  import opened ArchiveFormat

  // ---- strip_archive_path_components ----

  /** Lifting the entries of the top-level directories of `top` lands no two
      of them on the same name and none on a name already used at the top. */
  predicate NoClash(top: Listing)
  {
    ChildrenAvoidTop(top)
    && (forall w1, w2, c ::
          (w1 in top && w2 in top && top[w1].Dir? && top[w2].Dir?
           && c in top[w1].children && c in top[w2].children) ==> w1 == w2)
  }

  /** No entry of a top-level directory has the name of a top-level entry. */
  predicate ChildrenAvoidTop(top: Listing)
  {
    forall w, c :: w in top && top[w].Dir? && c in top[w].children ==> c !in top
  }

  /** `after` is `top` with one level of directories taken away: every
      top-level entry that is not a directory stays as it was, every entry of
      a top-level directory now sits at the top with its own name and
      content, and nothing else is there (the directories themselves are
      gone). */
  predicate IsStripped(top: Listing, after: Listing)
  {
    (forall n :: n in top && !top[n].Dir? ==> n in after && after[n] == top[n])
    && (forall w, c :: w in top && top[w].Dir? && c in top[w].children ==>
          c in after && after[c] == top[w].children[c])
    && (forall n :: n in after ==>
          (n in top && !top[n].Dir?) || exists w :: w in top && top[w].Dir? && n in top[w].children)
  }

  /** An archive whose only top-level entry is the directory `w` strips to
      exactly the contents of `w`, unless `w` holds an entry named `w`
      itself. */
  lemma {:induction false} StripSingleDirectory(w: Name, cs: Listing, after: Listing)
    ensures NoClash(map[w := Dir(cs)]) <==> w !in cs
    ensures IsStripped(map[w := Dir(cs)], after) ==> after == cs
  {
    var top := map[w := Dir(cs)];
    if IsStripped(top, after) {
      forall n | n in after
        ensures n in cs && after[n] == cs[n]
      {
        var w' :| w' in top && top[w'].Dir? && n in top[w'].children;
      }
      forall n | n in cs
        ensures n in after
      {
        assert n in top[w].children;
      }
      assert after.Keys == cs.Keys;
    }
  }

  /** The state of the entry-lifting loop: `pending` holds the pairs
      (top-level directory, entry) not yet moved; `cur` is the listing of the
      destination. */
  ghost predicate Lifting(top: Listing, pending: set<(Name, Name)>, cur: Listing)
  {
    (forall n :: n in top && !top[n].Dir? ==> n in cur && cur[n] == top[n])
    && (forall w :: w in top && top[w].Dir? ==> w in cur && cur[w].Dir?)
    && (forall w, c :: w in top && top[w].Dir? && w in cur && cur[w].Dir? && c in cur[w].children ==>
          (w, c) in pending && c in top[w].children && cur[w].children[c] == top[w].children[c])
    && (forall w, c :: (w, c) in pending ==>
          w in top && top[w].Dir? && c in top[w].children && w in cur && cur[w].Dir? && c in cur[w].children)
    && (forall w, c :: w in top && top[w].Dir? && c in top[w].children && (w, c) !in pending ==>
          c in cur && cur[c] == top[w].children[c])
    && (forall n :: n in cur ==>
          n in top || exists w :: w in top && top[w].Dir? && n in top[w].children && (w, n) !in pending)
  }

  /** The listing once entry `c` of the top-level directory `w` has moved
      up. */
  function Lifted(cur: Listing, w: Name, c: Name): Listing
    requires w in cur && cur[w].Dir? && c in cur[w].children
  {
    cur[w := Dir(cur[w].children - {c})][c := cur[w].children[c]]
  }

  /** The entry that moves up never finds its name taken. */
  lemma LiftTargetFree(top: Listing, pending: set<(Name, Name)>, cur: Listing, w: Name, c: Name)
    requires NoClash(top) && Lifting(top, pending, cur) && (w, c) in pending
    ensures w in cur && cur[w].Dir? && c in cur[w].children && c !in cur && c !in top && c != w
  {
  }

  lemma LiftKeepsTop(top: Listing, pending: set<(Name, Name)>, cur: Listing, w: Name, c: Name)
    requires NoClash(top) && Lifting(top, pending, cur) && (w, c) in pending
    requires c !in cur
    ensures var next := Lifted(cur, w, c);
      (forall n :: n in top && !top[n].Dir? ==> n in next && next[n] == top[n])
      && (forall v :: v in top && top[v].Dir? ==> v in next && next[v].Dir?)
  {
  }

  lemma LiftKeepsPending(top: Listing, pending: set<(Name, Name)>, cur: Listing, w: Name, c: Name)
    requires NoClash(top) && Lifting(top, pending, cur) && (w, c) in pending
    requires c !in cur
    ensures var next, rest := Lifted(cur, w, c), pending - {(w, c)};
      (forall v, d :: v in top && top[v].Dir? && v in next && next[v].Dir? && d in next[v].children ==>
         (v, d) in rest && d in top[v].children && next[v].children[d] == top[v].children[d])
      && (forall v, d :: (v, d) in rest ==>
         v in top && top[v].Dir? && d in top[v].children && v in next && next[v].Dir? && d in next[v].children)
  {
    var next, rest := Lifted(cur, w, c), pending - {(w, c)};
    assert c !in top;
    forall v, d | v in top && top[v].Dir? && v in next && next[v].Dir? && d in next[v].children
      ensures (v, d) in rest && d in top[v].children && next[v].children[d] == top[v].children[d]
    {
      assert v != c;
    }
    forall v, d | (v, d) in rest
      ensures v in top && top[v].Dir? && d in top[v].children && v in next && next[v].Dir? && d in next[v].children
    {
      assert v != c;
    }
  }

  lemma LiftKeepsMoved(top: Listing, pending: set<(Name, Name)>, cur: Listing, w: Name, c: Name)
    requires NoClash(top) && Lifting(top, pending, cur) && (w, c) in pending
    requires c !in cur
    ensures var next, rest := Lifted(cur, w, c), pending - {(w, c)};
      (forall v, d :: v in top && top[v].Dir? && d in top[v].children && (v, d) !in rest ==>
         d in next && next[d] == top[v].children[d])
      && (forall n :: n in next ==>
         n in top || exists v :: v in top && top[v].Dir? && n in top[v].children && (v, n) !in rest)
  {
    var next, rest := Lifted(cur, w, c), pending - {(w, c)};
    forall v, d | v in top && top[v].Dir? && d in top[v].children && (v, d) !in rest
      ensures d in next && next[d] == top[v].children[d]
    {
      if (v, d) != (w, c) {
        assert d !in top;
      }
    }
    forall n | n in next
      ensures n in top || exists v :: v in top && top[v].Dir? && n in top[v].children && (v, n) !in rest
    {
      if n == c {
        assert (w, c) !in rest;
      } else {
        assert n in cur;
      }
    }
  }

  /** Moving one pending entry up keeps the lifting state. */
  lemma LiftStep(top: Listing, pending: set<(Name, Name)>, cur: Listing, w: Name, c: Name)
    requires NoClash(top) && Lifting(top, pending, cur) && (w, c) in pending
    ensures w in cur && cur[w].Dir? && c in cur[w].children
    ensures Lifting(top, pending - {(w, c)}, Lifted(cur, w, c))
  {
    LiftTargetFree(top, pending, cur, w, c);
    LiftKeepsTop(top, pending, cur, w, c);
    LiftKeepsPending(top, pending, cur, w, c);
    LiftKeepsMoved(top, pending, cur, w, c);
  }

  /** One move of the lifting loop on the whole tree: the rename succeeds
      and only `dir`'s listing changes. */
  lemma LiftMove(t0: Node, t: Node, dir: Path, top: Listing, pending: set<(Name, Name)>, cur: Listing, w: Name, c: Name)
    requires IsDirAt(t0, dir) && t == Update(t0, dir, cur)
    requires NoClash(top) && Lifting(top, pending, cur) && (w, c) in pending
    ensures w in cur && cur[w].Dir? && c in cur[w].children
    ensures Rename(t, dir + [w, c], dir + [c]) == Ok(Update(t0, dir, Lifted(cur, w, c)))
    ensures Lifting(top, pending - {(w, c)}, Lifted(cur, w, c))
  {
    LiftStep(top, pending, cur, w, c);
    RenameUp(t, dir, cur, w, c);
    UpdateTwice(t0, dir, cur, Lifted(cur, w, c));
  }

  /** The state of the directory-removing loop: `names` holds the top-level
      names not yet visited. */
  ghost predicate Clearing(top: Listing, names: set<Name>, cur: Listing)
  {
    KeptFiles(top, cur) && EmptiedPending(top, names, cur) && RemovedVisited(top, names, cur)
    && LiftedChildren(top, cur) && NothingElse(top, names, cur)
  }

  /** Top-level entries that are not directories are where they were. */
  ghost predicate KeptFiles(top: Listing, cur: Listing)
  {
    forall n :: n in top && !top[n].Dir? ==> n in cur && cur[n] == top[n]
  }

  /** Top-level directories not yet visited are there, and empty. */
  ghost predicate EmptiedPending(top: Listing, names: set<Name>, cur: Listing)
  {
    forall w :: w in top && top[w].Dir? && w in names ==> w in cur && cur[w] == Dir(map[])
  }

  /** Top-level directories already visited are gone. */
  ghost predicate RemovedVisited(top: Listing, names: set<Name>, cur: Listing)
  {
    forall w :: w in top && top[w].Dir? && w !in names ==> w !in cur
  }

  /** Every entry of a top-level directory sits at the top. */
  ghost predicate LiftedChildren(top: Listing, cur: Listing)
  {
    forall w, c :: w in top && top[w].Dir? && c in top[w].children ==>
      c in cur && cur[c] == top[w].children[c]
  }

  /** Nothing else is listed. */
  ghost predicate NothingElse(top: Listing, names: set<Name>, cur: Listing)
  {
    forall n :: n in cur ==>
      (n in top && (!top[n].Dir? || n in names))
      || exists w :: w in top && top[w].Dir? && n in top[w].children
  }

  /** Once every entry is moved the directories are empty. */
  lemma LiftedAll(top: Listing, cur: Listing)
    requires NoClash(top) && Lifting(top, {}, cur)
    ensures Clearing(top, top.Keys, cur)
  {
    forall w | w in top && top[w].Dir?
      ensures cur[w] == Dir(map[])
    {
      assert cur[w].children.Keys == {};
    }
  }

  /** The name visited next is still listed; a directory there is an
      emptied top-level directory. */
  lemma ClearingFinds(top: Listing, names: set<Name>, cur: Listing, n: Name)
    requires Clearing(top, names, cur) && n in names && names <= top.Keys
    ensures n in cur
    ensures cur[n].Dir? ==> top[n].Dir? && cur[n] == Dir(map[])
  {
  }

  /** Dropping a visited empty directory keeps the state of the loop. */
  lemma ClearingDropsDir(top: Listing, names: set<Name>, cur: Listing, n: Name)
    requires ChildrenAvoidTop(top) && Clearing(top, names, cur) && n in names && names <= top.Keys
    requires n in cur && top[n].Dir?
    ensures Clearing(top, names - {n}, cur - {n})
  {
    DropKeepsFiles(top, cur, n);
    DropKeepsLifted(top, cur, n);
    DropKeepsOthers(top, names, cur, n);
  }

  lemma DropKeepsFiles(top: Listing, cur: Listing, n: Name)
    requires KeptFiles(top, cur) && n in top && top[n].Dir?
    ensures KeptFiles(top, cur - {n})
  {
  }

  lemma DropKeepsLifted(top: Listing, cur: Listing, n: Name)
    requires ChildrenAvoidTop(top) && LiftedChildren(top, cur) && n in top
    ensures LiftedChildren(top, cur - {n})
  {
    forall v, d | v in top && top[v].Dir? && d in top[v].children
      ensures d in cur - {n} && (cur - {n})[d] == top[v].children[d]
    {
      assert d !in top;
    }
  }

  lemma DropKeepsOthers(top: Listing, names: set<Name>, cur: Listing, n: Name)
    requires EmptiedPending(top, names, cur) && RemovedVisited(top, names, cur) && NothingElse(top, names, cur)
    requires n in names
    ensures EmptiedPending(top, names - {n}, cur - {n})
    ensures RemovedVisited(top, names - {n}, cur - {n})
    ensures NothingElse(top, names - {n}, cur - {n})
  {
  }

  /** Unlinking a non-directory entry of a listing removes it from the
      listing. */
  lemma UnlinkChild(t0: Node, dir: Path, cur: Listing, n: Name)
    requires IsDirAt(t0, dir) && n in cur && !cur[n].Dir?
    ensures Unlink(Update(t0, dir, cur), dir + [n]) == Ok(Update(t0, dir, cur - {n}))
  {
    LookupChild(t0, dir, cur, n);
    var p := dir + [n];
    assert Parent(p) == dir && BaseName(p) == n;
    UpdateTwice(t0, dir, cur, cur - {n});
  }

  /** Removing an empty directory entry of a listing is the `remove_dir` of
      that path. */
  lemma RemoveEmptyChild(t0: Node, dir: Path, cur: Listing, n: Name)
    requires IsDirAt(t0, dir) && n in cur && cur[n] == Dir(map[])
    ensures RemoveDir(Update(t0, dir, cur), dir + [n]) == Ok(Update(t0, dir, cur - {n}))
  {
    LookupChild(t0, dir, cur, n);
    var p := dir + [n];
    assert Parent(p) == dir && BaseName(p) == n;
    UpdateTwice(t0, dir, cur, cur - {n});
  }

  /** One visit of the removing loop: the top-level name is still there;
      a directory is empty by now and goes, anything else stays. */
  lemma ClearVisit(t0: Node, t: Node, dir: Path, top: Listing, names: set<Name>, cur: Listing, n: Name)
    requires IsDirAt(t0, dir) && t == Update(t0, dir, cur)
    requires NoClash(top) && Clearing(top, names, cur) && n in names && names <= top.Keys
    ensures n in cur && Lookup(t, dir + [n]) == Some(cur[n])
    ensures cur[n].Dir? ==>
      RemoveDir(t, dir + [n]) == Ok(Update(t0, dir, cur - {n})) && Clearing(top, names - {n}, cur - {n})
    ensures !cur[n].Dir? ==> Clearing(top, names - {n}, cur)
  {
    ClearingFinds(top, names, cur, n);
    LookupChild(t0, dir, cur, n);
    if cur[n].Dir? {
      RemoveEmptyChild(t0, dir, cur, n);
      ClearingDropsDir(top, names, cur, n);
    }
  }

  /** When every top-level name has been visited the layout is stripped. */
  lemma ClearedAll(top: Listing, cur: Listing)
    requires Clearing(top, {}, cur)
    ensures IsStripped(top, cur)
  {
  }

  // ---- make_symlink ----

  /** The tree once `make_symlink` has removed a file or link found at
      `link` (a directory there is left alone). */
  function ClearLink(t: Node, link: Path): (r: Node)
    ensures link != [] ==> (Exists(r, link) <==> IsDirAt(t, link))
    ensures link != [] ==> (IsDirAt(r, Parent(link)) <==> IsDirAt(t, Parent(link)))
  {
    if link != [] && (IsFileAt(t, link) || IsSymlinkAt(t, link)) then
      LookupAppend(Unlink(t, link).value, Parent(link), [BaseName(link)]);
      Unlink(t, link).value
    else t
  }

  /** Putting the same node twice at one path is putting it once. */
  lemma PutTwice(t: Node, p: Path, x: Node)
    requires p != [] && IsDirAt(t, Parent(p))
    ensures IsDirAt(Put(t, p, x), Parent(p))
    ensures Lookup(Put(t, p, x), p) == Some(x)
    ensures Put(Put(t, p, x), p, x) == Put(t, p, x)
  {
    var cs := ChildrenAt(t, Parent(p));
    LookupChild(t, Parent(p), cs[BaseName(p) := x], BaseName(p));
    assert Parent(p) + [BaseName(p)] == p;
    UpdateTwice(t, Parent(p), cs[BaseName(p) := x], cs[BaseName(p) := x][BaseName(p) := x]);
    assert cs[BaseName(p) := x][BaseName(p) := x] == cs[BaseName(p) := x];
  }

  /** Linking `link` to `target` a second time succeeds and changes nothing:
      after a first successful `make_symlink` the parent is still a
      directory and `link` is not one, and storing the same link again
      gives back the same tree. */
  lemma RelinkIsIdempotent(t: Node, target: Path, link: Path)
    requires link != [] && IsDirAt(t, Parent(link)) && !IsDirAt(t, link)
    ensures var t1 := Put(t, link, Symlink(target));
      IsDirAt(t1, Parent(link)) && !IsDirAt(t1, link) && Put(t1, link, Symlink(target)) == t1
  {
    PutTwice(t, link, Symlink(target));
  }

  // ---- remove_symlinks_with_target_prefix ----

  /** A symbolic link whose target starts with `prefix`, component by
      component. */
  predicate PointsUnder(x: Node, prefix: Path)
  {
    x.Symlink? && prefix <= x.target
  }

  /** The names of a listing that `remove_symlinks_with_target_prefix`
      removes. */
  function LinksUnder(cs: Listing, prefix: Path): set<Name>
  {
    set n | n in cs && PointsUnder(cs[n], prefix)
  }

  /** The listing without those links. */
  function KeepLinks(cs: Listing, prefix: Path): (r: Listing)
    ensures forall n :: n in r <==> n in cs && n !in LinksUnder(cs, prefix)
    ensures forall n :: n in r ==> r[n] == cs[n]
  {
    map n | n in cs && !PointsUnder(cs[n], prefix) :: cs[n]
  }

  /** The paths reported for distinct names of one directory are distinct
      and name exactly those entries. */
  lemma ReportedPaths(dir: Path, gone: seq<Name>, removed: seq<Path>, links: set<Name>)
    requires |removed| == |gone| && forall i :: 0 <= i < |gone| ==> removed[i] == dir + [gone[i]]
    requires forall i :: 0 <= i < |gone| ==> gone[i] in links
    requires forall i, j :: 0 <= i < j < |gone| ==> gone[i] != gone[j]
    requires forall n :: n in links ==> n in gone
    ensures forall n :: n in links ==> dir + [n] in removed
    ensures forall i :: 0 <= i < |removed| ==>
      (|removed[i]| == |dir| + 1 && removed[i][..|dir|] == dir && removed[i][|dir|] in links)
    ensures forall i, j :: 0 <= i < j < |removed| ==> removed[i] != removed[j]
  {
    forall n | n in links
      ensures dir + [n] in removed
    {
      var i :| 0 <= i < |gone| && gone[i] == n;
      assert removed[i] == dir + [n];
    }
    forall i | 0 <= i < |removed|
      ensures |removed[i]| == |dir| + 1 && removed[i][..|dir|] == dir && removed[i][|dir|] in links
    {
      assert removed[i] == dir + [gone[i]];
    }
    forall i, j | 0 <= i < j < |removed|
      ensures removed[i] != removed[j]
    {
      assert removed[i][|dir|] == gone[i] && removed[j][|dir|] == gone[j];
    }
  }

  /** A listing holding exactly the entries that are not links into the
      prefix, unchanged, is the pruned listing. */
  lemma KeepLinksExactly(cs: Listing, prefix: Path, cur: Listing)
    requires forall n :: n in cur <==> n in cs && !PointsUnder(cs[n], prefix)
    requires forall n :: n in cur ==> cur[n] == cs[n]
    ensures cur == KeepLinks(cs, prefix)
  {
  }

  /** After the removal no link in the directory points under the prefix, so
      running it again removes nothing; every other entry is kept. */
  lemma KeepLinksIsClean(cs: Listing, prefix: Path)
    ensures LinksUnder(KeepLinks(cs, prefix), prefix) == {}
    ensures KeepLinks(KeepLinks(cs, prefix), prefix) == KeepLinks(cs, prefix)
    ensures forall n :: n in cs && !PointsUnder(cs[n], prefix) ==> n in KeepLinks(cs, prefix)
  {
  }

  // ---- unpacking archive entries ----

  /** The node an entry that is not a directory stores. */
  function LeafOf(k: EntryKind): Node
    requires !k.DirEntry?
  {
    match k
    case FileEntry(x) => File(x)
    case LinkEntry(tg) => Symlink(tg)
  }

  /** Writing one archive entry below `dest` (what tar's `unpack_in`, zip's
      `extract` and 7z's `decompress_file` do for each entry): the missing
      directories above it are created; a directory entry creates an empty
      directory or keeps an existing one; a file or link replaces whatever
      file or link was there. An entry with no component writes nothing. A
      non-directory in the way of the parent, or a clash between a directory
      and something else, is an error. */
  function PlaceEntry(t: Node, dest: Path, e: Entry): (r: Result<Node>)
    ensures r.Ok? && e.path != [] && e.IsDir() ==> IsDirAt(r.value, dest + e.path)
    ensures r.Ok? && e.path != [] && !e.IsDir() ==> Lookup(r.value, dest + e.path) == Some(LeafOf(e.kind))
    ensures t.Dir? && r.Ok? ==> r.value.Dir?
  {
    if e.path == [] then Ok(t)
    else
      var p := dest + e.path;
      var made := MakeDirs(t, Parent(p));
      if made.Err? then Err(made.msg)
      else
        var t1 := made.value;
        var node := if e.IsDir() then Dir(map[]) else LeafOf(e.kind);
        LookupChild(t1, Parent(p), ChildrenAt(t1, Parent(p))[BaseName(p) := node], BaseName(p));
        assert Parent(p) + [BaseName(p)] == p;
        if e.IsDir() then
          if !Exists(t1, p) then Ok(Put(t1, p, node))
          else if IsDirAt(t1, p) then Ok(t1)
          else Err("failed to unpack: not a directory")
        else if IsDirAt(t1, p) then Err("failed to unpack: is a directory")
        else Ok(Put(t1, p, node))
  }

  /** The entries written one after the other, stopping at the first
      failure. */
  function Unpacked(t: Node, dest: Path, entries: seq<Entry>): (r: Result<Node>)
    ensures t.Dir? && r.Ok? ==> r.value.Dir?
    decreases |entries|
  {
    if entries == [] then Ok(t)
    else
      var before := Unpacked(t, dest, entries[..|entries| - 1]);
      if before.Err? then before
      else PlaceEntry(before.value, dest, entries[|entries| - 1])
  }

  /** The last entry written wins: whatever it is, it is what `dest` then
      holds at its path. */
  lemma UnpackedLastEntry(t: Node, dest: Path, entries: seq<Entry>)
    requires entries != [] && entries[|entries| - 1].path != []
    requires Unpacked(t, dest, entries).Ok?
    ensures var e := entries[|entries| - 1];
      if e.IsDir() then IsDirAt(Unpacked(t, dest, entries).value, dest + e.path)
      else Lookup(Unpacked(t, dest, entries).value, dest + e.path) == Some(LeafOf(e.kind))
  {
  }

  /** The whole file system, as one mutable object. */
  class FileSystem {
    var root: Node

    ghost predicate Valid()
      reads this
    {
      root.Dir?
    }

    constructor (root: Node)
      requires root.Dir?
      ensures Valid() && this.root == root
    {
      this.root := root;
    }

    /** `strip_archive_path_components(dir, depth)`: depth 0 does nothing,
        depth above 1 fails before anything is read; depth 1 first moves
        every entry of every top-level directory of `dir` up into `dir` (the
        list of moves is taken before the first one), then removes each
        top-level directory, which `remove_dir` does only when it is empty.
        When the moves do not collide the result is the stripped layout. */
    method StripArchivePathComponents(dir: Path, depth: nat) returns (r: Outcome)
      requires Valid()
      modifies this
      ensures Valid()
      ensures depth == 0 ==> r == Pass && root == old(root)
      ensures depth > 1 ==> r.Fail? && root == old(root)
      ensures depth == 1 && !IsDirAt(old(root), dir) ==> r == Pass && root == old(root)
      ensures depth == 1 && IsDirAt(old(root), dir) && NoClash(ChildrenAt(old(root), dir)) ==>
        r == Pass && IsDirAt(root, dir)
        && root == Update(old(root), dir, ChildrenAt(root, dir))
        && IsStripped(ChildrenAt(old(root), dir), ChildrenAt(root, dir))
    {
      if depth == 0 {
        return Pass;
      }
      if depth > 1 {
        return Fail("strip-components > 1 is not supported");
      }
      ghost var t0 := root;
      var top := ChildrenAt(root, dir);
      ghost var good := IsDirAt(root, dir) && NoClash(top);
      var pending := set w, c | w in top && top[w].Dir? && c in top[w].children :: (w, c);
      ghost var cur := top;
      if good {
        UpdateSame(t0, dir);
      }
      while pending != {}
        invariant Valid()
        invariant !IsDirAt(t0, dir) ==> root == t0 && pending == {}
        invariant good ==> root == Update(t0, dir, cur) && Lifting(top, pending, cur)
        decreases pending
      {
        var m :| m in pending;
        var (w, c) := m;
        if good {
          LiftMove(t0, root, dir, top, pending, cur, w, c);
          cur := Lifted(cur, w, c);
        }
        pending := pending - {m};
        var moved := Rename(root, dir + [w, c], dir + [c]);
        if moved.Err? {
          return Fail(moved.msg);
        }
        root := moved.value;
      }
      if good {
        LiftedAll(top, cur);
      }
      var names := top.Keys;
      while names != {}
        invariant Valid()
        invariant names <= top.Keys
        invariant !IsDirAt(t0, dir) ==> root == t0 && names == {}
        invariant good ==> root == Update(t0, dir, cur) && Clearing(top, names, cur)
        decreases names
      {
        var n :| n in names;
        if good {
          ClearVisit(t0, root, dir, top, names, cur, n);
        }
        names := names - {n};
        var p := dir + [n];
        var found := Lookup(root, p);
        if found.None? {
          return Fail("failed to read file metadata");
        }
        if found.value.Dir? {
          var removed := RemoveDir(root, p);
          if removed.Err? {
            return Fail(removed.msg);
          }
          root := removed.value;
          if good {
            cur := cur - {n};
          }
        }
      }
      if good {
        ClearedAll(top, cur);
      }
      return Pass;
    }

    /** `make_symlink(target, link)`: a file or link at `link` is removed
        first, then the link is created; the pair of paths is returned. It
        fails when `link` is a directory or its parent is not one; the
        removal has then already happened. */
    method MakeSymlink(target: Path, link: Path) returns (r: Result<(Path, Path)>)
      requires Valid()
      modifies this
      ensures Valid()
      ensures r.Ok? <==> link != [] && IsDirAt(old(root), Parent(link)) && !IsDirAt(old(root), link)
      ensures r.Ok? ==> r.value == (target, link) && root == Put(old(root), link, Symlink(target))
      ensures r.Ok? ==> Lookup(root, link) == Some(Symlink(target))
      ensures r.Err? ==> root == ClearLink(old(root), link)
    {
      if link != [] && (IsFileAt(root, link) || IsSymlinkAt(root, link)) {
        var unlinked := Unlink(root, link);
        root := unlinked.value;
      }
      var linked := CreateSymlink(root, target, link);
      if linked.Err? {
        return Err(linked.msg);
      }
      if link != [] && (IsFileAt(old(root), link) || IsSymlinkAt(old(root), link)) {
        var cs := ChildrenAt(old(root), Parent(link));
        UpdateTwice(old(root), Parent(link), cs - {BaseName(link)}, (cs - {BaseName(link)})[BaseName(link) := Symlink(target)]);
        assert (cs - {BaseName(link)})[BaseName(link) := Symlink(target)] == cs[BaseName(link) := Symlink(target)];
      }
      root := linked.value;
      return Ok((target, link));
    }

    /** `remove_symlinks_with_target_prefix(dir, prefix)`: a missing `dir`
        gives an empty list; otherwise every entry of `dir` that is a link
        whose target starts with `prefix` is unlinked and its path returned,
        each once. Reading something that is not a directory fails. */
    method RemoveSymlinksWithTargetPrefix(dir: Path, prefix: Path) returns (r: Result<seq<Path>>)
      requires Valid()
      modifies this
      ensures Valid()
      ensures !Exists(old(root), dir) ==> r == Ok([]) && root == old(root)
      ensures Exists(old(root), dir) && !IsDirAt(old(root), dir) ==> r.Err? && root == old(root)
      ensures IsDirAt(old(root), dir) ==> (r.Ok?
        && root == Update(old(root), dir, KeepLinks(ChildrenAt(old(root), dir), prefix))
        && (forall n :: n in LinksUnder(ChildrenAt(old(root), dir), prefix) ==> dir + [n] in r.value)
        && (forall i :: 0 <= i < |r.value| ==>
              (|r.value[i]| == |dir| + 1 && r.value[i][..|dir|] == dir
               && r.value[i][|dir|] in LinksUnder(ChildrenAt(old(root), dir), prefix)))
        && (forall i, j :: 0 <= i < j < |r.value| ==> r.value[i] != r.value[j]))
    {
      if !Exists(root, dir) {
        return Ok([]);
      }
      if !IsDirAt(root, dir) {
        return Err("failed to read directory");
      }
      ghost var t0 := root;
      var cs := ChildrenAt(root, dir);
      ghost var cur := cs;
      UpdateSame(t0, dir);
      var names := cs.Keys;
      var removed: seq<Path> := [];
      ghost var gone: seq<Name> := [];
      while names != {}
        invariant Valid()
        invariant names <= cs.Keys
        invariant root == Update(t0, dir, cur)
        invariant forall n :: n in cur <==> n in cs && (n in names || !PointsUnder(cs[n], prefix))
        invariant forall n :: n in cur ==> cur[n] == cs[n]
        invariant |removed| == |gone| && forall i :: 0 <= i < |gone| ==> removed[i] == dir + [gone[i]]
        invariant forall i :: 0 <= i < |gone| ==> gone[i] in LinksUnder(cs, prefix) && gone[i] !in names
        invariant forall i, j :: 0 <= i < j < |gone| ==> gone[i] != gone[j]
        invariant forall n :: n in LinksUnder(cs, prefix) && n !in names ==> n in gone
        decreases names
      {
        var n :| n in names;
        names := names - {n};
        var p := dir + [n];
        LookupChild(t0, dir, cur, n);
        if IsSymlinkAt(root, p) {
          var target := Lookup(root, p).value.target;
          if prefix <= target {
            var unlinked := Unlink(root, p);
            UnlinkChild(t0, dir, cur, n);
            root := unlinked.value;
            cur := cur - {n};
            removed := removed + [p];
            gone := gone + [n];
          }
        }
      }
      ReportedPaths(dir, gone, removed, LinksUnder(cs, prefix));
      KeepLinksExactly(cs, prefix, cur);
      return Ok(removed);
    }

    /** Writing the entries one after the other below `dest`. */
    method Unpack(dest: Path, entries: seq<Entry>) returns (r: Outcome)
      requires Valid()
      modifies this
      ensures Valid()
      ensures r.Pass? <==> Unpacked(old(root), dest, entries).Ok?
      ensures r.Pass? ==> root == Unpacked(old(root), dest, entries).value
    {
      var k := 0;
      while k < |entries|
        invariant 0 <= k <= |entries|
        invariant Valid()
        invariant Unpacked(old(root), dest, entries[..k]) == Ok(root)
      {
        assert entries[..k + 1][..k] == entries[..k];
        var placed := PlaceEntry(root, dest, entries[k]);
        if placed.Err? {
          assert entries[..k + 1][k] == entries[k];
          UnpackedStaysFailed(old(root), dest, entries, k + 1);
          return Fail(placed.msg);
        }
        root := placed.value;
        k := k + 1;
      }
      assert entries[..k] == entries;
      return Pass;
    }

    /** `unzip`: the zip reader opens the file, writes every entry below
        `dest` (creating it), then the layout is stripped. */
    method Unzip(archive: ArchiveFile, dest: Path, strip: nat) returns (r: Outcome)
      requires Valid()
      modifies this
      ensures Valid()
      ensures ZipEntries(archive).Err? ==> r.Fail? && root == old(root)
      ensures ZipEntries(archive).Ok? ==> ExtractsTo(old(root), dest, ZipEntries(archive).value, strip, r, root)
      ensures strip > 1 ==> r.Fail?
    {
      var entries := ZipEntries(archive);
      if entries.Err? {
        return Fail(entries.msg);
      }
      r := Extract(dest, entries.value, strip);
    }

    /** `un7z` (Windows only): as `unzip`, with the 7z reader. */
    method Un7z(archive: ArchiveFile, dest: Path, strip: nat) returns (r: Outcome)
      requires Valid()
      modifies this
      ensures Valid()
      ensures SevenZipEntries(archive, true).Err? ==> r.Fail? && root == old(root)
      ensures SevenZipEntries(archive, true).Ok? ==>
        ExtractsTo(old(root), dest, SevenZipEntries(archive, true).value, strip, r, root)
      ensures strip > 1 ==> r.Fail?
    {
      var entries := SevenZipEntries(archive, true);
      if entries.Err? {
        return Fail(entries.msg);
      }
      r := Extract(dest, entries.value, strip);
    }

    /** Creating `dest`, writing the entries, stripping. */
    method Extract(dest: Path, entries: seq<Entry>, strip: nat) returns (r: Outcome)
      requires Valid()
      modifies this
      ensures Valid()
      ensures strip > 1 ==> r.Fail?
      ensures CreateDirAll(old(root), dest).Err? ==> r.Fail? && root == old(root)
      ensures ExtractsTo(old(root), dest, entries, strip, r, root)
    {
      var made := CreateDirAll(root, dest);
      if made.Err? {
        return Fail(made.msg);
      }
      MakeDirsKeepsRoot(root, dest);
      root := made.value;
      r := Unpack(dest, entries);
      if r.Fail? {
        return;
      }
      r := StripArchivePathComponents(dest, strip);
    }

    /** `untar`: resolves the format, hands zip to `unzip` and (on Windows)
        7z to `un7z`; any other format is opened as a tar stream, `dest` is
        created, the entries are written and the layout is stripped. */
    method Untar(archive: ArchiveFile, dest: Path, format: TarFormat, strip: nat, windows: bool) returns (r: Outcome)
      requires Valid()
      modifies this
      ensures Valid()
      ensures strip > 1 ==> r.Fail?
      ensures ResolveFormat(format, archive.ext) == Zip && ZipEntries(archive).Err? ==> r.Fail? && root == old(root)
      ensures UntarRoute(format, archive.ext, strip, windows).ToTarStream? && OpenTar(ResolveFormat(format, archive.ext), archive).Err? ==>
        r.Fail? && root == old(root)
      ensures UntarRoute(format, archive.ext, strip, windows).ToUnzip? && ZipEntries(archive).Ok? ==>
        ExtractsTo(old(root), dest, ZipEntries(archive).value, strip, r, root)
      ensures UntarRoute(format, archive.ext, strip, windows).ToUn7z? && SevenZipEntries(archive, true).Ok? ==>
        ExtractsTo(old(root), dest, SevenZipEntries(archive, true).value, strip, r, root)
      ensures UntarRoute(format, archive.ext, strip, windows).ToTarStream? && OpenTar(ResolveFormat(format, archive.ext), archive).Ok? ==>
        var entries := TarEntries(OpenTar(ResolveFormat(format, archive.ext), archive).value, archive);
        (entries.Err? ==> r.Fail?)
        && (entries.Ok? ==> ExtractsTo(old(root), dest, entries.value, strip, r, root))
    {
      match UntarRoute(format, archive.ext, strip, windows)
      case ToUnzip(s) =>
        r := Unzip(archive, dest, s);
      case ToUn7z(s) =>
        r := Un7z(archive, dest, s);
      case ToTarStream(f, s) =>
        var decoder := OpenTar(f, archive);
        if decoder.Err? {
          return Fail(decoder.msg);
        }
        var made := CreateDirAll(root, dest);
        if made.Err? {
          return Fail(made.msg);
        }
        MakeDirsKeepsRoot(root, dest);
        root := made.value;
        var entries := TarEntries(decoder.value, archive);
        if entries.Err? {
          return Fail(entries.msg);
        }
        r := Unpack(dest, entries.value);
        if r.Fail? {
          return;
        }
        r := StripArchivePathComponents(dest, s);
    }
  }

  /** Creating `dest` and writing the entries below it. */
  function Unpacking(t: Node, dest: Path, entries: seq<Entry>): Result<Node>
  {
    var made :- CreateDirAll(t, dest);
    Unpacked(made, dest, entries)
  }

  /** Where extracting `entries` below `dest` with strip depth `strip` ends,
      starting from `t0`, as outcome `r` and tree `t`: a failure when `dest`
      cannot be created or an entry cannot be written; otherwise the written
      tree when the depth is 0, the same tree and a failure when it is above
      1, and for depth 1 the written tree with its single layer of top-level
      directories lifted, whenever that lifting has no name clash. */
  ghost predicate ExtractsTo(t0: Node, dest: Path, entries: seq<Entry>, strip: nat, r: Outcome, t: Node)
  {
    var u := Unpacking(t0, dest, entries);
    (u.Err? ==> r.Fail?)
    && (u.Ok? && strip == 0 ==> r == Pass && t == u.value)
    && (u.Ok? && strip > 1 ==> r.Fail? && t == u.value)
    && (u.Ok? && strip == 1 && !IsDirAt(u.value, dest) ==> r == Pass && t == u.value)
    && (u.Ok? && strip == 1 && IsDirAt(u.value, dest) && NoClash(ChildrenAt(u.value, dest)) ==>
          r == Pass && IsDirAt(t, dest) && t == Update(u.value, dest, ChildrenAt(t, dest))
          && IsStripped(ChildrenAt(u.value, dest), ChildrenAt(t, dest)))
  }

  /** Once a prefix of the entries fails to unpack, so do all of them. */
  lemma {:induction false} UnpackedStaysFailed(t: Node, dest: Path, entries: seq<Entry>, k: nat)
    requires k <= |entries| && Unpacked(t, dest, entries[..k]).Err?
    ensures Unpacked(t, dest, entries).Err?
    decreases |entries| - k
  {
    if k < |entries| {
      assert entries[..k + 1][..k] == entries[..k];
      UnpackedStaysFailed(t, dest, entries, k + 1);
    } else {
      assert entries[..k] == entries;
    }
  }

  /** `file::create_dir_all`: nothing happens when the path exists (even as
      a file); otherwise every missing directory on the way is created. */
  function CreateDirAll(t: Node, p: Path): (r: Result<Node>)
    ensures Exists(t, p) ==> r == Ok(t)
    ensures !Exists(t, p) ==> (r.Ok? ==> IsDirAt(r.value, p))
    ensures r.Ok? <==> Exists(t, p) || forall k :: 0 <= k <= |p| && Exists(t, p[..k]) ==> IsDirAt(t, p[..k])
    ensures r.Ok? ==> ChangedOnlyAt(t, r.value, p)
  {
    if Exists(t, p) then Ok(t)
    else
      var made := MakeDirs(t, p);
      if made.Ok? then MakeDirsFrame(t, p); made else made
  }

  /** Creating directories below a directory root leaves a directory root. */
  lemma MakeDirsKeepsRoot(t: Node, p: Path)
    requires t.Dir? && CreateDirAll(t, p).Ok?
    ensures CreateDirAll(t, p).value.Dir?
  {
    if !Exists(t, p) {
      assert p[..0] == [];
      var r := MakeDirs(t, p).value;
      assert IsDirAt(r, p);
      if p != [] {
        assert Lookup(r, p).Some?;
      }
    }
  }
}
