/** The upward and `PATH` searches of src/file.rs: `find_up`, the `FindUp`
    iterator, `_which` and the memoising `which`, over a file-system tree.
    The tree is passed in as the state of the disk at the time of the call. */
module PathSearch {
  import opened Wrappers
  import opened FileTree

  // ---- find_up ----

  /** `from[..k] + [filenames[i]]` is what `find_up` returns: it exists, no
      name exists in any deeper directory of `from`, and no earlier name of
      the list exists in the same directory. */
  ghost predicate FoundFirst(t: Node, from: Path, filenames: seq<Name>, k: nat, i: nat)
  {
    k <= |from| && i < |filenames| && Exists(t, from[..k] + [filenames[i]])
    && (forall k', i' :: k < k' <= |from| && 0 <= i' < |filenames| ==> !Exists(t, from[..k'] + [filenames[i']]))
    && (forall i' :: 0 <= i' < i ==> !Exists(t, from[..k] + [filenames[i']]))
  }

  /** Only one place in the search order is the first hit. */
  lemma FoundFirstUnique(t: Node, from: Path, filenames: seq<Name>, k1: nat, i1: nat, k2: nat, i2: nat)
    requires FoundFirst(t, from, filenames, k1, i1) && FoundFirst(t, from, filenames, k2, i2)
    ensures k1 == k2 && i1 == i2
  {
  }

  /** `find_up(from, filenames)`: in `from` and then in each of its parents
      up to the root, the names are tried in list order; the first one that
      exists is returned, and nothing when the root has been searched. */
  method FindUp(t: Node, from: Path, filenames: seq<Name>) returns (r: Option<Path>)
    ensures r.None? ==>
      forall k, i :: 0 <= k <= |from| && 0 <= i < |filenames| ==> !Exists(t, from[..k] + [filenames[i]])
    ensures r.Some? ==>
      exists k: nat, i: nat :: FoundFirst(t, from, filenames, k, i) && r.value == from[..k] + [filenames[i]]
  {
    var current := from;
    while true
      invariant |current| <= |from| && current == from[..|current|]
      invariant forall k', i' :: |current| < k' <= |from| && 0 <= i' < |filenames| ==>
        !Exists(t, from[..k'] + [filenames[i']])
      decreases |current|
    {
      for i := 0 to |filenames|
        invariant forall i' :: 0 <= i' < i ==> !Exists(t, current + [filenames[i']])
      {
        var path := current + [filenames[i]];
        if Exists(t, path) {
          assert FoundFirst(t, from, filenames, |current|, i);
          return Some(path);
        }
      }
      if current == [] {
        return None;
      }
      current := current[..|current| - 1];
      assert current == from[..|current|];
    }
  }

  // ---- the FindUp iterator ----

  /** The paths the iterator still probes, in order: the names left for the
      current directory taken from the end of the list, then for each parent
      up to the root every name, again from the end of the list. */
  function Candidates(dir: Path, pending: seq<Name>, filenames: seq<Name>): seq<Path>
    decreases |dir|, |pending|
  {
    if pending != [] then
      [dir + [pending[|pending| - 1]]] + Candidates(dir, pending[..|pending| - 1], filenames)
    else if dir == [] then []
    else Candidates(Parent(dir), filenames, filenames)
  }

  /** Every probe is a name inside `dir` or one of its ancestors. */
  lemma {:induction false} CandidatesBelow(dir: Path, pending: seq<Name>, filenames: seq<Name>, i: nat)
    requires i < |Candidates(dir, pending, filenames)|
    ensures var c := Candidates(dir, pending, filenames)[i]; |c| >= 1 && c[..|c| - 1] <= dir
    decreases |dir|, |pending|
  {
    if pending != [] {
      if i > 0 {
        CandidatesBelow(dir, pending[..|pending| - 1], filenames, i - 1);
      }
    } else if dir != [] {
      CandidatesBelow(Parent(dir), filenames, filenames, i);
    }
  }

  /** The probes of one directory come before those of its parent: the
      iterator walks strictly upward. */
  lemma {:induction false} CandidatesWalkUp(dir: Path, pending: seq<Name>, filenames: seq<Name>, i: nat, j: nat)
    requires i < j < |Candidates(dir, pending, filenames)|
    ensures |Candidates(dir, pending, filenames)[j]| <= |Candidates(dir, pending, filenames)[i]|
    decreases |dir|, |pending|
  {
    if pending != [] {
      if i == 0 {
        CandidatesBelow(dir, pending[..|pending| - 1], filenames, j - 1);
      } else {
        CandidatesWalkUp(dir, pending[..|pending| - 1], filenames, i - 1, j - 1);
      }
    } else if dir != [] {
      CandidatesWalkUp(Parent(dir), filenames, filenames, i, j);
    }
  }

  /** The `FindUp` iterator: it remembers the directory being searched and
      the names still to try there. */
  class FindUpIterator {
    var currentDir: Path
    var currentDirFilenames: seq<Name>
    const filenames: seq<Name>

    /** The paths still to probe. */
    ghost function Remaining(): seq<Path>
      reads this
    {
      Candidates(currentDir, currentDirFilenames, filenames)
    }

    /** `FindUp::new(from, filenames)`. */
    constructor (from: Path, filenames: seq<Name>)
      ensures currentDir == from && currentDirFilenames == filenames && this.filenames == filenames
    {
      currentDir := from;
      this.filenames := filenames;
      currentDirFilenames := filenames;
    }

    /** `FindUp::next`: pops names off the end of the current list and
        yields the first path that is a file; when the list is empty it is
        refilled and the search moves to the parent; after the root it
        yields nothing and stands at the root again with a full list. */
    method Next(t: Node) returns (r: Option<Path>)
      modifies this
      ensures r.None? ==>
        (forall i :: 0 <= i < |old(Remaining())| ==> !IsFileAt(t, old(Remaining())[i]))
        && currentDir == [] && currentDirFilenames == filenames
      ensures r.Some? ==>
        exists j :: 0 <= j < |old(Remaining())| && old(Remaining())[j] == r.value
          && IsFileAt(t, r.value)
          && (forall i :: 0 <= i < j ==> !IsFileAt(t, old(Remaining())[i]))
          && Remaining() == old(Remaining())[j + 1..]
    {
      ghost var skipped: seq<Path> := [];
      while true
        invariant old(Remaining()) == skipped + Remaining()
        invariant forall i :: 0 <= i < |skipped| ==> !IsFileAt(t, skipped[i])
        decreases |currentDir|
      {
        ghost var dir := currentDir;
        while currentDirFilenames != []
          invariant currentDir == dir
          invariant old(Remaining()) == skipped + Remaining()
          invariant forall i :: 0 <= i < |skipped| ==> !IsFileAt(t, skipped[i])
          decreases |currentDirFilenames|
        {
          var filename := currentDirFilenames[|currentDirFilenames| - 1];
          currentDirFilenames := currentDirFilenames[..|currentDirFilenames| - 1];
          var path := currentDir + [filename];
          if IsFileAt(t, path) {
            assert old(Remaining()) == skipped + [path] + Remaining();
            assert old(Remaining())[|skipped|] == path;
            assert old(Remaining())[|skipped| + 1..] == Remaining();
            return Some(path);
          }
          skipped := skipped + [path];
        }
        if currentDir == [] {
          assert skipped == old(Remaining());
          currentDirFilenames := filenames;
          return None;
        }
        currentDirFilenames := filenames;
        currentDir := Parent(currentDir);
      }
    }
  }

  // ---- _which and which ----

  /** `is_executable` on Unix: a regular file with an execute bit. */
  predicate IsExecutable(t: Node, p: Path)
  {
    Lookup(t, p).Some? && Lookup(t, p).value == File(true)
  }

  /** `_which(name, paths)`: the first directory of `paths` holding an
      executable `name`, joined with `name`. */
  function WhichIn(t: Node, name: Name, paths: seq<Path>): (r: Option<Path>)
    ensures r.None? <==> forall i :: 0 <= i < |paths| ==> !IsExecutable(t, paths[i] + [name])
    ensures r.Some? ==> exists i :: (0 <= i < |paths| && r.value == paths[i] + [name]
      && IsExecutable(t, r.value)
      && (forall j :: 0 <= j < i ==> !IsExecutable(t, paths[j] + [name])))
    decreases |paths|
  {
    if paths == [] then None
    else if IsExecutable(t, paths[0] + [name]) then Some(paths[0] + [name])
    else
      var rest := WhichIn(t, name, paths[1..]);
      assert forall i :: 1 <= i < |paths| ==> paths[i] == paths[1..][i - 1];
      rest
  }

  /** The memo table of `which`, one per process. The search path is fixed
      for the life of the process. */
  class WhichCache {
    var cache: map<Name, Option<Path>>
    const paths: seq<Path>

    /** Every remembered answer is the one `_which` gives on `t`. */
    ghost predicate AgreesWith(t: Node)
      reads this
    {
      forall n :: n in cache ==> cache[n] == WhichIn(t, n, paths)
    }

    constructor (paths: seq<Path>)
      ensures cache == map[] && this.paths == paths
      ensures forall t :: AgreesWith(t)
    {
      cache := map[];
      this.paths := paths;
    }

    /** `which(name)`: a remembered answer is returned as it is, whether a
        path or nothing; otherwise `_which` is asked and its answer, found or
        not, is remembered. On an unchanged disk the answer is `_which`'s. */
    method Which(t: Node, name: Name) returns (r: Option<Path>)
      modifies this
      ensures name in old(cache) ==> r == old(cache)[name] && cache == old(cache)
      ensures name !in old(cache) ==> r == WhichIn(t, name, paths) && cache == old(cache)[name := r]
      ensures old(AgreesWith(t)) ==> r == WhichIn(t, name, paths) && AgreesWith(t)
    {
      if name in cache {
        return cache[name];
      }
      r := WhichIn(t, name, paths);
      cache := cache[name := r];
    }
  }
}
