/** Name-level helpers of src/file.rs: `split_file_name`, `replace_path`
    and `is_empty_dir_ignore`.

    `replace_path` and `split_file_name` take any path, relative or absolute,
    so a path here is the list of its components exactly as Rust's
    `Path::components` yields them: an absolute path starts with the root
    component, written "/", and `~/cwd` is `["~", "cwd"]`. This differs on
    purpose from the tree paths of FileTree, which are always absolute and
    leave the root out (`[]` is `/`); `is_empty_dir_ignore`, which reads the
    tree, takes a tree path. */
module PathNames {
  import opened Wrappers
  import opened FileTree

  // ---- split_file_name ----

  /** A last component that `Path::file_name` returns: not the root, `.`
      or `..` (for those it returns `None` and `split_file_name` panics). */
  predicate NormalName(n: Name)
  {
    n != "/" && n != "." && n != ".."
  }

  /** The position of the first '.' in `s`, if any. */
  function FirstDot(s: string): (r: Option<nat>)
    ensures r.Some? ==> r.value < |s| && s[r.value] == '.' && forall i :: 0 <= i < r.value ==> s[i] != '.'
    ensures r.None? ==> forall i :: 0 <= i < |s| ==> s[i] != '.'
    decreases |s|
  {
    if s == [] then None
    else if s[0] == '.' then Some(0)
    else match FirstDot(s[1..])
      case None => None
      case Some(i) => Some(i + 1)
  }

  /** `split_file_name(path)`: the file name (the last component; a path
      without one, or ending in the root, `.` or `..`, makes the source
      panic) cut at its FIRST dot into base and extension; without a dot the
      extension is empty. The base never holds a dot, and base, dot and
      extension put back together give the name. */
  function SplitFileName(p: Path): (r: (string, string))
    requires p != [] && NormalName(p[|p| - 1])
    ensures '.' !in r.0
    ensures '.' in p[|p| - 1] ==> r.0 + "." + r.1 == p[|p| - 1]
    ensures '.' !in p[|p| - 1] ==> r == (p[|p| - 1], "")
  {
    var name := p[|p| - 1];
    match FirstDot(name)
    case None => (name, "")
    case Some(i) =>
      assert name[..i] + "." + name[i + 1..] == name;
      (name[..i], name[i + 1..])
  }

  /** Whatever precedes the first dot is the base and everything after it
      the extension. */
  lemma SplitAtFirstDot(p: Path, base: string, ext: string)
    requires p != [] && NormalName(p[|p| - 1]) && p[|p| - 1] == base + "." + ext && '.' !in base
    ensures SplitFileName(p) == (base, ext)
  {
    var name := p[|p| - 1];
    assert name[|base|] == '.';
    assert name[..|base|] == base && name[|base| + 1..] == ext;
  }

  /** So a dotted version number ends up split after its first part. */
  lemma SplitVersionedName()
    ensures SplitFileName(["go-1.2.zip"]) == ("go-1", "2.zip")
  {
    assert "go-1.2.zip" == "go-1" + "." + "2.zip";
    assert '.' !in "go-1" by {
      assert "go-1" == ['g', 'o', '-', '1'];
    }
    SplitAtFirstDot(["go-1.2.zip"], "go-1", "2.zip");
  }

  /** And a hidden file has an empty base. */
  lemma SplitHiddenName()
    ensures SplitFileName([".rc"]) == ("", "rc")
  {
    assert ".rc" == "" + "." + "rc";
    SplitAtFirstDot([".rc"], "", "rc");
  }

  // ---- replace_path ----

  /** `replace_path(path)` with `$HOME` as `home`: a path whose first
      component is exactly `~` becomes `home` followed by the rest; any
      other path is returned as it is. */
  function ReplacePath(home: Path, p: Path): (r: Path)
    ensures p == [] || p[0] != "~" ==> r == p
    ensures p != [] && p[0] == "~" ==> r == home + p[1..]
    ensures home != [] && home[0] != "~" ==> (r == p <==> p == [] || p[0] != "~")
  {
    if p != [] && p[0] == "~" then home + p[1..] else p
  }

  /** With a home directory that does not itself start with `~`, expanding
      twice is expanding once. `~/cwd` and `/cwd` are the two cases of the
      source's test; `~user/cwd` shows that only a bare `~` component is
      expanded. */
  lemma ReplacePathIdempotent(home: Path, p: Path)
    requires home != [] && home[0] != "~"
    ensures ReplacePath(home, ReplacePath(home, p)) == ReplacePath(home, p)
    ensures ReplacePath(home, ["~", "cwd"]) == home + ["cwd"]
    ensures ReplacePath(home, ["/", "cwd"]) == ["/", "cwd"]
    ensures ReplacePath(home, ["~user", "cwd"]) == ["~user", "cwd"]
  {
    assert ["~", "cwd"][1..] == ["cwd"];
    if p != [] && p[0] == "~" {
      assert (home + p[1..])[0] == home[0];
    }
  }

  // ---- is_empty_dir_ignore ----

  /** ASCII lower-casing of one character; everything else is unchanged. */
  function AsciiLower(ch: char): char
  {
    if 'A' <= ch <= 'Z' then (ch as int + 32) as char else ch
  }

  /** `str::eq_ignore_ascii_case`. */
  predicate EqIgnoreAsciiCase(a: string, b: string)
  {
    |a| == |b| && forall i :: 0 <= i < |a| ==> AsciiLower(a[i]) == AsciiLower(b[i])
  }

  /** Comparing without ASCII case is an equivalence that tells apart only
      names differing in more than letter case. */
  lemma EqIgnoreAsciiCaseFacts(a: string, b: string, c: string)
    ensures EqIgnoreAsciiCase(a, a)
    ensures EqIgnoreAsciiCase(a, b) ==> EqIgnoreAsciiCase(b, a)
    ensures EqIgnoreAsciiCase(a, b) && EqIgnoreAsciiCase(b, c) ==> EqIgnoreAsciiCase(a, c)
    ensures EqIgnoreAsciiCase("Go", "gO")
    ensures !EqIgnoreAsciiCase("go", "go.md") && !EqIgnoreAsciiCase("a", "b")
  {
    assert "a"[0] == 'a' && "b"[0] == 'b';
    assert AsciiLower('a') != AsciiLower('b');
  }

  /** A name of the listing matches one of the ignored names. */
  predicate Ignored(n: Name, ignoreFiles: seq<string>)
  {
    exists i :: 0 <= i < |ignoreFiles| && EqIgnoreAsciiCase(n, ignoreFiles[i])
  }

  /** `is_empty_dir_ignore(path, ignore_files)`: listing something that is
      not a directory is an error; otherwise the answer is whether every
      entry's name equals one of `ignore_files`, ignoring ASCII case. */
  function IsEmptyDirIgnore(t: Node, p: Path, ignoreFiles: seq<string>): (r: Result<bool>)
    ensures r.Ok? <==> IsDirAt(t, p)
  {
    if !IsDirAt(t, p) then Err("failed to read_dir")
    else Ok(forall n :: n in ChildrenAt(t, p) ==> Ignored(n, ignoreFiles))
  }

  /** With nothing to ignore the answer is plain emptiness; an entry that
      matches none of the ignored names makes the answer false, and when
      every entry matches one the answer is true; ignoring more names never
      turns a true answer false. */
  lemma IsEmptyDirIgnoreMeaning(t: Node, p: Path, ignoreFiles: seq<string>, more: seq<string>, n: Name)
    requires IsDirAt(t, p)
    ensures IsEmptyDirIgnore(t, p, []) == Ok(ChildrenAt(t, p) == map[])
    ensures n in ChildrenAt(t, p) && !Ignored(n, ignoreFiles) ==> IsEmptyDirIgnore(t, p, ignoreFiles) == Ok(false)
    ensures (forall m :: m in ChildrenAt(t, p) ==> Ignored(m, ignoreFiles)) ==> IsEmptyDirIgnore(t, p, ignoreFiles) == Ok(true)
    ensures IsEmptyDirIgnore(t, p, ignoreFiles) == Ok(true) ==> IsEmptyDirIgnore(t, p, ignoreFiles + more) == Ok(true)
  {
    if ChildrenAt(t, p) != map[] {
      var m :| m in ChildrenAt(t, p);
      assert !Ignored(m, []);
    }
    if IsEmptyDirIgnore(t, p, ignoreFiles) == Ok(true) {
      forall m | m in ChildrenAt(t, p)
        ensures Ignored(m, ignoreFiles + more)
      {
        var i :| 0 <= i < |ignoreFiles| && EqIgnoreAsciiCase(m, ignoreFiles[i]);
        assert (ignoreFiles + more)[i] == ignoreFiles[i];
      }
    }
  }
}
