/** The decision logic of the .NET backend (src/plugins/core/dotnet.rs): the
    SDK version catalogue, `global.json`, where the SDK lives in the isolated
    and shared topologies, and what installing and uninstalling do to the
    file system. The release index, the channel files and `global.json` are
    taken as already-deserialised records; the ordering of the `versions`
    crate is a parameter. */
module Dotnet {
  import opened Wrappers
  import opened FileTree
  import Files

  datatype Ordering = Less | Equal | Greater {
    function Flip(): Ordering
    {
      match this
      case Less => Greater
      case Equal => Equal
      case Greater => Less
    }
  }

  // ---- SortedVersion ----

  /** `cmp` of Rust strings: byte-wise lexicographic order of the UTF-8
      encoding, which is the order of the code points. */
  function StringCmp(a: string, b: string): Ordering
    decreases |a|
  {
    if a == [] && b == [] then Equal
    else if a == [] then Less
    else if b == [] then Greater
    else if a[0] < b[0] then Less
    else if a[0] > b[0] then Greater
    else StringCmp(a[1..], b[1..])
  }

  /** String comparison is a total order: equal only on equal strings,
      antisymmetric, transitive. */
  lemma {:induction false} StringCmpIsTotalOrder(a: string, b: string, c: string)
    ensures StringCmp(a, b) == Equal <==> a == b
    ensures StringCmp(a, b) == StringCmp(b, a).Flip()
    ensures StringCmp(a, b) != Greater && StringCmp(b, c) != Greater ==> StringCmp(a, c) != Greater
    decreases |a|
  {
    if a != [] && b != [] && c != [] {
      StringCmpIsTotalOrder(a[1..], b[1..], c[1..]);
      if a[0] == b[0] && a[1..] == b[1..] {
        assert a == [a[0]] + a[1..] && b == [b[0]] + b[1..];
      }
    } else if a != [] && b != [] {
      StringCmpIsTotalOrder(a[1..], b[1..], b[1..]);
      if a[0] == b[0] && a[1..] == b[1..] {
        assert a == [a[0]] + a[1..] && b == [b[0]] + b[1..];
      }
    }
  }

  /** The order of `versions::Versioning` on the strings it parses, as the
      `Ord` contract promises it: a total preorder (two different strings
      may rank equal). */
  ghost predicate TotalPreorder(rank: (string, string) -> Ordering)
  {
    (forall a :: rank(a, a) == Equal)
    && (forall a, b :: rank(a, b) == rank(b, a).Flip())
    && (forall a, b, c :: rank(a, b) != Greater && rank(b, c) != Greater ==> rank(a, c) != Greater)
  }

  /** `SortedVersion::cmp`: by version rank, ties broken by the raw string. */
  function SortedVersionCmp(rank: (string, string) -> Ordering, a: string, b: string): (r: Ordering)
    ensures rank(a, b) != Equal ==> r == rank(a, b)
    ensures r == Equal <==> rank(a, b) == Equal && a == b
  {
    StringCmpIsTotalOrder(a, b, b);
    var o := rank(a, b);
    if o == Equal then StringCmp(a, b) else o
  }

  /** With a total preorder as rank, `SortedVersion::cmp` is a total order
      that calls two versions equal only when they are the same string. */
  lemma SortedVersionIsTotalOrder(rank: (string, string) -> Ordering, a: string, b: string, c: string)
    requires TotalPreorder(rank)
    ensures SortedVersionCmp(rank, a, b) == Equal <==> a == b
    ensures SortedVersionCmp(rank, a, b) == SortedVersionCmp(rank, b, a).Flip()
    ensures SortedVersionCmp(rank, a, b) != Greater && SortedVersionCmp(rank, b, c) != Greater ==>
      SortedVersionCmp(rank, a, c) != Greater
  {
    StringCmpIsTotalOrder(a, b, c);
    StringCmpIsTotalOrder(b, a, c);
    assert rank(a, b) != Greater && rank(b, c) != Greater ==> rank(a, c) != Greater;
    assert rank(b, c) != Greater && rank(c, a) != Greater ==> rank(b, a) != Greater;
    assert rank(c, a) != Greater && rank(a, b) != Greater ==> rank(c, b) != Greater;
    assert rank(a, c) == rank(c, a).Flip() && rank(b, a) == rank(a, b).Flip() && rank(c, b) == rank(b, c).Flip();
  }

  /** Strictly ascending under `SortedVersion::cmp`, hence free of repeats. */
  ghost predicate Ascending(rank: (string, string) -> Ordering, s: seq<string>)
  {
    forall i, j :: 0 <= i < j < |s| ==> SortedVersionCmp(rank, s[i], s[j]) == Less
  }

  /** `BTreeSet::insert` on the set kept as an ascending sequence: the
      version is added unless an equal one is already there. */
  function InsertSorted(rank: (string, string) -> Ordering, s: seq<string>, v: string): (r: seq<string>)
    requires TotalPreorder(rank) && Ascending(rank, s)
    ensures Ascending(rank, r)
    ensures forall x :: x in r <==> x in s || x == v
    decreases |s|
  {
    if s == [] then [v]
    else
      var o := SortedVersionCmp(rank, v, s[0]);
      if o == Less then
        forall j | 0 <= j < |s|
          ensures SortedVersionCmp(rank, v, s[j]) == Less
        {
          SortedVersionIsTotalOrder(rank, v, s[0], s[j]);
          SortedVersionIsTotalOrder(rank, s[0], s[j], v);
          SortedVersionIsTotalOrder(rank, v, s[j], s[j]);
        }
        [v] + s
      else if o == Equal then
        SortedVersionIsTotalOrder(rank, v, s[0], v);
        s
      else
        var rest := InsertSorted(rank, s[1..], v);
        assert forall x :: x in s[1..] ==> x in s;
        forall j | 0 <= j < |rest|
          ensures SortedVersionCmp(rank, s[0], rest[j]) == Less
        {
          SortedVersionIsTotalOrder(rank, s[0], v, v);
          if rest[j] != v {
            assert rest[j] in rest;
            var k :| 0 <= k < |s[1..]| && s[1..][k] == rest[j];
            assert s[k + 1] == rest[j];
          }
        }
        assert s == [s[0]] + s[1..];
        [s[0]] + rest
  }

  // ---- the release catalogue ----

  datatype Sdk = Sdk(version: Option<string>)
  datatype Release = Release(sdk: Option<Sdk>, sdks: Option<seq<Sdk>>)
  datatype ChannelReleases = ChannelReleases(releases: seq<Release>)
  datatype ChannelEntry = ChannelEntry(releasesJson: Option<string>)
  datatype ReleasesIndex = ReleasesIndex(releasesIndex: seq<ChannelEntry>)

  /** The channel files fetched for the index: each channel's
      `releases.json` when present and non-empty, in index order. */
  function ChannelUrls(index: seq<ChannelEntry>): (r: seq<string>)
    ensures forall u :: u in r <==> u != "" && ChannelEntry(Some(u)) in index
    ensures |r| <= |index|
    decreases |index|
  {
    if index == [] then []
    else
      var rest := ChannelUrls(index[1..]);
      assert forall e :: e in index <==> e == index[0] || e in index[1..];
      match index[0].releasesJson
      case Some(u) => if u != "" then [u] + rest else rest
      case None => rest
  }

  /** The index is read in order: channels listed first are fetched first. */
  lemma {:induction false} ChannelUrlsKeepOrder(a: seq<ChannelEntry>, b: seq<ChannelEntry>)
    ensures ChannelUrls(a + b) == ChannelUrls(a) + ChannelUrls(b)
    decreases |a|
  {
    if a != [] {
      assert (a + b)[0] == a[0] && (a + b)[1..] == a[1..] + b;
      ChannelUrlsKeepOrder(a[1..], b);
    } else {
      assert a + b == b;
    }
  }

  /** The SDK entries of a release: its `sdk`, then its `sdks`. */
  function ReleaseSdks(r: Release): seq<Sdk>
  {
    (if r.sdk.Some? then [r.sdk.value] else [])
    + (if r.sdks.Some? then r.sdks.value else [])
  }

  /** The versions named by a list of SDK entries (entries without one name
      nothing). */
  function SdkVersions(sdks: seq<Sdk>): set<string>
    decreases |sdks|
  {
    if sdks == [] then {}
    else
      SdkVersions(sdks[..|sdks| - 1])
      + (if sdks[|sdks| - 1].version.Some? then {sdks[|sdks| - 1].version.value} else {})
  }

  function ReleaseVersions(releases: seq<Release>): set<string>
    decreases |releases|
  {
    if releases == [] then {}
    else ReleaseVersions(releases[..|releases| - 1]) + SdkVersions(ReleaseSdks(releases[|releases| - 1]))
  }

  function ChannelVersions(channels: seq<ChannelReleases>): set<string>
    decreases |channels|
  {
    if channels == [] then {}
    else ChannelVersions(channels[..|channels| - 1]) + ReleaseVersions(channels[|channels| - 1].releases)
  }

  /** A version is in the catalogue exactly when some release of some
      channel names it. */
  lemma {:induction false} ChannelVersionsMeaning(channels: seq<ChannelReleases>, v: string)
    ensures v in ChannelVersions(channels) <==>
      exists i :: 0 <= i < |channels| && v in ReleaseVersions(channels[i].releases)
  {
    if v in ChannelVersions(channels) {
      var i := ChannelOf(channels, v);
    }
    forall i | 0 <= i < |channels| && v in ReleaseVersions(channels[i].releases)
      ensures v in ChannelVersions(channels)
    {
      ChannelContributes(channels, i, v);
    }
  }

  /** The channel a catalogued version comes from. */
  lemma {:induction false} ChannelOf(channels: seq<ChannelReleases>, v: string) returns (i: nat)
    requires v in ChannelVersions(channels)
    ensures i < |channels| && v in ReleaseVersions(channels[i].releases)
    decreases |channels|
  {
    var n := |channels| - 1;
    if v in ChannelVersions(channels[..n]) {
      i := ChannelOf(channels[..n], v);
      assert channels[..n][i] == channels[i];
    } else {
      i := n;
    }
  }

  /** Every version of every channel is catalogued. */
  lemma {:induction false} ChannelContributes(channels: seq<ChannelReleases>, i: nat, v: string)
    requires i < |channels| && v in ReleaseVersions(channels[i].releases)
    ensures v in ChannelVersions(channels)
    decreases |channels|
  {
    var n := |channels| - 1;
    if i < n {
      assert channels[..n][i] == channels[i];
      ChannelContributes(channels[..n], i, v);
    }
  }

  /** A version is named by a list of releases exactly when one of their
      SDK entries names it. */
  lemma {:induction false} ReleaseVersionsMeaning(releases: seq<Release>, v: string)
    ensures v in ReleaseVersions(releases) <==>
      exists j :: 0 <= j < |releases| && v in SdkVersions(ReleaseSdks(releases[j]))
    decreases |releases|
  {
    if releases != [] {
      var n := |releases| - 1;
      ReleaseVersionsMeaning(releases[..n], v);
      if v in ReleaseVersions(releases[..n]) {
        var j :| 0 <= j < n && v in SdkVersions(ReleaseSdks(releases[..n][j]));
        assert releases[..n][j] == releases[j];
      }
      if exists j :: 0 <= j < |releases| && v in SdkVersions(ReleaseSdks(releases[j])) {
        var j :| 0 <= j < |releases| && v in SdkVersions(ReleaseSdks(releases[j]));
        if j < n {
          assert releases[..n][j] == releases[j];
        }
      }
    }
  }

  /** A version is named by a list of SDK entries exactly when one of them
      carries it; entries without a version name nothing. */
  lemma {:induction false} SdkVersionsMeaning(sdks: seq<Sdk>, v: string)
    ensures v in SdkVersions(sdks) <==> exists k :: 0 <= k < |sdks| && sdks[k].version == Some(v)
    decreases |sdks|
  {
    if sdks != [] {
      var n := |sdks| - 1;
      SdkVersionsMeaning(sdks[..n], v);
      if v in SdkVersions(sdks[..n]) {
        var k :| 0 <= k < n && sdks[..n][k].version == Some(v);
        assert sdks[k].version == Some(v);
      }
      if exists k :: 0 <= k < |sdks| && sdks[k].version == Some(v) {
        var k :| 0 <= k < |sdks| && sdks[k].version == Some(v);
        if k < n {
          assert sdks[..n][k].version == Some(v);
        }
      }
    }
  }

  /** The version catalogue of `_list_remote_versions` (lines 76-95): every
      SDK version of every release of every fetched channel is inserted into
      a `BTreeSet<SortedVersion>`, which is then read in order. The result
      holds each listed version once, and nothing else, in strictly
      ascending `SortedVersion` order. */
  method CollectVersions(rank: (string, string) -> Ordering, channels: seq<ChannelReleases>) returns (versions: seq<string>)
    requires TotalPreorder(rank)
    ensures Ascending(rank, versions)
    ensures forall v :: v in versions <==> v in ChannelVersions(channels)
  {
    versions := [];
    for i := 0 to |channels|
      invariant Ascending(rank, versions)
      invariant forall v :: v in versions <==> v in ChannelVersions(channels[..i])
    {
      var releases := channels[i].releases;
      for j := 0 to |releases|
        invariant Ascending(rank, versions)
        invariant forall v :: v in versions <==>
          v in ChannelVersions(channels[..i]) || v in ReleaseVersions(releases[..j])
      {
        var sdks := ReleaseSdks(releases[j]);
        for k := 0 to |sdks|
          invariant Ascending(rank, versions)
          invariant forall v :: v in versions <==>
            v in ChannelVersions(channels[..i]) || v in ReleaseVersions(releases[..j]) || v in SdkVersions(sdks[..k])
        {
          assert sdks[..k + 1][..k] == sdks[..k];
          if sdks[k].version.Some? {
            versions := InsertSorted(rank, versions, sdks[k].version.value);
          }
        }
        assert releases[..j + 1][..j] == releases[..j];
        assert sdks[..|sdks|] == sdks;
      }
      assert channels[..i + 1][..i] == channels[..i];
      assert releases[..|releases|] == releases;
    }
    assert channels[..|channels|] == channels;
  }

  // ---- global.json ----

  datatype GlobalJsonSdk = GlobalJsonSdk(version: string)
  datatype GlobalJson = GlobalJson(sdk: Option<GlobalJsonSdk>)

  /** `_idiomatic_filenames`: the one file the backend reads. */
  function IdiomaticFilenames(): (r: Result<seq<string>>)
    ensures r.Ok? && |r.value| == 1 && "global.json" in r.value
  {
    Ok(["global.json"])
  }

  /** `_parse_idiomatic_file` once the file is read and deserialised (a
      failure of either is passed in as an error): no `sdk` section is an
      error, an empty version asks for nothing, any other version is the one
      version asked for. */
  function ParseIdiomaticFile(parsed: Result<GlobalJson>): (r: Result<seq<string>>)
    ensures r.Ok? <==> parsed.Ok? && parsed.value.sdk.Some?
    ensures r.Ok? ==> |r.value| <= 1
    ensures r.Ok? ==> (r.value == [] <==> parsed.value.sdk.value.version == "")
    ensures r.Ok? ==> forall v :: v in r.value ==> v == parsed.value.sdk.value.version
  {
    var g :- parsed;
    if g.sdk.None? then Err("no sdk.version found")
    else if g.sdk.value.version == "" then Ok([])
    else Ok([g.sdk.value.version])
  }

  // ---- topology ----

  /** The `dotnet` settings and the process environment the backend reads. */
  datatype Context = Context(
    isolated: bool,
    dotnetRootSetting: Option<Path>,
    cliTelemetryOptout: Option<bool>,
    envDotnetRoot: Option<Path>,
    dataDir: Path)

  /** `dotnet_root()`: the setting, else `$DOTNET_ROOT`, else
      `<data dir>/dotnet-root`. */
  function DotnetRoot(ctx: Context): (r: Path)
    ensures ctx.dotnetRootSetting.Some? ==> r == ctx.dotnetRootSetting.value
    ensures ctx.dotnetRootSetting.None? && ctx.envDotnetRoot.Some? ==> r == ctx.envDotnetRoot.value
    ensures ctx.dotnetRootSetting.None? && ctx.envDotnetRoot.None? ==> r == ctx.dataDir + ["dotnet-root"]
  {
    match ctx.dotnetRootSetting
    case Some(p) => p
    case None =>
      match ctx.envDotnetRoot
      case Some(p) => p
      case None => ctx.dataDir + ["dotnet-root"]
  }

  /** The setting shadows the environment, and both shadow the default: a
      source further down the chain is consulted only when every source
      above it is absent. */
  lemma DotnetRootPrecedence(ctx: Context, env: Option<Path>, data: Path)
    ensures ctx.dotnetRootSetting.Some? ==>
      DotnetRoot(ctx.(envDotnetRoot := env, dataDir := data)) == DotnetRoot(ctx)
    ensures ctx.envDotnetRoot.Some? ==> DotnetRoot(ctx.(dataDir := data)) == DotnetRoot(ctx)
  {
  }

  /** Where `install_version_` installs: the tool version's own install path
      when isolated, the shared root otherwise. */
  function InstallDir(ctx: Context, installPath: Path): (r: Path)
    ensures ctx.isolated ==> r == installPath
    ensures !ctx.isolated ==> r == DotnetRoot(ctx)
  {
    if ctx.isolated then installPath else DotnetRoot(ctx)
  }

  /** `list_bin_paths`: the one directory put on `PATH`. */
  function ListBinPaths(ctx: Context, installPath: Path): (r: seq<Path>)
    ensures ctx.isolated ==> r == [installPath]
    ensures !ctx.isolated ==> r == [DotnetRoot(ctx)]
  {
    if ctx.isolated then [installPath] else [DotnetRoot(ctx)]
  }

  /** The install directory, the `PATH` entry and the root handed to the
      SDK agree in both topologies. */
  lemma TopologyAgrees(ctx: Context, installPath: Path)
    ensures ListBinPaths(ctx, installPath) == [InstallDir(ctx, installPath)]
  {
  }

  /** The text of an absolute path, as `to_string_lossy` prints it. */
  function PathText(p: Path): string
  {
    if p == [] then "/" else Segments(p)
  }

  function Segments(p: Path): string
  {
    if p == [] then "" else "/" + p[0] + Segments(p[1..])
  }

  /** `exec_env`: `DOTNET_ROOT` is the install directory of the topology,
      `DOTNET_MULTILEVEL_LOOKUP` is "0", and `DOTNET_CLI_TELEMETRY_OPTOUT`
      is present exactly when its setting is, "1" for true and "0" for
      false; there is nothing else. */
  method ExecEnv(ctx: Context, installPath: Path) returns (env: map<string, string>)
    ensures env.Keys == {"DOTNET_ROOT", "DOTNET_MULTILEVEL_LOOKUP"}
      + (if ctx.cliTelemetryOptout.Some? then {"DOTNET_CLI_TELEMETRY_OPTOUT"} else {})
    ensures "DOTNET_ROOT" in env && env["DOTNET_ROOT"] == PathText(InstallDir(ctx, installPath))
    ensures "DOTNET_MULTILEVEL_LOOKUP" in env && env["DOTNET_MULTILEVEL_LOOKUP"] == "0"
    ensures ctx.cliTelemetryOptout == Some(true) ==> env["DOTNET_CLI_TELEMETRY_OPTOUT"] == "1"
    ensures ctx.cliTelemetryOptout == Some(false) ==> env["DOTNET_CLI_TELEMETRY_OPTOUT"] == "0"
  {
    var root := if ctx.isolated then installPath else DotnetRoot(ctx);
    env := map["DOTNET_ROOT" := PathText(root), "DOTNET_MULTILEVEL_LOOKUP" := "0"];
    if ctx.cliTelemetryOptout.Some? {
      var optout := ctx.cliTelemetryOptout.value;
      env := env["DOTNET_CLI_TELEMETRY_OPTOUT" := if optout then "1" else "0"];
    }
  }

  /** The SDK directory of one version below the shared root. */
  function SdkDir(ctx: Context, version: Name): Path
  {
    DotnetRoot(ctx) + ["sdk", version]
  }

  /** `uninstall_version_impl`: nothing in the isolated topology (the
      generic uninstall removes the install path); in the shared topology
      only `<root>/sdk/<version>` is removed, and only when it exists; the
      shared root itself stays. */
  method UninstallVersion(fs: Files.FileSystem, ctx: Context, version: Name) returns (r: Outcome)
    requires fs.Valid()
    modifies fs
    ensures fs.Valid() && r == Pass
    ensures ctx.isolated || !Exists(old(fs.root), SdkDir(ctx, version)) ==> fs.root == old(fs.root)
    ensures !ctx.isolated && Exists(old(fs.root), SdkDir(ctx, version)) ==>
      fs.root == Detach(old(fs.root), SdkDir(ctx, version)) && !Exists(fs.root, SdkDir(ctx, version))
    ensures IsDirAt(old(fs.root), DotnetRoot(ctx)) ==> IsDirAt(fs.root, DotnetRoot(ctx))
  {
    if ctx.isolated {
      return Pass;
    }
    var sdkDir := DotnetRoot(ctx) + ["sdk", version];
    if Exists(fs.root, sdkDir) {
      var removed := RemoveAll(fs.root, sdkDir);
      var root := DotnetRoot(ctx);
      if IsDirAt(fs.root, root) {
        assert Parent(sdkDir) == root + ["sdk"];
        UpdateKeepsAncestors(fs.root, Parent(sdkDir), ChildrenAt(fs.root, Parent(sdkDir)) - {BaseName(sdkDir)}, root);
      }
      fs.root := removed.value;
    }
    return Pass;
  }

  /** The file-system steps of `install_version_` around the install script
      (which is not modelled): the install directory is created; in the
      shared topology the tool version's install path is then replaced by a
      link to the shared root, so that it is tracked like any other
      install. Isolated, the result is exactly `create_dir_all` of the
      install path; shared, it is the link stored where the install path
      was removed, after `create_dir_all` of the shared root. Either way no
      path off the ones involved changes, and a shared root that is (or
      becomes) a directory stays one unless it lies inside the install
      path. */
  method InstallLayout(fs: Files.FileSystem, ctx: Context, installPath: Path) returns (r: Outcome)
    requires fs.Valid()
    modifies fs
    ensures fs.Valid()
    ensures ctx.isolated ==> (r.Pass? <==> Files.CreateDirAll(old(fs.root), installPath).Ok?)
    ensures r.Pass? && ctx.isolated ==>
      Files.CreateDirAll(old(fs.root), installPath) == Ok(fs.root)
      && Exists(fs.root, installPath)
      && ChangedOnlyAt(old(fs.root), fs.root, installPath)
    ensures r.Pass? && ctx.isolated && !Exists(old(fs.root), installPath) ==> IsDirAt(fs.root, installPath)
    ensures r.Pass? && !ctx.isolated ==>
      var made := Files.CreateDirAll(old(fs.root), DotnetRoot(ctx));
      installPath != [] && made.Ok? && RemoveAll(made.value, installPath).Ok?
      && fs.root == Put(RemoveAll(made.value, installPath).value, installPath, Symlink(DotnetRoot(ctx)))
    ensures r.Pass? && !ctx.isolated ==> Lookup(fs.root, installPath) == Some(Symlink(DotnetRoot(ctx)))
    ensures r.Pass? && !ctx.isolated ==>
      forall q :: !(q <= installPath) && !(installPath <= q) && !(q <= DotnetRoot(ctx)) && !(DotnetRoot(ctx) <= q) ==>
        Lookup(fs.root, q) == Lookup(old(fs.root), q)
    ensures (r.Pass? && !ctx.isolated && !(installPath <= DotnetRoot(ctx))
             && (IsDirAt(old(fs.root), DotnetRoot(ctx)) || !Exists(old(fs.root), DotnetRoot(ctx)))) ==>
      IsDirAt(fs.root, DotnetRoot(ctx))
    ensures (!ctx.isolated && installPath != [] && IsDirAt(old(fs.root), DotnetRoot(ctx))
             && IsDirAt(old(fs.root), Parent(installPath))) ==> r.Pass?
  {
    var installDir := if ctx.isolated then installPath else DotnetRoot(ctx);
    var made := Files.CreateDirAll(fs.root, installDir);
    if made.Err? {
      return Fail(made.msg);
    }
    Files.MakeDirsKeepsRoot(fs.root, installDir);
    fs.root := made.value;
    if !ctx.isolated {
      var cleared := RemoveAll(fs.root, installPath);
      if cleared.Err? {
        return Fail(cleared.msg);
      }
      if installPath != [] && Exists(fs.root, installPath) && IsDirAt(fs.root, Parent(installPath)) {
        var d := Parent(installPath);
        UpdateKeepsAncestors(fs.root, d, ChildrenAt(fs.root, d) - {BaseName(installPath)}, d);
      }
      fs.root := cleared.value;
      var linked := fs.MakeSymlink(installDir, installPath);
      if linked.Err? {
        return Fail(linked.msg);
      }
      PutFacts(cleared.value, installPath, Symlink(installDir));
    }
    return Pass;
  }
}
