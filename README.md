# mise core, modelled in Dafny

This project models three parts of mise, a tool that manages versions of developer tools:

- **The file layer of `src/file.rs`.**
  - Archive format selection (`TarFormat::from_ext`, the format resolution and dispatch of `untar`, `open_tar`).
  - Layout normalisation after unpacking (`strip_archive_path_components`).
  - Archive inspection (`inspect_tar_contents`, `inspect_zip_contents`, `inspect_7z_contents`, `should_strip_components`).
  - The helpers built on them: `find_up`, the `FindUp` iterator, `_which` and `which`, `make_symlink`, `remove_symlinks_with_target_prefix`, `is_empty_dir_ignore`, `split_file_name` and `replace_path`.
- **The .NET backend (`src/plugins/core/dotnet.rs`).**
  - The SDK version catalogue and the `SortedVersion` order.
  - The reading of `global.json`.
  - Where the SDK lives in the isolated and the shared topology: `dotnet_root`, the install directory, `list_bin_paths`, `exec_env`, uninstall.
- **Idiomatic version files (`src/config/config_file/idiomatic_version/mod.rs`).** How the requests of a pin file are gathered from the backends that claim it.

The disk is a finite tree of nodes (`FileTree.Node`):

- a file with an execute bit;
- a directory holding named children;
- a symbolic link holding its target path.

A path is the list of its components, and the root is the empty path. The file operations the source relies on are functions from one tree to the next:

- `FileTree.Rename`, `Unlink`, `CreateSymlink` and `MakeDirs` model `fs::rename`, `fs::remove_file`, the Unix `symlink` and `fs::create_dir_all`, with POSIX semantics (a rename onto a non-empty directory fails).
- `FileTree.RemoveDir` and `RemoveAll` model mise's own `file::remove_dir` and `file::remove_all`. `remove_dir` on a non-empty directory succeeds and leaves the directory in place, as the source's emptiness check does.
- `Files.CreateDirAll` models `file::create_dir_all`, which does nothing when the path exists.

Each of them states what it leaves at the path it works on and, through `FileTree.ChangedOnlyAt`, that every path that is neither that path, below it nor on the way to it keeps its node. Links are never followed.

Paths in `PathNames` are written differently on purpose: `replace_path` and `split_file_name` take relative paths too, so there a path is the list of `Path::components`, with an absolute path starting with the component "/".

Code that changes the disk step by step is written as methods of `Files.FileSystem`, a class whose one field is the tree. Each method's contract ties the new tree after a success to a function of the old one. The extraction methods do this through `Files.ExtractsTo`. The exceptions, where the stated result is weaker, are listed under "Left out". The loops of the source are loops with invariants here:

- the two passes of the strip;
- the upward walks;
- the inspection fold;
- the nested catalogue loop;
- the backend fold of `parse`.

What the archive libraries do is abstracted:

- An archive is a list of entries, each a path and a kind.
- Unpacking is inserting those entries into the tree in order (`Files.PlaceEntry`).
- A decoder either opens the archive (when the archive was written with that codec) or fails.

Two external orders are parameters:

- the order of the `versions` crate, required to be a total preorder;
- the version check of `ToolRequest::new`, a predicate on backend and version.

Along the way the model shows that `open_tar` given `Auto` picks its decoder from the three short extensions only. A `.txz`, `.tbz2` or `.tzst` archive is therefore opened as gzip by `open_tar(Auto, …)`, while `untar` first resolves `Auto` through `from_ext` and opens it with the right decoder (`ArchiveFormat.AutoOpenIgnoresLongExtensions`). `should_strip_components` passes its format to `inspect_tar_contents` without resolving it first.

## Model

| member | source | states |
|---|---|---|
| FileTree.RenameUp | src/file.rs:785-789 | Renaming `dir/w/c` to `dir/c`, when `c` is not yet in `dir`, gives the tree in which `c` has left `w` and sits in `dir` with the same node |
| FileTree.Rename | src/file.rs:788 | A rename that succeeds had an existing source and a directory as the target's parent, and did not move a directory below itself; the target then holds the source's node, the source is gone, and every path off both of them keeps its node |
| FileTree.Unlink | src/file.rs:90-94 | Unlinking succeeds exactly on an existing non-directory (never the root); the entry is gone afterwards and nothing off its path changes |
| FileTree.CreateSymlink | src/file.rs:346-354 | Creating a link succeeds exactly when its parent is a directory and nothing is at the link path; the link then holds the target and nothing off its path changes |
| FileTree.MakeDirs | src/file.rs:212-228 | Creating all directories of a path succeeds exactly when no prefix of the path is a non-directory, and the path is then a directory |
| FileTree.MakeDirsFrame | src/file.rs:212-228 | Creating the directories of a path changes nothing off that path, keeps the directories on the way, and changes nothing at all when the path already is a directory |
| FileTree.RemoveDir | src/file.rs:104-114 | A missing path and a non-empty directory are left alone; a non-directory is an error; an empty directory is removed; nothing off the path changes |
| FileTree.RemoveAll | src/file.rs:61-75 | A missing path is left alone; anything else except the root is removed together with everything below it, and nothing off the path changes |
| Files.CreateDirAll | src/file.rs:212-228 | An existing path is left alone; otherwise it succeeds exactly when no existing prefix of the path is a non-directory, and the path is then a directory; nothing off the path changes |
| Files.MakeDirsKeepsRoot | src/file.rs:212-228 | Creating directories below a directory root leaves a directory root |
| ArchiveFormat.FromExt | src/file.rs:655-665 | Never `Auto`, and any answer other than `Raw` is a format the extension is documented for (the full table is `FromExtTable`) |
| ArchiveFormat.FromExtTable | src/file.rs:655-665 | `from_ext` is total and never answers `Auto`; it gives a format exactly for that format's documented extensions and `Raw` for every other extension |
| ArchiveFormat.ResolveFormat | src/file.rs:676-685 | The resolved format is never `Auto` |
| ArchiveFormat.ResolveFormatFixes | src/file.rs:676-685 | An explicit format is kept; `Auto` becomes `from_ext` of the extension, or `Raw` without one; resolving twice is resolving once |
| ArchiveFormat.UntarRoute | src/file.rs:686-703 | A resolved zip always goes to `unzip`, and 7z to `un7z` on Windows only, with the caller's strip depth; everything else is streamed as a tar with a resolved format |
| ArchiveFormat.OpenTar | src/file.rs:749-767 | An unreadable archive fails, zip and 7z always fail, and any other explicit format succeeds on a readable archive |
| ArchiveFormat.OpenTarChoice | src/file.rs:749-767 | `Raw` opens like `TarGz`; each tar format uses its own decoder; zip and 7z always fail; an unreadable archive fails; `Auto` opens an archive whose extension is exactly `xz`, `bz2` or `zst` like that extension's format, refuses `zip`, and opens every other archive like `TarGz` |
| ArchiveFormat.ResolvedOpenMatchesExtension | src/file.rs:675-747 | After `untar`'s resolution, every documented extension of a tar format is opened with that format's decoder |
| ArchiveFormat.AutoOpenIgnoresLongExtensions | src/file.rs:749-767 | `open_tar(Auto, …)` opens `.txz`, `.tbz2` and `.tzst` as gzip, while the resolved format opens them correctly |
| ArchiveFormat.TarEntries | src/file.rs:712-745 | A tar stream yields its entries exactly when the archive was written with that codec |
| ArchiveFormat.ZipEntries | src/file.rs:803-817 | A zip reader yields entries exactly for a zip archive |
| ArchiveFormat.SevenZipEntries | src/file.rs:858-868 | A 7z reader yields entries exactly for a 7z archive on Windows |
| ArchiveFormat.FoldComponents | src/file.rs:910-926 | The fold's map has exactly the top-level names as keys, and flags a name exactly when some entry under it is a directory or has more than one component; entries without components are ignored |
| ArchiveFormat.PairsOf | src/file.rs:929 | Collecting the map lists every key once with its flag, and nothing else |
| ArchiveFormat.InspectEntries | src/file.rs:910-929 | The fold yields each top-level name once, nothing else, and flags it exactly when some entry under it is a directory or has more than one component; entries without components are ignored |
| ArchiveFormat.SummaryCount | src/file.rs:910-929 | The summary has as many elements as there are distinct top-level names |
| ArchiveFormat.DistinctNamesCount | src/file.rs:929 | A list of pairs with distinct keys has as many distinct keys as elements |
| ArchiveFormat.InspectTarContents | src/file.rs:905-930 | The tar inspection fails exactly when `open_tar` or the entry stream fails, and otherwise summarises the entries |
| ArchiveFormat.InspectZipContents | src/file.rs:933-955 | The zip inspection fails exactly when the archive is not a readable zip, and otherwise summarises the entries |
| ArchiveFormat.Inspect7zContents | src/file.rs:959-981 | The 7z inspection fails off Windows and on a non-7z archive, and otherwise summarises the entries |
| ArchiveFormat.StripDecisionMeaning | src/file.rs:990-997 | The decision is true exactly when there is one top-level name and it is flagged as a directory |
| ArchiveFormat.ShouldStripComponents | src/file.rs:984-998 | An inspection error propagates; otherwise the answer is true exactly when the archive has a single top-level name that is a directory |
| ArchiveFormat.SourceTestCases | src/file.rs:1063-1103 | The source's tests: inspecting an archive that cannot be opened is an error, and a summary of just `mydir` flagged as a directory is stripped |
| ArchiveFormat.NoStripBesideFile | src/file.rs:984-998 | A layout of `lib/` beside `readme.txt` is not stripped |
| ArchiveFormat.StripSingleTopDirectory | src/file.rs:984-998 | A layout of a single `projectname/` holding `bin` is stripped |
| Files.StripSingleDirectory | src/file.rs:769-796 | With one top-level directory the layout is clash-free exactly when the directory does not hold its own name, and stripping then leaves exactly its children |
| Files.LiftMove | src/file.rs:785-789 | Each rename of the first pass moves one child of a top-level directory up under its own name and keeps the loop invariant |
| Files.ClearVisit | src/file.rs:790-794 | Each visit of the second pass finds the top-level entry; an emptied directory is removed and a file or link is kept |
| Files.ClearedAll | src/file.rs:777-796 | When both passes are done, the listing is the stripped layout |
| Files.FileSystem.StripArchivePathComponents | src/file.rs:769-796 | Depth 0 changes nothing; a depth above 1 fails before touching the disk; with depth 1 every child of each top-level directory ends up directly under the directory with the same node, top-level non-directories stay, emptied top-level directories are removed, and nothing else changes |
| Files.ClearLink | src/file.rs:346-354 | Clearing the link path leaves something there exactly when a directory was there, and keeps the parent directory |
| Files.PutTwice | src/file.rs:346-354 | Storing a node twice at the same path is storing it once |
| Files.RelinkIsIdempotent | src/file.rs:346-354 | Making the same link twice leaves the disk as making it once |
| Files.FileSystem.MakeSymlink | src/file.rs:346-354 | Succeeds exactly when the parent is a directory and the link path is not a directory; the old entry is replaced by the link and the pair (target, link) is returned; on failure only the removal has happened |
| Files.KeepLinks | src/file.rs:421-429 | Keeps exactly the entries that are not links into the prefix, with their nodes |
| Files.KeepLinksIsClean | src/file.rs:413-433 | After the pruning no link into the prefix is left, pruning again changes nothing, and nothing else is removed |
| Files.FileSystem.RemoveSymlinksWithTargetPrefix | src/file.rs:413-433 | A missing directory gives an empty list; a non-directory is an error; otherwise exactly the links whose target starts with the prefix are removed, and their paths are returned once each |
| Files.PlaceEntry | src/file.rs:734-741 | Unpacking one entry puts a directory or the entry's node at its path below the destination, and keeps a directory root |
| Files.Unpacked | src/file.rs:734-741 | Unpacking a list of entries keeps a directory root |
| Files.UnpackedLastEntry | src/file.rs:734-741 | After a successful unpack the last entry is in place |
| Files.UnpackedStaysFailed | src/file.rs:734-741 | Once one entry fails, the unpack as a whole fails |
| Files.FileSystem.Unpack | src/file.rs:734-741 | The method succeeds exactly when the fold does, and then leaves the fold's tree |
| Files.FileSystem.Unzip | src/file.rs:803-817 | An unreadable zip fails without touching the disk; otherwise the result is `ExtractsTo` of the zip's entries: creating the destination and writing the entries (or the failure of either), then the written tree for depth 0, a failure for a depth above 1, and the stripped layout for depth 1 without name clashes |
| Files.FileSystem.Un7z | src/file.rs:858-868 | An unreadable 7z fails without touching the disk; otherwise the result is `ExtractsTo` of the archive's entries, as for `Unzip` |
| Files.FileSystem.Extract | src/file.rs:733-745 | A destination that cannot be created fails without touching the disk; otherwise the outcome and the new tree are those `ExtractsTo` gives: the written tree for depth 0, a failure after writing for a depth above 1, the stripped layout for depth 1 without name clashes, and a failure when an entry cannot be written |
| Files.FileSystem.Untar | src/file.rs:675-747 | A strip depth above 1 fails; a resolved zip with an unreadable archive fails unchanged; a tar whose decoder cannot open it fails unchanged; a tar stream that cannot be read fails; otherwise zip, 7z and tar end as `ExtractsTo` of their entries says |
| PathSearch.FoundFirstUnique | src/file.rs:284-297 | The first hit of the upward search is unique |
| PathSearch.FindUp | src/file.rs:284-297 | Returns the first existing path, trying the names in list order in a directory before its parent; returns nothing only when no name exists anywhere from `from` up to the root |
| PathSearch.CandidatesBelow | src/file.rs:545-561 | Every path the iterator probes is a name in the start directory or one of its ancestors |
| PathSearch.CandidatesWalkUp | src/file.rs:545-561 | Probes never move back down: later probes are at most as deep as earlier ones |
| PathSearch.FindUpIterator.constructor | src/file.rs:531-540 | The iterator starts in `from` with the full list of names |
| PathSearch.FindUpIterator.Next | src/file.rs:545-561 | Yields the first remaining probe that is a file and continues after it; when none is left it yields nothing and stands at the root with a full list |
| PathSearch.WhichIn | src/file.rs:586-592 | Returns `dir/name` for the first search-path directory holding an executable `name`, and nothing exactly when none does |
| PathSearch.WhichCache.constructor | src/file.rs:565-578 | The memo table starts empty and agrees with any disk |
| PathSearch.WhichCache.Which | src/file.rs:565-578 | A remembered answer, found or not, is returned as it is; otherwise `_which`'s answer is returned and remembered; on an unchanged disk the answer is always `_which`'s |
| PathNames.FirstDot | src/file.rs:870-876 | Finds the position of the first dot, or reports that there is none |
| PathNames.SplitFileName | src/file.rs:870-876 | On a path whose last component is a name (not the root, `.` or `..`, where the source panics): the base never holds a dot; base, dot and extension put back together give the file name; without a dot the extension is empty |
| PathNames.SplitAtFirstDot | src/file.rs:870-876 | Whatever precedes the first dot is the base and the rest the extension |
| PathNames.SplitVersionedName | src/file.rs:870-876 | `go-1.2.zip` splits into `go-1` and `2.zip`: the cut is at the first dot |
| PathNames.SplitHiddenName | src/file.rs:870-876 | `.rc` splits into an empty base and `rc` |
| PathNames.ReplacePath | src/file.rs:251-257 | A path whose first component is `~` becomes the home directory followed by the rest of the path; any other path is returned unchanged |
| PathNames.ReplacePathIdempotent | src/file.rs:1056-1061 | Expanding twice is expanding once; the source's test cases `~/cwd` and `/cwd` hold, and `~user/cwd` is left alone |
| PathNames.EqIgnoreAsciiCaseFacts | src/file.rs:513-518 | Comparing names without ASCII case is an equivalence, with examples either way |
| PathNames.IsEmptyDirIgnore | src/file.rs:509-523 | Fails exactly when the path is not a directory |
| PathNames.IsEmptyDirIgnoreMeaning | src/file.rs:509-523 | With nothing ignored the answer is plain emptiness; an unmatched entry makes it false, and when every entry matches an ignored name it is true; ignoring more names never turns true into false |
| Dotnet.StringCmpIsTotalOrder | src/plugins/core/dotnet.rs:320 | String comparison is a total order that is `Equal` only on equal strings |
| Dotnet.SortedVersionCmp | src/plugins/core/dotnet.rs:316-322 | The version rank decides unless it ties; the result is `Equal` exactly when the rank ties and the strings are the same |
| Dotnet.SortedVersionIsTotalOrder | src/plugins/core/dotnet.rs:313-322 | Rank first, then the raw string: a total order, antisymmetric and transitive, `Equal` only for identical strings |
| Dotnet.InsertSorted | src/plugins/core/dotnet.rs:84 | Inserting into the ordered set keeps it strictly ascending and adds exactly the version |
| Dotnet.ChannelUrls | src/plugins/core/dotnet.rs:65-71 | The URLs fetched are exactly the present, non-empty `releases.json` values of the index |
| Dotnet.ChannelUrlsKeepOrder | src/plugins/core/dotnet.rs:65-71 | The URLs keep index order |
| Dotnet.ChannelVersionsMeaning | src/plugins/core/dotnet.rs:76-87 | A version is in the catalogue exactly when some release of some fetched channel names it |
| Dotnet.ReleaseVersionsMeaning | src/plugins/core/dotnet.rs:77-86 | A version is named by a channel's releases exactly when the `sdk` entry or an `sdks` entry of one of them names it |
| Dotnet.SdkVersionsMeaning | src/plugins/core/dotnet.rs:81-85 | A version is named by a list of SDK entries exactly when one of them carries it; entries without a version contribute nothing |
| Dotnet.CollectVersions | src/plugins/core/dotnet.rs:76-95 | The catalogue is strictly ascending under `SortedVersion` (so it has no repeats) and holds exactly the versions named anywhere |
| Dotnet.IdiomaticFilenames | src/plugins/core/dotnet.rs:98-100 | The one file name is `global.json` |
| Dotnet.ParseIdiomaticFile | src/plugins/core/dotnet.rs:102-112 | A read or decode error and a missing `sdk` are errors; an empty version gives no version; any other gives exactly that one |
| Dotnet.DotnetRoot | src/plugins/core/dotnet.rs:210-217 | The setting if present, else `$DOTNET_ROOT`, else `<data>/dotnet-root` |
| Dotnet.DotnetRootPrecedence | src/plugins/core/dotnet.rs:210-217 | A source lower in the chain never changes the answer while one above it is present |
| Dotnet.InstallDir | src/plugins/core/dotnet.rs:115-120 | Isolated: the version's install path; shared: the shared root |
| Dotnet.ListBinPaths | src/plugins/core/dotnet.rs:170-180 | The one bin path is the install path when isolated and the shared root when shared |
| Dotnet.TopologyAgrees | src/plugins/core/dotnet.rs:115-192 | The bin path is the install directory in both topologies |
| Dotnet.ExecEnv | src/plugins/core/dotnet.rs:182-207 | `DOTNET_ROOT` is the install directory and `DOTNET_MULTILEVEL_LOOKUP` is "0"; `DOTNET_CLI_TELEMETRY_OPTOUT` is present exactly when set, "1" or "0"; there are no other keys |
| Dotnet.UninstallVersion | src/plugins/core/dotnet.rs:152-168 | Isolated does nothing; shared removes only `<root>/sdk/<version>`, only if it exists; the shared root stays |
| Dotnet.InstallLayout | src/plugins/core/dotnet.rs:114-145 | Isolated: succeeds exactly when `create_dir_all` of the install path does, and the new tree is its result. Shared: the new tree is the link to the shared root stored where the install path was removed, after `create_dir_all` of the root; no path off the install path and the root changes; a root that was a directory or missing is a directory afterwards unless it lies inside the install path; this succeeds whenever the root and the install path's parent are directories |
| IdiomaticVersion.ToolRequestSet.AddVersion | src/config/config_file/idiomatic_version/mod.rs:38 | The request is added after all earlier ones, which keep their order |
| IdiomaticVersion.IdiomaticVersionFile.Source | src/config/config_file/idiomatic_version/mod.rs:100-102 | The source of a file's requests names that file |
| IdiomaticVersion.IdiomaticVersionFile.ToToolRequestSet | src/config/config_file/idiomatic_version/mod.rs:104-106 | Never fails, and returns the stored requests in order |
| IdiomaticVersion.NewRequest | src/config/config_file/idiomatic_version/mod.rs:37 | A request is made exactly for an accepted version, with the backend, the version and the source given |
| IdiomaticVersion.AggregateAppend | src/config/config_file/idiomatic_version/mod.rs:33-46 | Backends are processed in order: the requests of a list followed by another are those of the first then those of the second |
| IdiomaticVersion.AggregateSucceeds | src/config/config_file/idiomatic_version/mod.rs:33-46 | The parse fails exactly when a backend that parsed the file returned a rejected version; parser errors never fail it |
| IdiomaticVersion.AggregateMembers | src/config/config_file/idiomatic_version/mod.rs:30-39 | A request is in the set exactly when a backend that parsed the file returned its version, under its own identity, with the file as source |
| IdiomaticVersion.SkippedBackendContributesNothing | src/config/config_file/idiomatic_version/mod.rs:41-44 | A backend whose parser fails changes nothing: the result equals the one without it |
| IdiomaticVersion.NothingToParse | src/config/config_file/idiomatic_version/mod.rs:31-48 | No backends, or backends that return no versions, give an empty set and no error |
| IdiomaticVersion.Init | src/config/config_file/idiomatic_version/mod.rs:22-27 | A new file has no requests, its source is the file, and its request set is the empty one |
| IdiomaticVersion.Parse | src/config/config_file/idiomatic_version/mod.rs:29-49 | The loop yields exactly the aggregate of the backends, fails exactly when it does, keeps the path, tags every request with the file's own `source()`, and `to_tool_request_set()` then answers the aggregate |
| IdiomaticVersion.Matching | src/config/config_file/idiomatic_version/mod.rs:55-62 | A backend is a candidate exactly when its filename query succeeds and lists the file name |
| IdiomaticVersion.MatchingAppend | src/config/config_file/idiomatic_version/mod.rs:55-62 | Candidates keep registry order |
| IdiomaticVersion.SelectCandidates | src/config/config_file/idiomatic_version/mod.rs:53-62 | The loop keeps exactly the matching backends, in order |
| IdiomaticVersion.FromFile | src/config/config_file/idiomatic_version/mod.rs:51-64 | The file is parsed by the candidates for its base name; a file no backend claims gives the empty file |
| IdiomaticVersion.ParseErrorIsSkipped | src/config/config_file/idiomatic_version/mod.rs:174-197 | The source's test: a failing `node` ahead of a `python` pinning 3.10.0 gives exactly the one `python` request |
| IdiomaticVersion.GlobalJsonPinsDotnet | src/plugins/core/dotnet.rs:98-112 | A `global.json` with a non-empty SDK version is claimed by the .NET backend and yields exactly that request |

## Left out

- Decompression and the archive libraries: gzip, xz, bzip2, zstd, the zip and 7z readers, and tar's `unpack_in`. An archive is a codec and an entry list. Unpacking places entries in order and is not proved to match the inspection summary entry by entry.
- Tar's own path sanitising in `unpack_in` (`..` components, absolute paths) is not modelled; entries are placed below the destination as given.
- FileTree.RemoveAll: a link whose target is missing is left in place by the source, because `metadata` follows the link and fails; the model removes every link.
- Symbolic links are never followed by the model's queries. In particular, `ls` on a top-level link to a directory returns its children in the source; the model treats the link as a non-directory.
- Files.FileSystem.StripArchivePathComponents: its layout result is stated for layouts without name clashes. The renaming order of the source (the sorted `BTreeSet` of `ls`) is not modelled, so where a child's name clashes the model only guarantees that the directory stays valid.
- Files.FileSystem.Untar: when the tar stream cannot be read after the destination was created, only the failure is stated, not the tree left behind.
- Files.FileSystem.Extract: with strip depth 1 and a layout with name clashes, only the outcome's validity is stated, as for `StripArchivePathComponents`; the same holds for Files.FileSystem.Unzip, Files.FileSystem.Un7z and Files.FileSystem.Untar through `ExtractsTo`. When writing an entry fails, only the failure is stated, not the partly written tree.
- Files.FileSystem.Unzip and Files.FileSystem.Un7z: the libraries' own layout of extracted files is the same entry placement as tar's; zip's handling of unsafe names is not modelled.
- Dotnet.InstallLayout: the download of the install script, its execution and `test_dotnet` are left out; only the directory creation and the link of the shared topology are modelled. So the tree is stated as these steps leave it, without the files the script writes below the install directory. When the shared steps fail part-way, only the failure is stated.
- The `unimplemented!()` branch of `inspect_7z_contents` off Windows, a panic, is modelled as an error result.
- `split_file_name` panics in the source on a path without a file name: an empty path, or one ending in the root, `.` or `..`. The model requires a path whose last component is a plain name.
- `is_executable` is true only for a regular file with an execute bit. Permission bits of directories and links are not modelled, and neither is the Windows extension list.
- The `cfg!(test)` guard of `FindUp::next` that stops at `$HOME` in tests is not modelled.
- `which` searches a name of one path component.
- The memo of `which` is a plain map; its mutex is about concurrency and is left out.
- The mutex of `create_dir_all`, progress reporting, trace logging and the wording of error messages are left out.
- HTTP fetches, `parallel::parallel` and serde decoding in the .NET backend are left out; the model starts from the deserialised records. The failure of any one channel fetch failing the listing is not modelled.
- `versions::Versioning` is not visible. Its order is a parameter assumed to be a total preorder.
- `ToolRequest::new` is not visible. Its version check is a parameter.
- `ToolRequestSet` is not visible. It is an insertion-ordered list of requests, and `add_version` appends.
- `supports_lockfile_url` always answers false and is not modelled.
- `Settings` and `$DOTNET_ROOT` are read through a `Context` record rather than process globals.
- The version is taken as one path component.
- The `ConfigFile` methods `remove_tool`, `replace_versions`, `save` and `dump` of idiomatic version files are `unimplemented!()` and are left out, as is the async runtime of `parse` and `from_file`.
- `config_type` and `get_path` are plain accessors and are not modelled.
- Thin I/O wrappers of `src/file.rs` (`open`, `read`, `write`, `copy`, `touch_*`, `display_path`, `un_dmg`, `un_pkg`, `clone_dir`, `desymlink_path`, `same_file`) are not part of this model.
