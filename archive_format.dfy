/** Archive formats as src/file.rs sees them: the extension table, the format
    chosen by `untar`, the decoder chosen by `open_tar`, and the read-only
    inspection of an archive's top-level layout that decides whether a single
    wrapper directory should be stripped.

    An archive file is modelled by its extension and, when it can be opened,
    by the encoding its bytes really have and its entry list; decompressors
    and archive readers are not modelled beyond "the bytes are (not) in the
    encoding this reader expects". */
module ArchiveFormat {
  import opened Wrappers

  /** `TarFormat`; `Auto` (the default) asks for detection, `Raw` is what an
      unknown extension maps to. */
  datatype TarFormat = Auto | TarGz | TarXz | TarBz2 | TarZst | Zip | SevenZip | Raw

  /** The stream decoders `open_tar` can put in front of the tar reader. */
  datatype Compression = Gzip | Xz | Bzip2 | Zstd

  /** What the archive's bytes really are. */
  datatype Codec = Tar(compression: Compression) | ZipCodec | SevenZipCodec

  /** The kind of one archive entry. */
  datatype EntryKind = DirEntry | FileEntry(executable: bool) | LinkEntry(target: seq<string>)

  /** One archive entry: its path as a list of normal components, and its kind. */
  datatype Entry = Entry(path: seq<string>, kind: EntryKind) {
    predicate IsDir() { kind.DirEntry? }
  }

  datatype Stored = Stored(codec: Codec, entries: seq<Entry>)

  /** An archive file: its extension (if its name has one) and, unless it
      cannot be opened, its stored content. */
  datatype ArchiveFile = ArchiveFile(ext: Option<string>, stored: Option<Stored>)

  // ---- format selection ----

  /** `TarFormat::from_ext`: never `Auto`, and any answer other than `Raw`
      is a format the extension is documented for. */
  function FromExt(ext: string): (r: TarFormat)
    ensures r != Auto
    ensures r != Raw ==> ext in DocumentedExtensions(r)
  {
    if ext == "gz" || ext == "tgz" then TarGz
    else if ext == "xz" || ext == "txz" then TarXz
    else if ext == "bz2" || ext == "tbz2" then TarBz2
    else if ext == "zst" || ext == "tzst" then TarZst
    else if ext == "zip" then Zip
    else if ext == "7z" then SevenZip
    else Raw
  }

  /** The extensions documented for each concrete format; `Raw` and `Auto`
      claim none. */
  function DocumentedExtensions(f: TarFormat): set<string>
  {
    match f
    case TarGz => {"gz", "tgz"}
    case TarXz => {"xz", "txz"}
    case TarBz2 => {"bz2", "tbz2"}
    case TarZst => {"zst", "tzst"}
    case Zip => {"zip"}
    case SevenZip => {"7z"}
    case Auto => {}
    case Raw => {}
  }

  /** The extension table never answers `Auto`, maps exactly the documented
      extensions of a format to that format, and maps every other extension
      to `Raw`. */
  lemma FromExtTable(ext: string)
    ensures FromExt(ext) != Auto
    ensures forall f :: f != Raw ==> (FromExt(ext) == f <==> ext in DocumentedExtensions(f))
    ensures FromExt(ext) == Raw <==> forall f :: ext !in DocumentedExtensions(f)
  {
    forall f | f != Raw
      ensures FromExt(ext) == f <==> ext in DocumentedExtensions(f)
    {
      match f
      case TarGz =>
      case TarXz =>
      case TarBz2 =>
      case TarZst =>
      case Zip =>
      case SevenZip =>
      case Auto =>
    }
    if FromExt(ext) != Raw {
      assert ext in DocumentedExtensions(FromExt(ext));
    }
  }

  /** The format `untar` works with: an explicit format wins, `Auto` asks the
      extension table, and a file name without extension gives `Raw`. */
  function ResolveFormat(format: TarFormat, ext: Option<string>): (r: TarFormat)
    ensures r != Auto
  {
    match format
    case Auto => (match ext case Some(e) => FromExt(e) case None => Raw)
    case _ => format
  }

  /** Resolution is a no-op on its own result, and it keeps every explicit
      format. */
  lemma ResolveFormatFixes(format: TarFormat, ext: Option<string>, other: Option<string>)
    ensures ResolveFormat(ResolveFormat(format, ext), other) == ResolveFormat(format, ext)
    ensures format != Auto ==> ResolveFormat(format, ext) == format
    ensures format == Auto && ext.None? ==> ResolveFormat(format, ext) == Raw
    ensures format == Auto && ext.Some? ==> ResolveFormat(format, ext) == FromExt(ext.value)
  {
  }

  /** Where `untar` sends an archive once its format is resolved. */
  datatype Route = ToUnzip(strip: nat) | ToUn7z(strip: nat) | ToTarStream(format: TarFormat, strip: nat)

  /** The dispatch of `untar`: zip always goes to `unzip`, 7z goes to `un7z`
      only on Windows; everything else (7z elsewhere included) is read as a
      tar stream. The strip depth is passed on unchanged. */
  function UntarRoute(format: TarFormat, ext: Option<string>, strip: nat, windows: bool): (r: Route)
    ensures r.strip == strip
    ensures r.ToUnzip? <==> ResolveFormat(format, ext) == Zip
    ensures r.ToUn7z? <==> ResolveFormat(format, ext) == SevenZip && windows
    ensures r.ToTarStream? ==> r.format == ResolveFormat(format, ext) && r.format != Auto
  {
    var f := ResolveFormat(format, ext);
    if f == Zip then ToUnzip(strip)
    else if f == SevenZip && windows then ToUn7z(strip)
    else ToTarStream(f, strip)
  }

  /** `open_tar`: opening the file comes first; then the decoder is picked by
      format, `Raw` being read as gzip, zip and 7z refused; `Auto` looks only
      at the bare extensions `xz`, `bz2`, `zst` and `zip` and reads anything
      else as gzip. */
  function OpenTar(format: TarFormat, archive: ArchiveFile): (r: Result<Compression>)
    ensures archive.stored.None? ==> r.Err?
    ensures format == Zip || format == SevenZip ==> r.Err?
    ensures archive.stored.Some? && format != Auto ==> (r.Ok? <==> format != Zip && format != SevenZip)
  {
    if archive.stored.None? then Err("failed to open archive")
    else match format
      case TarGz => Ok(Gzip)
      case Raw => Ok(Gzip)
      case TarXz => Ok(Xz)
      case TarBz2 => Ok(Bzip2)
      case TarZst => Ok(Zstd)
      case Zip => Err("zip format not supported")
      case SevenZip => Err("7z format not supported")
      case Auto =>
        if archive.ext == Some("xz") then Ok(Xz)
        else if archive.ext == Some("bz2") then Ok(Bzip2)
        else if archive.ext == Some("zst") then Ok(Zstd)
        else if archive.ext == Some("zip") then Err("zip format not supported")
        else Ok(Gzip)
  }

  /** The decoder each concrete tar format stands for. */
  function CompressionOf(f: TarFormat): Option<Compression>
  {
    match f
    case TarGz => Some(Gzip)
    case TarXz => Some(Xz)
    case TarBz2 => Some(Bzip2)
    case TarZst => Some(Zstd)
    case _ => None
  }

  /** `open_tar` on a readable file: a concrete tar format opens with its own
      decoder, `Raw` opens exactly like `TarGz`, zip and 7z always fail, and
      an unreadable file always fails. `Auto` opens a file whose extension is
      exactly `xz`, `bz2` or `zst` like the format the extension table gives
      it, refuses `zip`, and opens every other file (no extension, or any
      other one, `7z` and the long tar forms included) like `TarGz`. */
  lemma OpenTarChoice(format: TarFormat, archive: ArchiveFile)
    ensures archive.stored.None? ==> OpenTar(format, archive).Err?
    ensures archive.stored.Some? && CompressionOf(format).Some? ==> OpenTar(format, archive) == Ok(CompressionOf(format).value)
    ensures OpenTar(Raw, archive) == OpenTar(TarGz, archive)
    ensures OpenTar(Zip, archive).Err? && OpenTar(SevenZip, archive).Err?
    ensures archive.ext in {Some("xz"), Some("bz2"), Some("zst")} ==>
      OpenTar(Auto, archive) == OpenTar(FromExt(archive.ext.value), archive)
    ensures archive.ext == Some("zip") ==> OpenTar(Auto, archive).Err?
    ensures archive.ext !in {Some("xz"), Some("bz2"), Some("zst"), Some("zip")} ==>
      OpenTar(Auto, archive) == OpenTar(TarGz, archive)
  {
  }

  /** In the `untar` path the format is resolved before `open_tar` runs, so a
      tar archive named with any of its documented extensions gets its own
      decoder... */
  lemma ResolvedOpenMatchesExtension(f: TarFormat, e: string, s: Stored)
    requires CompressionOf(f).Some? && e in DocumentedExtensions(f)
    ensures OpenTar(ResolveFormat(Auto, Some(e)), ArchiveFile(Some(e), Some(s))) == Ok(CompressionOf(f).value)
  {
    FromExtTable(e);
  }

  /** ...whereas `open_tar` called directly with `Auto` (as `inspect_tar_contents`
      is when `should_strip_components` gets `Auto`) reads the long forms
      `txz`, `tbz2` and `tzst` as gzip. */
  lemma AutoOpenIgnoresLongExtensions(s: Stored)
    ensures OpenTar(Auto, ArchiveFile(Some("txz"), Some(s))) == Ok(Gzip)
    ensures OpenTar(ResolveFormat(Auto, Some("txz")), ArchiveFile(Some("txz"), Some(s))) == Ok(Xz)
    ensures OpenTar(Auto, ArchiveFile(Some("tbz2"), Some(s))) == Ok(Gzip)
    ensures OpenTar(Auto, ArchiveFile(Some("tzst"), Some(s))) == Ok(Gzip)
  {
  }

  /** The entries a tar reader yields through decoder `c`: they are read only
      when the bytes really are a tar stream compressed with `c`. */
  function TarEntries(c: Compression, archive: ArchiveFile): (r: Result<seq<Entry>>)
    ensures r.Ok? <==> archive.stored.Some? && archive.stored.value.codec == Tar(c)
    ensures r.Ok? ==> r.value == archive.stored.value.entries
  {
    if archive.stored.Some? && archive.stored.value.codec == Tar(c) then Ok(archive.stored.value.entries)
    else Err("failed to read tar entries")
  }

  /** The entries the zip reader yields. */
  function ZipEntries(archive: ArchiveFile): (r: Result<seq<Entry>>)
    ensures r.Ok? <==> archive.stored.Some? && archive.stored.value.codec == ZipCodec
    ensures r.Ok? ==> r.value == archive.stored.value.entries
  {
    if archive.stored.None? then Err("failed to open archive")
    else if archive.stored.value.codec != ZipCodec then Err("failed to open zip archive")
    else Ok(archive.stored.value.entries)
  }

  /** The entries the 7z reader yields; it exists on Windows only. */
  function SevenZipEntries(archive: ArchiveFile, windows: bool): (r: Result<seq<Entry>>)
    ensures r.Ok? <==> windows && archive.stored.Some? && archive.stored.value.codec == SevenZipCodec
    ensures r.Ok? ==> r.value == archive.stored.value.entries
  {
    if !windows then Err("7z format not supported on this platform")
    else if archive.stored.None? || archive.stored.value.codec != SevenZipCodec then Err("failed to open 7z archive")
    else Ok(archive.stored.value.entries)
  }

  // ---- inspection ----

  /** The first path components of the entries (entries without a component
      contribute nothing). */
  function TopNames(entries: seq<Entry>): set<string>
  {
    set e | e in entries && e.path != [] :: e.path[0]
  }

  /** Whether some entry under top-level name `n` says that `n` is a
      directory: it is a directory entry, or it lies deeper than `n`. */
  predicate MarksDir(entries: seq<Entry>, n: string)
  {
    exists e :: e in entries && e.path != [] && e.path[0] == n && (e.IsDir() || |e.path| > 1)
  }

  /** A summary is one (name, is-directory) pair per top-level name. */
  predicate SummarizesTopLevel(entries: seq<Entry>, top: seq<(string, bool)>)
  {
    && (forall i :: 0 <= i < |top| ==> top[i].0 in TopNames(entries) && top[i].1 == MarksDir(entries, top[i].0))
    && (forall n :: n in TopNames(entries) ==> exists i :: 0 <= i < |top| && top[i].0 == n)
    && (forall i, j :: 0 <= i < j < |top| ==> top[i].0 != top[j].0)
  }

  lemma {:induction false} DistinctNamesCount(top: seq<(string, bool)>)
    requires forall i, j :: 0 <= i < j < |top| ==> top[i].0 != top[j].0
    ensures |set i | 0 <= i < |top| :: top[i].0| == |top|
  {
    if top != [] {
      var rest := top[1..];
      DistinctNamesCount(rest);
      var s := set i | 0 <= i < |top| :: top[i].0;
      var s' := set i | 0 <= i < |rest| :: rest[i].0;
      assert s == s' + {top[0].0} by {
        forall n | n in s ensures n in s' + {top[0].0} {
          var i :| 0 <= i < |top| && top[i].0 == n;
          if i > 0 { assert rest[i - 1].0 == n; }
        }
        forall n | n in s' ensures n in s {
          var i :| 0 <= i < |rest| && rest[i].0 == n;
          assert top[i + 1].0 == n;
        }
      }
      assert top[0].0 !in s' by {
        forall i | 0 <= i < |rest| ensures rest[i].0 != top[0].0 {
          assert rest[i] == top[i + 1];
        }
      }
    }
  }

  /** A summary has exactly as many pairs as there are top-level names. */
  lemma SummaryCount(entries: seq<Entry>, top: seq<(string, bool)>)
    requires SummarizesTopLevel(entries, top)
    ensures |top| == |TopNames(entries)|
  {
    DistinctNamesCount(top);
    var s := set i | 0 <= i < |top| :: top[i].0;
    assert s == TopNames(entries);
  }

  /** One more entry adds its first component, if it has one, to the names. */
  lemma TopNamesStep(entries: seq<Entry>, k: nat)
    requires k < |entries|
    ensures TopNames(entries[..k + 1]) ==
      TopNames(entries[..k]) + (if entries[k].path != [] then {entries[k].path[0]} else {})
  {
    assert entries[..k + 1] == entries[..k] + [entries[k]];
  }

  /** One more entry marks its first component as a directory when it is a
      directory entry or lies deeper, and leaves every other mark alone. */
  lemma MarksDirStep(entries: seq<Entry>, k: nat, n: string)
    requires k < |entries|
    ensures MarksDir(entries[..k + 1], n) <==>
      MarksDir(entries[..k], n)
      || (entries[k].path != [] && entries[k].path[0] == n && (entries[k].IsDir() || |entries[k].path| > 1))
  {
    assert entries[..k + 1] == entries[..k] + [entries[k]];
    if MarksDir(entries[..k + 1], n) {
      var e :| e in entries[..k + 1] && e.path != [] && e.path[0] == n && (e.IsDir() || |e.path| > 1);
      if e != entries[k] {
        assert e in entries[..k];
      }
    }
    if entries[k].path != [] && entries[k].path[0] == n && (entries[k].IsDir() || |entries[k].path| > 1) {
      assert entries[k] in entries[..k + 1];
    }
  }

  /** The folding loop of `inspect_*_contents`: one map slot per top-level
      name, OR-ing in each entry's directory evidence. */
  method FoldComponents(entries: seq<Entry>) returns (components: map<string, bool>)
    ensures components.Keys == TopNames(entries)
    ensures forall n :: n in components ==> components[n] == MarksDir(entries, n)
  {
    components := map[];
    for k := 0 to |entries|
      invariant components.Keys == TopNames(entries[..k])
      invariant forall n :: n in components ==> components[n] == MarksDir(entries[..k], n)
    {
      var e := entries[k];
      TopNamesStep(entries, k);
      if e.path != [] {
        var name := e.path[0];
        var isDirectory := e.IsDir() || |e.path| > 1;
        var existing := if name in components then components[name] else false;
        components := components[name := existing || isDirectory];
      }
      forall n | n in components
        ensures components[n] == MarksDir(entries[..k + 1], n)
      {
        MarksDirStep(entries, k, n);
      }
    }
    assert entries[..|entries|] == entries;
  }

  /** `into_iter().collect()` of the map: every pair once, in no particular
      order. */
  method PairsOf(components: map<string, bool>) returns (top: seq<(string, bool)>)
    ensures forall i :: 0 <= i < |top| ==> top[i].0 in components && top[i].1 == components[top[i].0]
    ensures forall n :: n in components ==> exists i :: 0 <= i < |top| && top[i].0 == n
    ensures forall i, j :: 0 <= i < j < |top| ==> top[i].0 != top[j].0
  {
    top := [];
    var pending := components.Keys;
    while pending != {}
      invariant pending <= components.Keys
      invariant forall i :: 0 <= i < |top| ==> top[i].0 in components && top[i].0 !in pending && top[i].1 == components[top[i].0]
      invariant forall n :: n in components && n !in pending ==> exists i :: 0 <= i < |top| && top[i].0 == n
      invariant forall i, j :: 0 <= i < j < |top| ==> top[i].0 != top[j].0
      decreases pending
    {
      var name :| name in pending;
      ghost var before := top;
      top := top + [(name, components[name])];
      pending := pending - {name};
      forall n | n in components && n !in pending
        ensures exists i :: 0 <= i < |top| && top[i].0 == n
      {
        if n == name {
          assert top[|before|].0 == n;
        } else {
          var i :| 0 <= i < |before| && before[i].0 == n;
          assert top[i].0 == n;
        }
      }
    }
  }

  /** `inspect_*_contents` once the entries are read: the fold, then the
      map's pairs. */
  method InspectEntries(entries: seq<Entry>) returns (top: seq<(string, bool)>)
    ensures SummarizesTopLevel(entries, top)
  {
    var components := FoldComponents(entries);
    top := PairsOf(components);
  }

  /** The decision of `should_strip_components` on a summary. */
  predicate StripDecision(top: seq<(string, bool)>)
  {
    |top| == 1 && top[0].1
  }

  /** Strip exactly when the archive has a single top-level name and some
      entry says that name is a directory. */
  lemma StripDecisionMeaning(entries: seq<Entry>, top: seq<(string, bool)>)
    requires SummarizesTopLevel(entries, top)
    ensures StripDecision(top) <==> exists n :: TopNames(entries) == {n} && MarksDir(entries, n)
  {
    SummaryCount(entries, top);
    if StripDecision(top) {
      assert top[0].0 in TopNames(entries);
      assert TopNames(entries) == {top[0].0} by {
        forall n | n in TopNames(entries) ensures n == top[0].0 {
          var i :| 0 <= i < |top| && top[i].0 == n;
        }
      }
    }
    if exists n :: TopNames(entries) == {n} && MarksDir(entries, n) {
      var n :| TopNames(entries) == {n} && MarksDir(entries, n);
      assert |top| == 1;
      assert top[0].0 in TopNames(entries);
    }
  }

  /** `inspect_tar_contents`: open with the format's decoder, read the
      entries, summarise. */
  method InspectTarContents(archive: ArchiveFile, format: TarFormat) returns (r: Result<seq<(string, bool)>>)
    ensures r.Err? <==> OpenTar(format, archive).Err? || TarEntries(OpenTar(format, archive).value, archive).Err?
    ensures r.Ok? ==> SummarizesTopLevel(archive.stored.value.entries, r.value)
  {
    var c :- OpenTar(format, archive);
    var entries :- TarEntries(c, archive);
    var top := InspectEntries(entries);
    return Ok(top);
  }

  /** `inspect_zip_contents`. */
  method InspectZipContents(archive: ArchiveFile) returns (r: Result<seq<(string, bool)>>)
    ensures r.Err? <==> ZipEntries(archive).Err?
    ensures r.Ok? ==> SummarizesTopLevel(archive.stored.value.entries, r.value)
  {
    var entries :- ZipEntries(archive);
    var top := InspectEntries(entries);
    return Ok(top);
  }

  /** `inspect_7z_contents`; off Windows it is unimplemented. */
  method Inspect7zContents(archive: ArchiveFile, windows: bool) returns (r: Result<seq<(string, bool)>>)
    ensures r.Err? <==> SevenZipEntries(archive, windows).Err?
    ensures r.Ok? ==> SummarizesTopLevel(archive.stored.value.entries, r.value)
  {
    var entries :- SevenZipEntries(archive, windows);
    var top := InspectEntries(entries);
    return Ok(top);
  }

  /** The entry list `should_strip_components` inspects for `format`, or the
      error that stops it. */
  function InspectedEntries(archive: ArchiveFile, format: TarFormat, windows: bool): Result<seq<Entry>>
  {
    match format
    case Zip => ZipEntries(archive)
    case SevenZip => SevenZipEntries(archive, windows)
    case _ =>
      var c :- OpenTar(format, archive);
      TarEntries(c, archive)
  }

  /** `should_strip_components`: an inspection error propagates; otherwise
      strip exactly when there is one top-level name and it is a directory. */
  method ShouldStripComponents(archive: ArchiveFile, format: TarFormat, windows: bool) returns (r: Result<bool>)
    ensures r.Err? <==> InspectedEntries(archive, format, windows).Err?
    ensures r.Ok? ==> (r.value <==> exists n ::
      TopNames(InspectedEntries(archive, format, windows).value) == {n} && MarksDir(InspectedEntries(archive, format, windows).value, n))
  {
    var topLevelEntries;
    match format {
      case Zip =>
        topLevelEntries :- InspectZipContents(archive);
      case SevenZip =>
        topLevelEntries :- Inspect7zContents(archive, windows);
      case _ =>
        topLevelEntries :- InspectTarContents(archive, format);
    }
    StripDecisionMeaning(InspectedEntries(archive, format, windows).value, topLevelEntries);
    if |topLevelEntries| == 1 {
      return Ok(topLevelEntries[0].1);
    } else {
      return Ok(false);
    }
  }

  /** The cases of the source's tests: inspecting an archive that cannot be
      opened is an error, and a summary holding only `mydir`, flagged as a
      directory, is stripped. */
  lemma SourceTestCases(windows: bool)
    ensures InspectedEntries(ArchiveFile(Some("gz"), None), TarGz, windows).Err?
    ensures StripDecision([("mydir", true)])
  {
  }

  /** A directory beside a file: two top-level names, no stripping. */
  lemma NoStripBesideFile(top: seq<(string, bool)>)
    requires SummarizesTopLevel([Entry(["lib"], DirEntry), Entry(["readme.txt"], FileEntry(false))], top)
    ensures !StripDecision(top)
  {
    var e := [Entry(["lib"], DirEntry), Entry(["readme.txt"], FileEntry(false))];
    assert e[0].path[0] == "lib" && e[1].path[0] == "readme.txt";
    assert "lib" in TopNames(e) && "readme.txt" in TopNames(e);
    SummaryCount(e, top);
  }

  /** A single directory holding the rest: stripped. */
  lemma StripSingleTopDirectory(top: seq<(string, bool)>)
    requires SummarizesTopLevel([Entry(["projectname"], DirEntry), Entry(["projectname", "bin"], FileEntry(true))], top)
    ensures StripDecision(top)
  {
    var e := [Entry(["projectname"], DirEntry), Entry(["projectname", "bin"], FileEntry(true))];
    assert e[0] in e && e[0].IsDir();
    assert TopNames(e) == {"projectname"};
    StripDecisionMeaning(e, top);
  }
}
