/** Idiomatic version files (src/config/config_file/idiomatic_version/mod.rs):
    the requests a tool-specific pin file such as `global.json` contributes.
    A backend is seen through what this file asks of it: the answer of its
    filename query and the answer of its parser on the file at hand.
    `ToolRequest::new` checks a version against the backend's grammar; that
    check is the parameter `accepts`. */
module IdiomaticVersion {
  import opened Wrappers
  import opened FileTree
  import Dotnet

  datatype BackendArg = BackendArg(short: string)

  /** Where a request came from. */
  datatype ToolSource = IdiomaticVersionFile(path: Path)

  /** One declared want: a backend, a version specifier and its origin. */
  datatype ToolRequest = ToolRequest(ba: BackendArg, version: string, source: ToolSource)

  /** The requests of a file in insertion order; nothing is merged away. */
  datatype ToolRequestSet = ToolRequestSet(requests: seq<ToolRequest>) {
    /** `add_version`: the request goes after every earlier one, which
        stay as they were and in their order. */
    function AddVersion(tr: ToolRequest): (r: ToolRequestSet)
      ensures |r.requests| == |requests| + 1
      ensures r.requests[..|requests|] == requests && r.requests[|requests|] == tr
    {
      ToolRequestSet(requests + [tr])
    }
  }

  /** A candidate backend: its identity, what `idiomatic_filenames` answers
      and what `parse_idiomatic_file` answers for the file being read. */
  datatype Backend = Backend(ba: BackendArg, filenames: Result<seq<string>>, parsed: Result<seq<string>>)

  /** `ToolRequest::new`: fails on a version the backend does not accept. */
  function NewRequest(accepts: (BackendArg, string) -> bool, ba: BackendArg, v: string, source: ToolSource): (r: Result<ToolRequest>)
    ensures r.Ok? <==> accepts(ba, v)
    ensures r.Ok? ==> r.value.ba == ba && r.value.version == v && r.value.source == source
  {
    if accepts(ba, v) then Ok(ToolRequest(ba, v, source))
    else Err("invalid version")
  }

  /** One request per version, in the order the parser returned them. */
  function RequestsOf(ba: BackendArg, versions: seq<string>, source: ToolSource): seq<ToolRequest>
  {
    seq(|versions|, j requires 0 <= j < |versions| => ToolRequest(ba, versions[j], source))
  }

  /** Every version a backend returned is accepted. */
  predicate AllAccepted(accepts: (BackendArg, string) -> bool, b: Backend)
    requires b.parsed.Ok?
  {
    forall k :: 0 <= k < |b.parsed.value| ==> accepts(b.ba, b.parsed.value[k])
  }

  /** The requests `parse` collects from `plugins`, in order: a backend whose
      parser fails contributes nothing, every other backend one request per
      version, and one rejected version makes the whole result an error. */
  function Aggregate(accepts: (BackendArg, string) -> bool, plugins: seq<Backend>, source: ToolSource): Result<seq<ToolRequest>>
    decreases |plugins|
  {
    if plugins == [] then Ok([])
    else
      var prefix :- Aggregate(accepts, plugins[..|plugins| - 1], source);
      var b := plugins[|plugins| - 1];
      if b.parsed.Err? then Ok(prefix)
      else if AllAccepted(accepts, b) then Ok(prefix + RequestsOf(b.ba, b.parsed.value, source))
      else Err("invalid version")
  }

  /** Aggregating one list after another is aggregating each and putting the
      results one after the other: backends are processed in order, and
      every backend's requests stay together. */
  lemma {:induction false} AggregateAppend(accepts: (BackendArg, string) -> bool, a: seq<Backend>, b: seq<Backend>, source: ToolSource)
    ensures Aggregate(accepts, a + b, source).Ok? <==>
      Aggregate(accepts, a, source).Ok? && Aggregate(accepts, b, source).Ok?
    ensures Aggregate(accepts, a + b, source).Ok? ==>
      Aggregate(accepts, a + b, source).value == Aggregate(accepts, a, source).value + Aggregate(accepts, b, source).value
    decreases |b|
  {
    if b == [] {
      assert a + b == a;
    } else {
      var n := |b| - 1;
      assert (a + b)[..|a + b| - 1] == a + b[..n];
      assert (a + b)[|a + b| - 1] == b[n];
      AggregateAppend(accepts, a, b[..n], source);
    }
  }

  /** The parse as a whole fails exactly when some backend that did parse
      the file returned a version it does not accept; parser failures never
      fail it. */
  lemma {:induction false} AggregateSucceeds(accepts: (BackendArg, string) -> bool, plugins: seq<Backend>, source: ToolSource)
    ensures Aggregate(accepts, plugins, source).Ok? <==>
      forall i :: 0 <= i < |plugins| && plugins[i].parsed.Ok? ==> AllAccepted(accepts, plugins[i])
    decreases |plugins|
  {
    if plugins != [] {
      var n := |plugins| - 1;
      AggregateSucceeds(accepts, plugins[..n], source);
      assert forall i :: 0 <= i < n ==> plugins[..n][i] == plugins[i];
    }
  }

  /** Membership: a request is in the result exactly when some backend that
      parsed the file returned its version, under its own identity and the
      file as source. */
  lemma {:induction false} AggregateMembers(accepts: (BackendArg, string) -> bool, plugins: seq<Backend>, source: ToolSource, tr: ToolRequest)
    requires Aggregate(accepts, plugins, source).Ok?
    ensures tr in Aggregate(accepts, plugins, source).value <==>
      tr.source == source
      && (exists i :: 0 <= i < |plugins| && plugins[i].parsed.Ok? && plugins[i].ba == tr.ba
            && tr.version in plugins[i].parsed.value)
    decreases |plugins|
  {
    if plugins != [] {
      var n := |plugins| - 1;
      var b := plugins[n];
      AggregateMembers(accepts, plugins[..n], source, tr);
      assert forall i :: 0 <= i < n ==> plugins[..n][i] == plugins[i];
      if b.parsed.Ok? {
        var rs := RequestsOf(b.ba, b.parsed.value, source);
        if tr in rs {
          var j :| 0 <= j < |rs| && rs[j] == tr;
          assert tr.version == b.parsed.value[j];
        }
        if tr.source == source && b.ba == tr.ba && tr.version in b.parsed.value {
          var j :| 0 <= j < |b.parsed.value| && b.parsed.value[j] == tr.version;
          assert rs[j] == tr;
        }
      }
    }
  }

  /** A backend whose parser fails contributes nothing: the result is the
      one obtained without it. */
  lemma SkippedBackendContributesNothing(accepts: (BackendArg, string) -> bool, a: seq<Backend>, b: Backend, c: seq<Backend>, source: ToolSource)
    requires b.parsed.Err?
    ensures Aggregate(accepts, a + [b] + c, source).Ok? <==> Aggregate(accepts, a + c, source).Ok?
    ensures Aggregate(accepts, a + c, source).Ok? ==>
      Aggregate(accepts, a + [b] + c, source).value == Aggregate(accepts, a + c, source).value
  {
    assert ([b])[..0] == [];
    AggregateAppend(accepts, a, [b], source);
    AggregateAppend(accepts, a + [b], c, source);
    AggregateAppend(accepts, a, c, source);
  }

  /** No backends, or backends that all return no version, give an empty
      set and no error. */
  lemma {:induction false} NothingToParse(accepts: (BackendArg, string) -> bool, plugins: seq<Backend>, source: ToolSource)
    requires forall i :: 0 <= i < |plugins| ==> plugins[i].parsed.Err? || plugins[i].parsed.value == []
    ensures Aggregate(accepts, plugins, source) == Ok([])
    decreases |plugins|
  {
    if plugins != [] {
      var n := |plugins| - 1;
      assert forall i :: 0 <= i < n ==> plugins[..n][i] == plugins[i];
      NothingToParse(accepts, plugins[..n], source);
      var prefix := Aggregate(accepts, plugins[..n], source);
      assert prefix == Ok([]);
      assert plugins[..n] == plugins[..|plugins| - 1];
      if plugins[n].parsed.Ok? {
        assert AllAccepted(accepts, plugins[n]);
        assert RequestsOf(plugins[n].ba, plugins[n].parsed.value, source) == [];
        assert Aggregate(accepts, plugins, source) == Ok(prefix.value + []);
        assert prefix.value + [] == [];
      } else {
        assert Aggregate(accepts, plugins, source) == Ok(prefix.value);
      }
    }
  }

  /** The parsed file: its path and the requests found in it. */
  datatype IdiomaticVersionFile = VersionFile(path: Path, tools: ToolRequestSet) {
    /** `source()`: the file itself. */
    function Source(): (s: ToolSource)
      ensures s.path == path
    {
      IdiomaticVersionFile(path)
    }

    /** `to_tool_request_set()`: never fails, and hands back the stored
        requests, in their order. */
    function ToToolRequestSet(): (r: Result<ToolRequestSet>)
      ensures r.Ok? && r.value.requests == tools.requests
    {
      Ok(tools)
    }
  }

  /** `IdiomaticVersionFile::init`: a file with no requests yet. */
  function Init(path: Path): (r: IdiomaticVersionFile)
    ensures r.path == path && r.tools.requests == []
    ensures r.Source() == IdiomaticVersionFile(path)
    ensures r.ToToolRequestSet() == Ok(ToolRequestSet([]))
  {
    VersionFile(path, ToolRequestSet([]))
  }

  /** `IdiomaticVersionFile::parse(path, plugins)`: each backend in turn
      parses the file; a parser error skips that backend, every version it
      returns becomes a request tagged with the file; a rejected version
      ends the parse with an error. */
  method Parse(accepts: (BackendArg, string) -> bool, path: Path, plugins: seq<Backend>) returns (r: Result<IdiomaticVersionFile>)
    ensures r.Ok? <==> Aggregate(accepts, plugins, IdiomaticVersionFile(path)).Ok?
    ensures r.Ok? ==> (r.value.path == path
                       && r.value.tools.requests == Aggregate(accepts, plugins, IdiomaticVersionFile(path)).value)
    ensures r.Ok? ==> forall tr :: tr in r.value.tools.requests ==> tr.source == r.value.Source()
    ensures r.Ok? ==> r.value.ToToolRequestSet() == Ok(ToolRequestSet(Aggregate(accepts, plugins, IdiomaticVersionFile(path)).value))
  {
    var source := IdiomaticVersionFile(path);
    var tools := ToolRequestSet([]);
    for i := 0 to |plugins|
      invariant Aggregate(accepts, plugins[..i], source) == Ok(tools.requests)
    {
      assert plugins[..i + 1][..i] == plugins[..i];
      var plugin := plugins[i];
      match plugin.parsed {
        case Ok(versions) =>
          ghost var before := tools.requests;
          for j := 0 to |versions|
            invariant tools.requests == before + RequestsOf(plugin.ba, versions[..j], source)
            invariant forall k :: 0 <= k < j ==> accepts(plugin.ba, versions[k])
          {
            var tr := NewRequest(accepts, plugin.ba, versions[j], source);
            if tr.Err? {
              assert !AllAccepted(accepts, plugin);
              AggregateAppend(accepts, plugins[..i + 1], plugins[i + 1..], source);
              assert plugins[..i + 1] + plugins[i + 1..] == plugins;
              return Err(tr.msg);
            }
            tools := tools.AddVersion(tr.value);
            assert RequestsOf(plugin.ba, versions[..j + 1], source) == RequestsOf(plugin.ba, versions[..j], source) + [tr.value];
          }
          assert versions[..|versions|] == versions;
        case Err(_) =>
      }
    }
    assert plugins[..|plugins|] == plugins;
    r := Ok(VersionFile(path, tools));
    forall tr | tr in tools.requests
      ensures tr.source == source
    {
      AggregateMembers(accepts, plugins, source, tr);
    }
  }

  /** The backends whose filename query succeeds and lists `fileName`, in
      their original order. */
  function Matching(fileName: string, backends: seq<Backend>): (r: seq<Backend>)
    ensures forall b :: b in r <==> b in backends && b.filenames.Ok? && fileName in b.filenames.value
    ensures |r| <= |backends|
    decreases |backends|
  {
    if backends == [] then []
    else
      var prefix := Matching(fileName, backends[..|backends| - 1]);
      var b := backends[|backends| - 1];
      assert forall x :: x in backends <==> x in backends[..|backends| - 1] || x == b;
      if b.filenames.Ok? && fileName in b.filenames.value then prefix + [b] else prefix
  }

  /** Selection keeps the order of the backend list: selecting from one list
      after another is selecting from each. */
  lemma {:induction false} MatchingAppend(fileName: string, a: seq<Backend>, b: seq<Backend>)
    ensures Matching(fileName, a + b) == Matching(fileName, a) + Matching(fileName, b)
    decreases |b|
  {
    if b == [] {
      assert a + b == a;
    } else {
      var n := |b| - 1;
      assert (a + b)[..|a + b| - 1] == a + b[..n];
      assert (a + b)[|a + b| - 1] == b[n];
      MatchingAppend(fileName, a, b[..n]);
    }
  }

  /** The candidate loop of `from_file`: a backend is kept when its filename
      query succeeds and contains the file's name; a failing query just
      leaves the backend out. */
  method SelectCandidates(fileName: string, backends: seq<Backend>) returns (tools: seq<Backend>)
    ensures tools == Matching(fileName, backends)
  {
    tools := [];
    for i := 0 to |backends|
      invariant tools == Matching(fileName, backends[..i])
    {
      assert backends[..i + 1][..i] == backends[..i];
      var b := backends[i];
      if b.filenames.Ok? && fileName in b.filenames.value {
        tools := tools + [b];
      }
    }
    assert backends[..|backends|] == backends;
  }

  /** `IdiomaticVersionFile::from_file(path)` over the registered backends:
      the candidates for the file's name parse it, in registry order. A
      file no backend claims gives an empty set. */
  method FromFile(accepts: (BackendArg, string) -> bool, path: Path, backends: seq<Backend>) returns (r: Result<IdiomaticVersionFile>)
    requires path != []
    ensures r.Ok? <==> Aggregate(accepts, Matching(BaseName(path), backends), IdiomaticVersionFile(path)).Ok?
    ensures r.Ok? ==> (r.value.path == path
                       && r.value.tools.requests == Aggregate(accepts, Matching(BaseName(path), backends), IdiomaticVersionFile(path)).value)
    ensures Matching(BaseName(path), backends) == [] ==> r == Ok(Init(path))
  {
    var tools := SelectCandidates(BaseName(path), backends);
    r := Parse(accepts, path, tools);
  }

  /** The case of the source's own test: a failing backend ahead of one that
      pins "3.10.0" does not stop the second, and the set holds exactly the
      second one's request. */
  lemma ParseErrorIsSkipped(path: Path)
    ensures var node := Backend(BackendArg("node"), Ok([]), Err("mock error"));
      var python := Backend(BackendArg("python"), Ok([]), Ok(["3.10.0"]));
      Aggregate((ba: BackendArg, v: string) => true, [node, python], IdiomaticVersionFile(path))
        == Ok([ToolRequest(BackendArg("python"), "3.10.0", IdiomaticVersionFile(path))])
  {
    var node := Backend(BackendArg("node"), Ok([]), Err("mock error"));
    var python := Backend(BackendArg("python"), Ok([]), Ok(["3.10.0"]));
    var source := IdiomaticVersionFile(path);
    assert [node, python][..1] == [node];
    assert [node][..0] == [];
    var tr := ToolRequest(BackendArg("python"), "3.10.0", source);
    assert RequestsOf(python.ba, ["3.10.0"], source) == [tr];
    assert Aggregate((ba: BackendArg, v: string) => true, [node], source) == Ok([]);
    assert [] + [tr] == [tr];
  }

  /** A `global.json` pinning an SDK version: the .NET backend claims the
      file by name, and its one request is that version. */
  lemma GlobalJsonPinsDotnet(accepts: (BackendArg, string) -> bool, path: Path, ba: BackendArg, v: string)
    requires path != [] && BaseName(path) == "global.json"
    requires v != "" && accepts(ba, v)
    ensures var dotnet := Backend(ba, Dotnet.IdiomaticFilenames(),
        Dotnet.ParseIdiomaticFile(Ok(Dotnet.GlobalJson(Some(Dotnet.GlobalJsonSdk(v))))));
      Aggregate(accepts, Matching(BaseName(path), [dotnet]), IdiomaticVersionFile(path))
        == Ok([ToolRequest(ba, v, IdiomaticVersionFile(path))])
  {
    var dotnet := Backend(ba, Dotnet.IdiomaticFilenames(),
      Dotnet.ParseIdiomaticFile(Ok(Dotnet.GlobalJson(Some(Dotnet.GlobalJsonSdk(v))))));
    assert [dotnet][..0] == [];
    assert Matching(BaseName(path), [dotnet]) == [dotnet];
    assert dotnet.parsed == Ok([v]);
    var tr := ToolRequest(ba, v, IdiomaticVersionFile(path));
    assert RequestsOf(ba, [v], IdiomaticVersionFile(path)) == [tr];
    assert [] + [tr] == [tr];
  }
}
