/** The language server's two stateful handlers: opening a document, and the
    "vscle.startConflictAnalyzer" command. They share the cached topology
    and the current document. */
module Server {
  import opened Base
  import opened Lsp
  import opened Analyzer
  import opened SourceSet
  import opened Parser
  import opened Projection
  import opened Analyze

  const StartCommand: string := "vscle.startConflictAnalyzer"

  /** The uri a diagnostic is published under: `URI.file(source)` when its
      `source` is a non-empty string, else ''. Paths are their own uris. */
  function UriOf(d: Diagnostic): string {
    if d.source.Some? && d.source.value != "" then d.source.value else ""
  }

  /** One notification per diagnostic, each with a singleton list. */
  function Publications(ds: seq<Diagnostic>): seq<Outbound> {
    seq(|ds|, i requires 0 <= i < |ds| => PublishDiagnostics(UriOf(ds[i]), [ds[i]]))
  }

  /** The file names handed to `analyze`. */
  function Paths(files: seq<SourceFile>): (ps: seq<string>)
    ensures |ps| == |files| && forall i :: 0 <= i < |files| ==> ps[i] == files[i].path
  {
    seq(|files|, i requires 0 <= i < |files| => files[i].path)
  }

  /** What a handler does: the notifications it sends, the topology it
      leaves cached and the events of the analyzer run. */
  datatype Effect = Effect(sent: seq<Outbound>, topology: Option<Topology>, trace: seq<Event>)

  /** `showErrorMessage(e.message)` and `console.error(e.message)`. */
  function Report(f: Failure): seq<Outbound> {
    [ShowError(f), LogError(f)]
  }

  /** The body of the `try` of the start-analysis command, and its `catch`.
      `tree` is the parse of the current document. */
  function StartAnalysis(s: Settings, fs: Fs, w: World, topology: Option<Topology>,
                         current: Option<string>, tree: Tree): Effect {
    match Walk(fs, s.sourceDirs)
    case Err(f) => Effect(Report(f), topology, [])
    case Ok(files) =>
      if |files| == 0 then Effect(Report(NoSourceFiles), topology, [])
      else
        var r := AnalyzeRun(s, Paths(files), w);
        match r.outcome
        case Left(ds) => Effect(Publications(ds), topology, r.trace)
        case Right(t) =>
          Effect(if current.Some? then TopologyNotes(t, s.sourceDirs, current.value, tree) else [], Some(t), r.trace)
        case Thrown(f) => Effect(Report(f), topology, r.trace)
        case Stalled => Effect([], topology, r.trace)
  }

  /** `onExecuteCommand`: any other command is ignored. */
  function ExecuteCommand(command: string, s: Settings, fs: Fs, w: World, topology: Option<Topology>,
                          current: Option<string>, tree: Tree): Effect {
    if command == StartCommand then StartAnalysis(s, fs, w, topology, current, tree)
    else Effect([], topology, [])
  }

  /** The state shared by the handlers, and the connections they use. */
  class LanguageServer {
    var topology: Option<Topology>
    var current: Option<string>
    const client: Client
    const session: Session

    constructor()
      ensures topology == None && current == None
      ensures fresh(client) && fresh(session) && client.sent == [] && session.trace == []
    {
      topology := None;
      current := None;
      client := new Client();
      session := new Session();
    }

    /** `documents.onDidOpen`: `persisted` is what `readTopologyJSON` reads,
        and `tree` the parse of the opened document. */
    method OnDidOpen(doc: string, s: Settings, persisted: Option<Topology>, tree: Tree)
      modifies this, client
      ensures current == Some(doc)
      ensures topology == if old(topology).Some? then old(topology) else persisted
      ensures client.sent == old(client.sent) +
        (if old(topology).None? && persisted.Some? then TopologyNotes(persisted.value, s.sourceDirs, doc, tree) else [])
    {
      current := Some(doc);
      if topology.None? {
        var top := persisted;
        if top.Some? {
          topology := top;
          SendTopology(client, top.value, s.sourceDirs, doc, tree);
        }
      }
    }

    /** The loop over the diagnostics of a Left result. */
    method PublishAll(ds: seq<Diagnostic>)
      modifies client
      ensures client.sent == old(client.sent) + Publications(ds)
    {
      var k := 0;
      while k < |ds|
        invariant k <= |ds|
        invariant client.sent == old(client.sent) + Publications(ds[..k])
      {
        assert Publications(ds[..k + 1]) == Publications(ds[..k]) + [PublishDiagnostics(UriOf(ds[k]), [ds[k]])];
        var d := ds[k];
        var uri := if d.source.Some? && d.source.value != "" then d.source.value else "";
        client.Send(PublishDiagnostics(uri, [d]));
        k := k + 1;
      }
      assert ds[..k] == ds;
    }

    method ReportFailure(f: Failure)
      modifies client
      ensures client.sent == old(client.sent) + Report(f)
    {
      client.Send(ShowError(f));
      client.Send(LogError(f));
    }

    /** `connection.onExecuteCommand`: `fs` is the file system the source
        directories are listed from, `w` what the analyzer's world answers
        and `tree` the parse of the current document. */
    method OnExecuteCommand(command: string, s: Settings, fs: Fs, w: World, tree: Tree)
      modifies this, client, session
      ensures current == old(current)
      ensures var e := ExecuteCommand(command, s, fs, w, old(topology), old(current), tree);
        topology == e.topology &&
        client.sent == old(client.sent) + e.sent &&
        session.trace == old(session.trace) + e.trace
    {
      if command == StartCommand {
        var listed := Walk(fs, s.sourceDirs);
        if listed.Err? {
          ReportFailure(listed.error);
          return;
        }
        var files := listed.value;
        if |files| == 0 {
          ReportFailure(NoSourceFiles);
          return;
        }
        var res := session.Analyze(s, Paths(files), w);
        match res {
          case Left(ds) =>
            PublishAll(ds);
          case Right(t) =>
            topology := Some(t);
            if current.Some? {
              SendTopology(client, t, s.sourceDirs, current.value, tree);
            }
          case Thrown(f) =>
            ReportFailure(f);
          case Stalled =>
        }
      }
    }
  }

  /** The start command analyzes every C-like file of the source
      directories, in directory order; without one it reports the missing
      files and runs nothing. A Left result publishes each diagnostic on its
      own, under its source's uri, and keeps the topology; a Right result
      replaces it and is projected onto the open document, if any; a failure
      is shown and logged and changes nothing; a run that stalls sends
      nothing and changes nothing. */
  lemma StartAnalysisCases(s: Settings, fs: Fs, w: World, topology: Option<Topology>, current: Option<string>, tree: Tree)
    ensures var e := StartAnalysis(s, fs, w, topology, current, tree);
      (Walk(fs, s.sourceDirs).Err? ==> e == Effect(Report(Walk(fs, s.sourceDirs).error), topology, [])) &&
      (Walk(fs, s.sourceDirs) == Ok([]) ==> e == Effect(Report(NoSourceFiles), topology, [])) &&
      (Walk(fs, s.sourceDirs).Ok? && Walk(fs, s.sourceDirs).value != [] ==>
        var files := Walk(fs, s.sourceDirs).value;
        var r := AnalyzeRun(s, Paths(files), w);
        e.trace == r.trace &&
        (r.outcome.Left? ==>
          e.topology == topology && |e.sent| == |r.outcome.diagnostics| &&
          forall i :: 0 <= i < |e.sent| ==>
            e.sent[i] == PublishDiagnostics(UriOf(r.outcome.diagnostics[i]), [r.outcome.diagnostics[i]])) &&
        (r.outcome.Right? ==> e.topology == Some(r.outcome.topology) && (current.None? ==> e.sent == [])) &&
        (r.outcome.Right? && current.Some? ==>
          e.sent == TopologyNotes(r.outcome.topology, s.sourceDirs, current.value, tree)) &&
        (r.outcome.Thrown? ==> e == Effect(Report(r.outcome.failure), topology, r.trace)) &&
        (r.outcome.Stalled? ==> e == Effect([], topology, r.trace)))
  {
  }

  /** Once a topology is cached it stays cached: neither handler clears it. */
  lemma TopologyKept(command: string, s: Settings, fs: Fs, w: World, topology: Option<Topology>,
                     current: Option<string>, tree: Tree)
    requires topology.Some?
    ensures ExecuteCommand(command, s, fs, w, topology, current, tree).topology.Some?
  {
  }

  /** The analyzer is handed the walk's file paths in order and its first
      file on the command line. */
  lemma AnalyzedFiles(s: Settings, fs: Fs, w: World, topology: Option<Topology>, current: Option<string>, tree: Tree)
    requires Walk(fs, s.sourceDirs).Ok? && Walk(fs, s.sourceDirs).value != []
    requires w.bindOk && w.url.Some? && !PrebuildFails(s, Paths(Walk(fs, s.sourceDirs).value), w)
    ensures var files := Walk(fs, s.sourceDirs).value;
      Spawn(CommandLine(s, w.url.value, files[0].path)) in StartAnalysis(s, fs, w, topology, current, tree).trace
  {
    var files := Walk(fs, s.sourceDirs).value;
    StartTrace(s, fs, w, topology, current, tree);
    SpawnRecorded(s, Paths(files), w);
  }

  /** Once the walk found files, the command's events are those of the run. */
  lemma StartTrace(s: Settings, fs: Fs, w: World, topology: Option<Topology>, current: Option<string>, tree: Tree)
    requires Walk(fs, s.sourceDirs).Ok? && Walk(fs, s.sourceDirs).value != []
    ensures StartAnalysis(s, fs, w, topology, current, tree).trace ==
      AnalyzeRun(s, Paths(Walk(fs, s.sourceDirs).value), w).trace
  {
  }
}
