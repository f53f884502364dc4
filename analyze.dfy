/** `analyze`: the run of the conflict analyzer. The server runs the
    prebuild command once per file, binds a reply socket, spawns the
    analyzer, waits for its one message, closes the socket, waits for the
    process to exit and then reads the message. The sockets, processes and
    the URL parser are not modelled; what they answer is a `World` value,
    and what the server does to them is a trace of events. */
module Analyze {
  import opened Base
  import opened Lsp
  import opened Analyzer

  /** The settings `analyze` reads. `prebuild` and `pythonPath` may be
      unset. */
  datatype Settings = Settings(
    sourceDirs: seq<string>,
    prebuild: Option<string>,
    workingDir: string,
    zmqUri: string,
    pythonPath: Option<string>,
    conflictAnalyzerPath: string)

  /** The parts of `new URL(zmqURI)` the command line uses. */
  datatype Url = Url(protocol: string, port: string)

  /** The analyzer's message: not JSON; JSON that is none of the three
      results (`null`, whose `result` cannot be read, or an object with
      another tag, for which `analyze` resolves with `undefined` and the
      server's tag test throws); or the JSON of a result. */
  datatype Payload = Malformed | Unrecognized | Json(result: AnalyzerResult)

  /** What the outside world answers: the files for which the prebuild
      command exits with an error, the parsed URL (None when the URL
      constructor throws), whether the bind succeeds, the one message the
      socket receives (None when none ever arrives) and whether the analyzer
      exits normally. */
  datatype World = World(
    prebuildFailing: set<string>,
    url: Option<Url>,
    bindOk: bool,
    reply: Option<Payload>,
    analyzerOk: bool)

  /** What the server does to the outside world. */
  datatype Event =
    | RunPrebuild(command: string, srcFile: string, workingDir: string)  // exec with SRC_FILE and WORKING_DIR
    | Bind(uri: string)
    | Spawn(command: string)
    | Receive
    | Close
    | AwaitExit

  /** How `analyze` ends: with diagnostics, with a topology, by throwing,
      or never, when no message arrives. */
  datatype Outcome =
    | Left(diagnostics: seq<Diagnostic>)
    | Right(topology: Topology)
    | Thrown(failure: Failure)
    | Stalled

  type NonEmptyFiles = s: seq<string> | |s| > 0 witness [""]

  /** `if (settings.prebuild)`: set and not the empty string. */
  predicate PrebuildEnabled(s: Settings) {
    s.prebuild.Some? && s.prebuild.value != ""
  }

  /** The first file whose prebuild fails. */
  function FirstFailing(files: seq<string>, failing: set<string>): (k: Option<nat>)
    ensures k.Some? ==> k.value < |files| && files[k.value] in failing
    ensures k.Some? ==> forall j :: 0 <= j < k.value ==> files[j] !in failing
    ensures k.None? ==> forall j :: 0 <= j < |files| ==> files[j] !in failing
  {
    if files == [] then None
    else if files[0] in failing then Some(0)
    else
      var k := FirstFailing(files[1..], failing);
      assert forall j :: 1 <= j < |files| ==> files[j] == files[1..][j - 1];
      if k.Some? then Some(k.value + 1) else None
  }

  function PrebuildEvents(command: string, files: seq<string>, workingDir: string): seq<Event> {
    seq(|files|, i requires 0 <= i < |files| => RunPrebuild(command, files[i], workingDir))
  }

  /** The prebuild invocations made: up to and including the first that
      fails. */
  function PrebuildTrace(s: Settings, files: seq<string>, w: World): seq<Event> {
    if !PrebuildEnabled(s) then []
    else
      var n := match FirstFailing(files, w.prebuildFailing) case Some(k) => k + 1 case None => |files|;
      PrebuildEvents(s.prebuild.value, files[..n], s.workingDir)
  }

  /** The analyzer's command line; only the first file is passed. */
  function CommandLine(s: Settings, url: Url, first: string): string {
    (if s.pythonPath.Some? then s.pythonPath.value else "python3") + " " + s.conflictAnalyzerPath +
    " -z " + url.protocol + "//localhost:" + url.port + " -f " + first
  }

  /** The diagnostic of one source of a conflict: a missing source gives the
      empty range at (0, 0) and no `source` field. */
  function DiagnosticOf(c: Conflict, src: Option<Source>): Diagnostic {
    match src
    case None => Diagnostic(Range(Position(0, 0), Position(0, 0)), c.description, None)
    case Some(x) => Diagnostic(x.range, c.description, Some(x.file))
  }

  function ConflictDiagnostics(c: Conflict): seq<Diagnostic> {
    seq(|c.sources|, j requires 0 <= j < |c.sources| => DiagnosticOf(c, c.sources[j]))
  }

  /** The `flatMap` and `map`: one diagnostic per conflict and source. */
  function Expand(cs: seq<Conflict>): seq<Diagnostic> {
    if cs == [] then [] else ConflictDiagnostics(cs[0]) + Expand(cs[1..])
  }

  function SourceCount(cs: seq<Conflict>): nat {
    if cs == [] then 0 else |cs[0].sources| + SourceCount(cs[1..])
  }

  /** The tag `switch` after the message has been parsed. */
  function Dispatch(p: Payload): (o: Outcome)
    ensures o == Thrown(CouldNotParse) <==> p.Malformed?
    ensures o == Thrown(NotAResult) <==> p.Unrecognized?
    ensures o == Thrown(AnalyzerReportedError) <==> p.Json? && p.result.ErrorResult?
    ensures o.Left? <==> p.Json? && p.result.ConflictResult?
    ensures o.Left? ==> o.diagnostics == Expand(p.result.conflicts)
    ensures o.Right? <==> p.Json? && p.result.SuccessResult?
    ensures o.Right? ==> o.topology == p.result.topology
    ensures o != Stalled
  {
    match p
    case Malformed => Thrown(CouldNotParse)
    case Unrecognized => Thrown(NotAResult)
    case Json(ConflictResult(cs)) => Left(Expand(cs))
    case Json(SuccessResult(t)) => Right(t)
    case Json(ErrorResult(_)) => Thrown(AnalyzerReportedError)
  }

  datatype Run = Run(trace: seq<Event>, outcome: Outcome)

  predicate PrebuildFails(s: Settings, files: seq<string>, w: World) {
    PrebuildEnabled(s) && FirstFailing(files, w.prebuildFailing).Some?
  }

  /** The steps after the prebuild, in the order the code takes them. */
  function Steps(s: Settings, files: NonEmptyFiles, url: Url): seq<Event> {
    [Bind(s.zmqUri), Spawn(CommandLine(s, url, files[0])), Receive, Close, AwaitExit]
  }

  /** The whole of `analyze(settings, files)` against the world `w`. */
  function AnalyzeRun(s: Settings, files: NonEmptyFiles, w: World): Run {
    var pre := PrebuildTrace(s, files, w);
    if PrebuildFails(s, files, w) then Run(pre, Thrown(PrebuildFailed))
    else
      var c := Connection(s, files, w);
      Run(pre + c.trace, c.outcome)
  }

  /** What follows a prebuild that passed: the url is parsed, the socket
      bound, the analyzer spawned, its message received and the socket
      closed, and the process awaited; the first step that fails ends it. */
  function Connection(s: Settings, files: NonEmptyFiles, w: World): Run {
    if w.url.None? then Run([], Thrown(InvalidUrl))
    else if !w.bindOk then Run([Bind(s.zmqUri)], Thrown(BindFailed))
    else if w.reply.None? then Run(Steps(s, files, w.url.value)[..2], Stalled)
    else if !w.analyzerOk then Run(Steps(s, files, w.url.value), Thrown(AnalyzerFailed))
    else Run(Steps(s, files, w.url.value), Dispatch(w.reply.value))
  }

  /** The server's side of the analyzer connection: what it has done so far. */
  class Session {
    var trace: seq<Event>

    constructor()
      ensures trace == []
    {
      trace := [];
    }

    method Emit(e: Event)
      modifies this
      ensures trace == old(trace) + [e]
    {
      trace := trace + [e];
    }

    /** The prebuild loop: each invocation awaited before the next; the
        first failure throws. */
    method Prebuild(command: string, files: seq<string>, workingDir: string, failing: set<string>)
      returns (failed: bool)
      modifies this
      ensures failed <==> FirstFailing(files, failing).Some?
      ensures trace == old(trace) + PrebuildEvents(command,
        files[..(match FirstFailing(files, failing) case Some(k) => k + 1 case None => |files|)], workingDir)
    {
      var k := 0;
      while k < |files|
        invariant k <= |files|
        invariant forall j :: 0 <= j < k ==> files[j] !in failing
        invariant trace == old(trace) + PrebuildEvents(command, files[..k], workingDir)
      {
        assert PrebuildEvents(command, files[..k + 1], workingDir) ==
          PrebuildEvents(command, files[..k], workingDir) + [RunPrebuild(command, files[k], workingDir)];
        Emit(RunPrebuild(command, files[k], workingDir));
        if files[k] in failing {
          return true;
        }
        k := k + 1;
      }
      return false;
    }

    /** `analyze(settings, filenames)`. */
    method Analyze(s: Settings, files: NonEmptyFiles, w: World) returns (outcome: Outcome)
      modifies this
      ensures trace == old(trace) + AnalyzeRun(s, files, w).trace
      ensures outcome == AnalyzeRun(s, files, w).outcome
    {
      if s.prebuild.Some? && s.prebuild.value != "" {
        var failed := Prebuild(s.prebuild.value, files, s.workingDir, w.prebuildFailing);
        if failed {
          return Thrown(PrebuildFailed);
        }
      } else {
        assert old(trace) + [] == old(trace);
      }
      outcome := Connect(s, files, w);
      AppendAssoc(old(trace), PrebuildTrace(s, files, w), Connection(s, files, w).trace);
    }

    /** The steps of `analyze` after the prebuild. */
    method Connect(s: Settings, files: NonEmptyFiles, w: World) returns (outcome: Outcome)
      modifies this
      ensures trace == old(trace) + Connection(s, files, w).trace
      ensures outcome == Connection(s, files, w).outcome
    {
      if w.url.None? {
        assert old(trace) + [] == old(trace);
        return Thrown(InvalidUrl);
      }
      var url := w.url.value;
      ghost var steps := Steps(s, files, url);
      Emit(Bind(s.zmqUri));
      if !w.bindOk {
        return Thrown(BindFailed);
      }
      Emit(Spawn(CommandLine(s, url, files[0])));
      AppendAssoc(old(trace), [steps[0]], [steps[1]]);
      assert [steps[0]] + [steps[1]] == steps[..2];
      if w.reply.None? {
        return Stalled;
      }
      var msg := w.reply.value;
      Emit(Receive);
      AppendAssoc(old(trace), steps[..2], [Receive]);
      assert steps[..2] + [Receive] == steps[..3];
      Emit(Close);
      AppendAssoc(old(trace), steps[..3], [Close]);
      assert steps[..3] + [Close] == steps[..4];
      Emit(AwaitExit);
      AppendAssoc(old(trace), steps[..4], [AwaitExit]);
      assert steps[..4] + [AwaitExit] == steps;
      if !w.analyzerOk {
        return Thrown(AnalyzerFailed);
      }
      outcome := Dispatch(msg);
    }
  }

  /** The prebuild runs only when set, once per file in order with that
      file and the working directory, and stops at the first failure. */
  lemma PrebuildOrder(s: Settings, files: NonEmptyFiles, w: World)
    ensures var t := PrebuildTrace(s, files, w);
      (!PrebuildEnabled(s) ==> t == []) &&
      (PrebuildEnabled(s) && FirstFailing(files, w.prebuildFailing).None? ==>
        |t| == |files| &&
        forall i :: 0 <= i < |files| ==> t[i] == RunPrebuild(s.prebuild.value, files[i], s.workingDir)) &&
      (PrebuildEnabled(s) && FirstFailing(files, w.prebuildFailing).Some? ==>
        |t| == FirstFailing(files, w.prebuildFailing).value + 1 &&
        t[|t| - 1].srcFile in w.prebuildFailing &&
        forall i :: 0 <= i < |t| - 1 ==> t[i].srcFile !in w.prebuildFailing)
  {
  }

  /** Every step after the prebuild happens in the fixed order bind, spawn,
      receive, close, exit, and the run stops after some prefix of them: the
      socket is bound before the analyzer starts, and closed exactly when a
      message was received, which needs every earlier step to succeed. */
  lemma StepOrder(s: Settings, files: NonEmptyFiles, w: World)
    ensures var r := AnalyzeRun(s, files, w);
      var pre := PrebuildTrace(s, files, w);
      pre <= r.trace &&
      (w.url.None? ==> r.trace == pre) &&
      (w.url.Some? ==> r.trace[|pre|..] <= Steps(s, files, w.url.value)) &&
      (Close in r.trace <==> Receive in r.trace) &&
      (Receive in r.trace <==> !PrebuildFails(s, files, w) && w.url.Some? && w.bindOk && w.reply.Some?)
  {
    var pre := PrebuildTrace(s, files, w);
    PrebuildOnly(s, files, w);
    if !PrebuildFails(s, files, w) {
      var c := Connection(s, files, w);
      ConnectionSteps(s, files, w);
      assert (pre + c.trace)[|pre|..] == c.trace;
      assert Receive in pre + c.trace <==> Receive in c.trace;
      assert Close in pre + c.trace <==> Close in c.trace;
    }
  }

  /** The prebuild records nothing but prebuild invocations. */
  lemma PrebuildOnly(s: Settings, files: NonEmptyFiles, w: World)
    ensures forall e :: e in PrebuildTrace(s, files, w) ==> e.RunPrebuild?
  {
  }

  /** The connection steps are a prefix of the fixed sequence, and a message
      is received, and the socket closed, exactly when every step before
      succeeded. */
  lemma ConnectionSteps(s: Settings, files: NonEmptyFiles, w: World)
    ensures var c := Connection(s, files, w).trace;
      (w.url.None? ==> c == []) &&
      (w.url.Some? ==> c <= Steps(s, files, w.url.value)) &&
      (Close in c <==> Receive in c) &&
      (Receive in c <==> w.url.Some? && w.bindOk && w.reply.Some?)
  {
  }

  /** Once the prebuild passed, the url parsed and the socket is bound, the
      analyzer is spawned with the first file. */
  lemma SpawnRecorded(s: Settings, files: NonEmptyFiles, w: World)
    requires w.bindOk && w.url.Some? && !PrebuildFails(s, files, w)
    ensures Spawn(CommandLine(s, w.url.value, files[0])) in AnalyzeRun(s, files, w).trace
  {
    var pre := PrebuildTrace(s, files, w);
    assert AnalyzeRun(s, files, w).trace[|pre| + 1] == Spawn(CommandLine(s, w.url.value, files[0]));
  }

  /** A result is read only after the full sequence of steps has completed
      and the analyzer has exited normally; the run stalls exactly when the
      analyzer was spawned and no message arrives. */
  lemma OutcomeCases(s: Settings, files: NonEmptyFiles, w: World)
    ensures var r := AnalyzeRun(s, files, w);
      ((r.outcome.Left? || r.outcome.Right? || r.outcome == Thrown(CouldNotParse) ||
        r.outcome == Thrown(NotAResult) || r.outcome == Thrown(AnalyzerReportedError)) ==>
        w.url.Some? && w.reply.Some? && w.analyzerOk &&
        r.trace == PrebuildTrace(s, files, w) + Steps(s, files, w.url.value) &&
        r.outcome == Dispatch(w.reply.value)) &&
      (r.outcome == Stalled <==> !PrebuildFails(s, files, w) && w.url.Some? && w.bindOk && w.reply.None?) &&
      (r.outcome == Thrown(PrebuildFailed) <==> PrebuildFails(s, files, w))
  {
  }

  /** The spawned command names the analyzer script, the socket's protocol
      and port on localhost, and only the first of the files. */
  lemma CommandFirstFileOnly(s: Settings, url: Url, files: NonEmptyFiles)
    ensures var c := CommandLine(s, url, files[0]);
      (" -f " + files[0] <= c[|c| - |files[0]| - 4..]) &&
      ((if s.pythonPath.Some? then s.pythonPath.value else "python3") + " " + s.conflictAnalyzerPath + " -z ") <= c
  {
    var c := CommandLine(s, url, files[0]);
    var head := (if s.pythonPath.Some? then s.pythonPath.value else "python3") + " " + s.conflictAnalyzerPath + " -z ";
    assert c == head + (url.protocol + "//localhost:" + url.port) + (" -f " + files[0]);
  }

  lemma {:induction false} ExpandAppend(a: seq<Conflict>, b: seq<Conflict>)
    ensures Expand(a + b) == Expand(a) + Expand(b)
    ensures SourceCount(a + b) == SourceCount(a) + SourceCount(b)
  {
    if a == [] {
      assert a + b == b;
    } else {
      assert (a + b)[0] == a[0] && (a + b)[1..] == a[1..] + b;
      ExpandAppend(a[1..], b);
    }
  }

  /** There is one diagnostic per (conflict, source) pair, conflict-major:
      the `j`-th source of the `i`-th conflict gives the diagnostic after
      those of the conflicts before it. */
  lemma {:induction false} ExpandAt(cs: seq<Conflict>, i: nat, j: nat)
    requires i < |cs| && j < |cs[i].sources|
    ensures |Expand(cs)| == SourceCount(cs)
    ensures SourceCount(cs[..i]) + j < |Expand(cs)|
    ensures Expand(cs)[SourceCount(cs[..i]) + j] == DiagnosticOf(cs[i], cs[i].sources[j])
  {
    ExpandLength(cs);
    assert cs == cs[..i] + ([cs[i]] + cs[i + 1..]);
    ExpandAppend(cs[..i], [cs[i]] + cs[i + 1..]);
    ExpandAppend([cs[i]], cs[i + 1..]);
    assert [cs[i]][1..] == [];
    ExpandLength(cs[..i]);
  }

  lemma {:induction false} ExpandLength(cs: seq<Conflict>)
    ensures |Expand(cs)| == SourceCount(cs)
  {
    if cs != [] {
      ExpandLength(cs[1..]);
    }
  }

  /** Conflicts without sources give no diagnostics at all, although the
      result is declared non-empty. */
  lemma {:induction false} NoSourcesNoDiagnostics(cs: seq<Conflict>)
    requires forall k :: 0 <= k < |cs| ==> cs[k].sources == []
    ensures Expand(cs) == []
  {
    if cs != [] {
      assert forall k :: 0 <= k < |cs| - 1 ==> cs[1..][k] == cs[k + 1];
      NoSourcesNoDiagnostics(cs[1..]);
    }
  }

  /** Every diagnostic carries the description of one of the conflicts, and
      a `source` exactly when its conflict source was present. */
  lemma {:induction false} ExpandMessages(cs: seq<Conflict>, d: Diagnostic)
    requires d in Expand(cs)
    ensures exists i, j ::
              0 <= i < |cs| && 0 <= j < |cs[i].sources| &&
              d == DiagnosticOf(cs[i], cs[i].sources[j]) && d.message == cs[i].description &&
              (d.source.Some? <==> cs[i].sources[j].Some?)
  {
    if d in ConflictDiagnostics(cs[0]) {
      var j :| 0 <= j < |cs[0].sources| && d == ConflictDiagnostics(cs[0])[j];
      assert d == DiagnosticOf(cs[0], cs[0].sources[j]);
    } else {
      ExpandMessages(cs[1..], d);
      var i, j :| 0 <= i < |cs[1..]| && 0 <= j < |cs[1..][i].sources| && d == DiagnosticOf(cs[1..][i], cs[1..][i].sources[j]);
      assert cs[1..][i] == cs[i + 1];
    }
  }
}
