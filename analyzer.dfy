/** The messages of the conflict analyzer: what it finds and what the
    server learns about the partition of the program into enclaves. */
module Analyzer {
  import opened Base
  import opened Lsp

  /** A function or global variable and the level it is assigned to;
      its line number arrives as a string. */
  datatype EnclaveAssignment = EnclaveAssignment(name: string, level: string, line: string)

  datatype Topology = Topology(
    sourcePath: string,
    levels: seq<string>,
    globalScopedVars: seq<EnclaveAssignment>,
    functions: seq<EnclaveAssignment>)

  /** The closed set of conflict names. */
  datatype ConflictIdentifier =
    | InvalidJson
    | UndefinedLabel
    | InsufficientEnclaves
    | MissingEnclaves
    | UnresolvableControlConflict
    | UnresolvableDataConflict
  {
    /** The name as it appears on the wire. */
    function Name(): string {
      match this
      case InvalidJson => "Invalid JSON"
      case UndefinedLabel => "Undefined label"
      case InsufficientEnclaves => "Insufficient Enclaves"
      case MissingEnclaves => "Missing Enclaves"
      case UnresolvableControlConflict => "Unresolvable Control Conflict"
      case UnresolvableDataConflict => "Unresolvable Data Conflict"
    }
  }

  /** Reads a conflict name; any other string is not one. */
  function ConflictIdentifierOf(s: string): Option<ConflictIdentifier> {
    if s == "Invalid JSON" then Some(InvalidJson)
    else if s == "Undefined label" then Some(UndefinedLabel)
    else if s == "Insufficient Enclaves" then Some(InsufficientEnclaves)
    else if s == "Missing Enclaves" then Some(MissingEnclaves)
    else if s == "Unresolvable Control Conflict" then Some(UnresolvableControlConflict)
    else if s == "Unresolvable Data Conflict" then Some(UnresolvableDataConflict)
    else None
  }

  /** Names and identifiers correspond one to one. */
  lemma ConflictNameRoundTrip(c: ConflictIdentifier, s: string)
    ensures ConflictIdentifierOf(c.Name()) == Some(c)
    ensures ConflictIdentifierOf(s) == Some(c) <==> s == c.Name()
  {
  }

  /** Where a conflict originates. */
  datatype Source = Source(file: string, range: Range)

  /** A conflict. A `sources` entry that is JSON `null` is None. */
  datatype Conflict = Conflict(
    name: ConflictIdentifier,
    description: string,
    sources: seq<Option<Source>>,
    remedies: seq<string>)

  datatype AnalyzerError = AnalyzerError(errno: int, errMessage: string, customMessage: string)

  type Conflicts = s: seq<Conflict> | |s| > 0
    witness [Conflict(InvalidJson, "", [], [])]

  type AnalyzerErrors = s: seq<AnalyzerError> | |s| > 0
    witness [AnalyzerError(0, "", "")]

  /** The analyzer's reply, tagged by its `result` field. */
  datatype AnalyzerResult =
    | ConflictResult(conflicts: Conflicts)
    | ErrorResult(errors: AnalyzerErrors)
    | SuccessResult(topology: Topology)
  {
    function Tag(): string {
      match this
      case ConflictResult(_) => "Conflict"
      case ErrorResult(_) => "Error"
      case SuccessResult(_) => "Success"
    }
  }

  /** The tag tells the three variants apart. */
  lemma TagsDistinct(a: AnalyzerResult, b: AnalyzerResult)
    ensures a.Tag() == b.Tag() <==>
      (a.ConflictResult? && b.ConflictResult?) || (a.ErrorResult? && b.ErrorResult?) ||
      (a.SuccessResult? && b.SuccessResult?)
    ensures a.Tag() in {"Conflict", "Error", "Success"}
  {
  }
}
