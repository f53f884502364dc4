/** The Language Server Protocol values the server builds, and the client
    connection as the sequence of notifications sent over it. */
module Lsp {
  import opened Base

  /** Positions are plain integers: the server computes some of them by
      subtraction and they can go below zero. */
  datatype Position = Position(line: int, character: int)

  datatype Range = Range(start: Position, end: Position)

  /** A zero-width range at the start of `line`. */
  function LineStart(line: int): (r: Range)
    ensures r.start == r.end && r.start.character == 0
  {
    Range(Position(line, 0), Position(line, 0))
  }

  /** A diagnostic; `source` is absent when the object has no `source` field. */
  datatype Diagnostic = Diagnostic(range: Range, message: string, source: Option<string>)

  datatype TextEdit = TextEdit(range: Range, newText: string)

  datatype Location = Location(uri: string, range: Range)

  /** A colour as `Color.hsl(hue, saturation, lightness)` builds it. */
  datatype Hsl = Hsl(hue: real, saturation: int, lightness: int)

  /** What the server sends to the client. */
  datatype Outbound =
    | Unhighlight                                   // "unhighlight" notification
    | Highlight(range: Range, color: Hsl, alpha: string)  // "highlight": hex of color, then alpha
    | PublishDiagnostics(uri: string, diagnostics: seq<Diagnostic>)
    | ShowError(failure: Failure)                   // window.showErrorMessage(e.message)
    | LogError(failure: Failure)                    // console.error(e.message)

  /** The connection to the editor. */
  class Client {
    var sent: seq<Outbound>

    constructor()
      ensures sent == []
    {
      sent := [];
    }

    method Send(n: Outbound)
      modifies this
      ensures sent == old(sent) + [n]
    {
      sent := sent + [n];
    }
  }
}
