/** `makeAction`: the "Wrap in CLE Label" refactoring, offered for a
    non-empty selection that starts on the first line of a function
    definition. */
module Action {
  import opened Base
  import opened Lsp
  import opened Lines
  import opened Parser

  /** `validSelection`: on one line the end must lie right of the start,
      across lines the end line must come later. */
  predicate ValidSelection(r: Range) {
    if r.end.line == r.start.line then r.end.character > r.start.character
    else r.end.line > r.start.line
  }

  /** The selection is valid exactly when its end follows its start in
      (line, character) order. */
  lemma ValidIsLexOrder(r: Range)
    ensures ValidSelection(r) <==>
      (r.start.line < r.end.line || (r.start.line == r.end.line && r.start.character < r.end.character))
  {
  }

  /** `line` is the editor line on which one of `defs` begins (lines of
      tokens count from 1, editor lines from 0, so token line `n` is editor
      line `n - 1`). */
  ghost predicate StartsOnDefLine(defs: seq<FunctionDef>, line: int) {
    exists k :: 0 <= k < |defs| && defs[k].start.line - 1 == line
  }

  /** How many of `defs` begin on editor line `line`: each definition's
      first token line is turned into an editor line and compared. */
  function CountDefsOnLine(defs: seq<FunctionDef>, line: int): (n: nat)
    ensures n <= |defs|
    ensures n > 0 <==> StartsOnDefLine(defs, line)
  {
    if defs == [] then 0
    else
      var rest := CountDefsOnLine(defs[1..], line);
      assert forall k :: 1 <= k < |defs| ==> defs[k] == defs[1..][k - 1];
      (if defs[0].start.line - 1 == line then 1 else 0) + rest
  }

  /** The lines of the snippet. */
  const SnippetLines: seq<string> := ["#pragma cle begin ${1:LABEL}", "$TM_SELECTED_TEXT", "#pragma cle end ${1:LABEL}", ""]

  const Snippet: string := Join(SnippetLines, "\n")

  datatype SnippetCommand = SnippetCommand(title: string, command: string, snippet: string)

  datatype CodeAction = CodeAction(title: string, kind: string, command: SnippetCommand)

  const WrapAction := CodeAction("Wrap in CLE Label", "refactor.inline",
    SnippetCommand("Wrap in CLE Label", "editor.action.insertSnippet", Snippet))

  /** `makeAction` for the selection `range` in the document whose parse
      tree is `tree`. */
  function MakeAction(range: Range, tree: Tree): (r: Option<seq<CodeAction>>)
    ensures r.Some? <==> ValidSelection(range) && StartsOnDefLine(DefsIn(Preorder(tree)), range.start.line)
    ensures r.Some? ==> r.value == [WrapAction]
  {
    var fndefs := DefsIn(Preorder(tree));
    if CountDefsOnLine(fndefs, range.start.line) > 0 && ValidSelection(range) then Some([WrapAction]) else None
  }

  /** No line of the snippet holds a line break. */
  lemma SnippetLinesPlain()
    ensures forall k :: 0 <= k < |SnippetLines| ==> '\n' !in SnippetLines[k] && '\r' !in SnippetLines[k]
  {
    BeginPlain();
    SelectionPlain();
    EndPlain();
  }

  lemma BeginPlain()
    ensures '\n' !in SnippetLines[0] && '\r' !in SnippetLines[0]
  {
  }

  lemma SelectionPlain()
    ensures '\n' !in SnippetLines[1] && '\r' !in SnippetLines[1]
  {
  }

  lemma EndPlain()
    ensures '\n' !in SnippetLines[2] && '\r' !in SnippetLines[2]
  {
  }

  /** Lines joined with "\n" whose last line is empty end in a line break. */
  lemma {:induction false} JoinEndsInBreak(ls: seq<string>)
    requires |ls| >= 2 && ls[|ls| - 1] == ""
    ensures var j := Join(ls, "\n"); |j| > 0 && j[|j| - 1] == '\n'
  {
    var rest := Join(ls[1..], "\n");
    if |ls| == 2 {
      assert rest == "";
    } else {
      JoinEndsInBreak(ls[1..]);
    }
    assert Join(ls, "\n") == ls[0] + "\n" + rest;
  }

  /** The snippet splits back into its four lines: the selection between a
      begin and an end pragma, and a final empty line. */
  lemma SnippetShape()
    ensures SplitLines(Snippet) == SnippetLines
  {
    SnippetLinesPlain();
    SplitJoin(SnippetLines);
  }

  /** The snippet ends in a line break. */
  lemma SnippetEndsInBreak()
    ensures |Snippet| > 0 && Snippet[|Snippet| - 1] == '\n'
  {
    JoinEndsInBreak(SnippetLines);
  }
}
