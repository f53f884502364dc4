# CLE language server — a Dafny model

This project models the language server of the CLE editor extension. CLE
(Cross-domain Language Extensions) annotates C source with
`#pragma cle def LABEL {...}` definitions and
`#pragma cle begin/end LABEL` references. The server offers six services:

- **Go-to-definition, hover and rename** for labels. They use a regex scan
  of the C-like files under the configured source directories.
- **The conflict-analyzer session.** It runs an optional prebuild command
  per file, binds a reply socket and spawns the analyzer. It then receives
  one result and turns it into diagnostics or a topology.
- **Highlighting of the open document.** Per the topology, each function is
  shaded in the colour of its enclave level.
- **Code lenses** that show each function's level.
- **A "Wrap in CLE Label" code action.**
- **The two stateful handlers of the server.** One opens a document; the
  other executes a command.

## Modules

| module | what it holds |
|---|---|
| `Base` | options, results with the server's failure kinds, JavaScript `\s`/`\w`, `trim`, `join`, first index of a substring |
| `Regex` | a backtracking matcher that lists the ends it tries in priority order (as JavaScript's does); `exec` takes the leftmost start and the first end; the matcher is proved sound and complete against the denoted language, so "no match" means no substring of the text is in the pattern's language |
| `Pragmas` | the reference and definition patterns of the three lookups; what their label group holds |
| `Lines` | `split(/\n\|\r\n/)` and the newline-counting loop that turns a match index into a line and column |
| `SourceSet` | the recursive `readdir`/`stat` walk, proved equal to "all regular files, filtered by extension" |
| `Search` | the two file scans: strict (a read failure rejects) and lenient (a read failure skips the file) |
| `Labels` | `getCLEDefinition` and `getCLELabels` |
| `Definition`, `Hover`, `Rename` | the three label services |
| `Analyzer` | the analyzer's messages |
| `Parser` | the parse-tree listeners that collect function definitions and declarations, and `functionName` |
| `Projection` | `sendTopology`: level set, palette, highlight notifications |
| `Lens`, `Action` | code lenses and the code action |
| `Analyze` | the analyzer session as a trace of effects against a described outside world |
| `Server` | the `onDidOpen` and `onExecuteCommand` handlers over the cached topology and current document |

## How the outside world is represented

- **The file system** is a value: `Fs` maps each source directory to a
  tree of entries. A file's text is `None` when reading it fails.
- **The settings** are parameters.
- **The document's text** and **its parse tree** are parameters.
- **The persisted topology** is a parameter.
- **The sockets and processes** are a `World` value. It gives the files
  whose prebuild fails, whether the URL parses, whether the bind succeeds,
  the reply (if any) and whether the analyzer exits cleanly.
- `Analyze.Session` records the effects the server causes.
- `Lsp.Client` records the notifications it sends.
- A rejected promise is a `Failure`. An await that never settles is the
  `Stalled` outcome.

## Where the model follows the code rather than the documented intent

- **`getCLEDefinition`** (util.ts:31) searches with a definition pattern
  that does not contain the label. It answers with the first definition of
  any label, so the rename built on it can target the wrong definition.
  `Labels.CLEDefinitionCases` and `Rename.RenameCases` state this.
- **`getCLELabels`** (util.ts:59-84) returns from inside the loop. It
  reports the occurrences of the first readable file only, and null only
  when no file can be read.
- **The newline loop counts "\r\n" twice** (util.ts:38 and
  definition.ts:30).
- **The two lookups place the same match one column apart** (util.ts:43
  and definition.ts:35).
- **Only the first file is passed to the analyzer** (analyze.ts:33).
- **Rename edits land right of the label on indented lines** (rename.ts:21-22).
  `labelRange` adds the match index to the label's index within the whole
  line, not within the match, so on a reference line with leading text the
  edit is shifted right. `Rename.OccurrenceEditShifted` states this.
- **Token lines are used as editor lines with ad hoc offsets.** Token lines
  count from 1 and editor lines from 0. The code action compares the
  selection with token line minus one, the definition's own line
  (action.ts:15). Lenses sit on the same line (lens.ts:26). Highlights begin
  at token line minus two, one editor line above the definition, and end at
  the stop token's token line taken unchanged, one editor line below the
  stop token (util.ts:143-145).
- **A reply that is JSON but no analyzer result** is not rejected by
  `analyze`. For `null`, reading its `result` throws a TypeError
  (analyze.ts:51). For another tag, `analyze` resolves with `undefined` and
  the server's `res._tag` throws a TypeError (server.ts:109). Either way
  the error is caught, shown and logged. `Analyze.Dispatch` gives
  `NotAResult` for this.

## Model

| member | source | states |
|---|---|---|
| Regex.EndsSound | cle-extension/server/src/util.ts:10-11 | every end the backtracking matcher tries for a pattern spans a string of that pattern's language |
| Regex.Exec | cle-extension/server/src/util.ts:25 | a match lies inside the text and is in the pattern's language, and the matcher tries no end at any earlier start; with no match it tries no end at any start |
| Regex.EndsComplete | cle-extension/server/src/util.ts:10-11 | every string of a pattern's language that starts at a position is among the ends the matcher tries there |
| Regex.CatComplete | cle-extension/server/src/util.ts:10-11 | a string of `a b` starting at a position is among the ends tried for the concatenation there |
| Regex.StarComplete | cle-extension/server/src/util.ts:10-11 | a non-empty string of `a*` starting at a position is among the ends tried for the repetition there |
| Regex.ContinueHas | cle-extension/server/src/util.ts:10-11 | an end of the second pattern after any end of the first is an end of the concatenation |
| Regex.StarFromHas | cle-extension/server/src/util.ts:10-11 | an end of `a*` after any non-empty iteration of `a` is an end of the repetition |
| Regex.ExecComplete | cle-extension/server/src/util.ts:25 | where a string of the pattern's language starts at `p` in the text, `exec` reports a match starting at `p` or earlier |
| Regex.ExecNone | cle-extension/server/src/util.ts:25 | `exec` returns null exactly when no part of the text is a string of the pattern's language |
| Regex.PlusClassAll | cle-extension/server/src/util.ts:10 | a string of `\s+` or `\w+` is non-empty and made only of characters of that class |
| Regex.WordSuffix | cle-extension/server/src/util.ts:27 | the label group is the longest run of word characters ending the match, preceded by a non-word character |
| Pragmas.GroupIsWordSuffix | cle-extension/server/src/definition.ts:19 | a final `(\w+)` group after a non-word character is recovered exactly from the matched text |
| Pragmas.LabelReSpaces | cle-extension/server/src/util.ts:10 | a string of `labelRegex` holds white space at three increasing positions, the last right before its final word run, which is the label group |
| Pragmas.LabelReGroup | cle-extension/server/src/util.ts:10 | the label group of a string of `labelRegex` is a non-empty run of word characters ending it, right after white space |
| Pragmas.RefReGroup | cle-extension/server/src/definition.ts:17 | the label group of a string of the reference pattern `(#pragma cle) (begin \|end )?(\w+)` is a non-empty run of word characters ending it, right after a space |
| Pragmas.GroupPlace | cle-extension/server/src/util.ts:25-27 | a match inside a line and its label group lie in that line at the positions the match index gives |
| Pragmas.OneSpaceRefused | cle-extension/server/src/util.ts:10 | `labelRegex` finds nothing in `#pragma cle X` with a single space before a label of word characters: it needs white space after "cle" and again before the label |
| Pragmas.DefLineRef | cle-extension/server/src/definition.ts:17-19 | on a definition line `#pragma cle def X...` the reference pattern matches "#pragma cle def" at 0 and its label group is "def" |
| Pragmas.DefReNamesLabel | cle-extension/server/src/definition.ts:23 | a match of the per-label definition pattern starts with "#pragma cle def " and the label, followed by white space |
| Lines.SplitLines | cle-extension/server/src/util.ts:24 | splitting yields at least one line and no line contains a newline |
| Lines.SplitJoin | cle-extension/server/src/util.ts:24 | splitting undoes joining with "\n", for lines without line breaks |
| Lines.CountNewlines | cle-extension/server/src/util.ts:34-42 | the loop's count is the number of break positions before the index, and `lastNewline` the last of them (0 if none) |
| Lines.HitsExactly | cle-extension/server/src/util.ts:37-42 | a position is counted exactly when it lies before the index and starts "\n" or "\r\n"; the positions increase |
| Lines.CrlfCountsTwice | cle-extension/server/src/util.ts:38 | a "\r\n" adds two to the count, one at each of its characters |
| Lines.LfPosition | cle-extension/server/src/definition.ts:26-35 | without "\r", the count is the editor line of the index and the column follows from `lastNewline` |
| SourceSet.ListIsFilteredWalk | cle-extension/server/src/util.ts:88-109 | listing a directory succeeds exactly when the walk over all its regular files does, and yields those files filtered by extension |
| SourceSet.EntryIsFiltered | cle-extension/server/src/util.ts:90-106 | the same for one entry: a file, a subdirectory or another kind of entry |
| SourceSet.UnstatableRejects | cle-extension/server/src/util.ts:92 | an entry that cannot be stat-ed rejects the listing of its directory |
| SourceSet.UnstatableInSourceDir | cle-extension/server/src/util.ts:21 | such an entry directly in a source directory rejects the whole walk |
| SourceSet.WalkRejects | cle-extension/server/src/util.ts:21 | one source directory that fails to list rejects the whole walk |
| SourceSet.UnstatableInSubdir | cle-extension/server/src/util.ts:94-98 | inside a subdirectory the rejection is swallowed and the subdirectory contributes nothing |
| SourceSet.ListedAreCLike | cle-extension/server/src/util.ts:100-102 | every listed path has one of the extensions .c, .h, .cpp, .hpp |
| SourceSet.KeptAreCLike | cle-extension/server/src/util.ts:101 | the extension filter keeps only C-like paths |
| SourceSet.KeepCLikeAppend | cle-extension/server/src/util.ts:107-108 | filtering distributes over the flattening of the per-entry lists |
| SourceSet.SuffixGivesExt | cle-extension/server/src/util.ts:100-101 | a base name ending in a C-like extension, with more before it, has that extension |
| SourceSet.CLikeHasSuffix | cle-extension/server/src/util.ts:100-101 | a C-like base name ends in its extension and is longer than it |
| SourceSet.BaseNameOfJoin | cle-extension/server/src/util.ts:91 | joining a directory and a plain name gives a path whose base name is that name |
| Search.HitIn | cle-extension/server/src/util.ts:31 | a match found in a file lies within the file's text |
| Search.FirstStrict | cle-extension/server/src/definition.ts:20-24 | a hit the strict scan reports lies within its file |
| Search.FirstLenient | cle-extension/server/src/hover.ts:23-33 | a hit the lenient scan reports lies within its file |
| Search.ScanStrict | cle-extension/server/src/definition.ts:20-42 | the loop's answer is the strict scan: the first hit, or a rejection at the first unreadable file before it |
| Search.ScanLenient | cle-extension/server/src/hover.ts:23-45 | the loop's answer is the lenient scan: the first hit among the readable files |
| Search.HitNone | cle-extension/server/src/util.ts:31 | a readable file gives no hit exactly when no substring of its text is in the pattern's language |
| Search.HitSound | cle-extension/server/src/util.ts:31-33 | a hit is a match of the pattern at the reported index of the file's text |
| Search.FirstStrictDecides | cle-extension/server/src/definition.ts:20-42 | the strict scan finds nothing exactly when every file is readable and unmatched; otherwise it answers at the first file that is unreadable (rejection) or matched (hit) |
| Search.StrictNone | cle-extension/server/src/definition.ts:20-42 | the strict scan finds nothing exactly when every file is readable and unmatched |
| Search.StrictAt | cle-extension/server/src/definition.ts:20-42 | the first file that is unreadable or matched decides the strict scan: a rejection, or its match |
| Search.FirstLenientDecides | cle-extension/server/src/hover.ts:23-45 | the lenient scan finds nothing exactly when every file is unreadable or unmatched; otherwise it answers with the first match among the readable files |
| Search.LenientNone | cle-extension/server/src/hover.ts:23-45 | the lenient scan finds nothing exactly when every file is unreadable or unmatched |
| Search.LenientAt | cle-extension/server/src/hover.ts:23-45 | the first readable file that matches answers the lenient scan |
| Search.StrictImpliesLenient | cle-extension/server/src/hover.ts:24-30 | where the strict scan does not reject, both scans give the same answer |
| Labels.GetCLEDefinition | cle-extension/server/src/util.ts:20-55 | the method, with its loops, computes the specified definition lookup |
| Labels.ReadRefName | cle-extension/server/src/util.ts:24-27 | the method reads the label that `RefName` specifies; what that label is, is stated by `Labels.RefNameCases` |
| Labels.RefNameCases | cle-extension/server/src/util.ts:24-27 | no label exactly when no part of the requested line (the text "undefined" past the last line) is a string of `labelRegex`; a label read is a non-empty run of word characters that ends such a part of the line, right after white space |
| Labels.RefNameOneSpace | cle-extension/server/src/util.ts:10 | a line `#pragma cle X` with a single space before the label yields no label |
| Labels.SearchDefinition | cle-extension/server/src/util.ts:28-52 | the scan for a definition of any label answers as the specified search: a rejection, null, or the first definition found |
| Labels.DefinitionAt | cle-extension/server/src/util.ts:33-50 | the answer built from a found definition is the specified one: the newline loop's line and column, the match text, the file and the queried label |
| Labels.DefInfoShape | cle-extension/server/src/util.ts:43-50 | the range lies on the counted line and is as wide as the match; the text is the match; the label is the queried one |
| Labels.DefColumn | cle-extension/server/src/util.ts:43 | without "\r", the start column is one less than the match's column on the first line and equal to it on later lines |
| Labels.CLEDefinitionCases | cle-extension/server/src/util.ts:25-54 | a failed walk or document read rejects; null exactly when the line is not a reference or no file holds any definition; otherwise the first file with a definition of any label answers |
| Labels.FirstReadable | cle-extension/server/src/util.ts:59-66 | the file the loop settles on can be read |
| Labels.GetCLELabels | cle-extension/server/src/util.ts:57-86 | the method computes the specified occurrence lookup |
| Labels.FirstReadableIsFirst | cle-extension/server/src/util.ts:59-67 | no readable file exactly when every file is unreadable; otherwise the chosen file is readable and every file before it is not |
| Labels.LineOccurrenceExactly | cle-extension/server/src/util.ts:70-72 | a line yields an occurrence exactly when it holds a reference whose label is the query |
| Labels.OccurrencesExactly | cle-extension/server/src/util.ts:69-83 | the occurrences are exactly the references to the queried label, one per matching line |
| Labels.OccurrencesByLine | cle-extension/server/src/util.ts:70-83 | the occurrences from a line on are exactly those of the single lines from there on |
| Labels.LineOccurrenceAt | cle-extension/server/src/util.ts:71-76 | a line yields at most one occurrence, located on that line |
| Labels.OccurrencesOrdered | cle-extension/server/src/util.ts:70-73 | occurrences come in strictly increasing line order |
| Labels.OccurrenceShape | cle-extension/server/src/util.ts:73-83 | when every reference lies in its line, an occurrence spans its line from the match index to the line's end; its text is the whole line, which contains its label |
| Labels.LineOccurrenceShape | cle-extension/server/src/util.ts:73-82 | the same for the occurrence of one line |
| Labels.LineRefsFound | cle-extension/server/src/util.ts:69-72 | a reference that `exec` finds on a line lies in that line, and its label occurs there |
| Labels.FileOccurrenceShape | cle-extension/server/src/util.ts:67-83 | every occurrence in a file spans its whole line from the match index, carries the queried label, and that label occurs in its text |
| Labels.CLELabelsCases | cle-extension/server/src/util.ts:58-85 | the lookup rejects exactly when the walk does; null exactly when no file is readable; otherwise the occurrences of the first readable file |
| Definition.MakeDefinition | cle-extension/server/src/definition.ts:10-45 | the handler computes the specified go-to-definition answer |
| Definition.ReadLineLabel | cle-extension/server/src/definition.ts:16-19 | the method reads the label that `LineLabel` specifies; what that label is, is stated by `Definition.LineLabelCases` |
| Definition.LineLabelCases | cle-extension/server/src/definition.ts:16-19 | no label exactly when no part of the requested line is a string of the reference pattern; a label read is a non-empty run of word characters that ends such a part of the line, right after a space |
| Definition.LineLabelOfDef | cle-extension/server/src/hover.ts:20-22 | a definition line `#pragma cle def X...` read as a reference (by both the definition and the hover lookups) yields the label "def", whatever label it defines |
| Definition.LookupDefinition | cle-extension/server/src/definition.ts:20-42 | the scan for the label's definition answers as specified: a rejection, null, or the location of the first definition |
| Definition.LocationAt | cle-extension/server/src/definition.ts:25-40 | the location built from a found definition is the specified one: the file, the counted line and the column after `lastNewline` |
| Definition.DefinitionInCases | cle-extension/server/src/definition.ts:20-42 | the lookup of one label finds nothing exactly when every file is readable without its definition; the first file that defines it answers with a match beginning "#pragma cle def " and the label; an unreadable file before that rejects |
| Definition.DefinitionCases | cle-extension/server/src/definition.ts:17-44 | rejects on a failed walk or document read; null exactly when the line names no label or every file is readable without its definition; otherwise the first definition of that label, in walk order, or a rejection at an unreadable file before it |
| Definition.LocationShape | cle-extension/server/src/definition.ts:35-40 | the location is in the defining file, on the counted line, as wide as the match |
| Definition.ColumnsDifferByOne | cle-extension/server/src/definition.ts:35 | for the same match this range starts one column right of the `getCLEDefinition` range |
| Definition.DefinitionColumn | cle-extension/server/src/definition.ts:25-35 | without "\r", the start column equals the match's column on the first line and is one more on later lines |
| Hover.MakeHover | cle-extension/server/src/hover.ts:7-48 | the handler computes the specified hover answer |
| Hover.LookupHover | cle-extension/server/src/hover.ts:23-45 | the scan answers as specified: the code block of the first definition among the readable files, or null |
| Hover.CodeBlockRoundTrip | cle-extension/server/src/hover.ts:34-43 | the markdown is a "```c" fence, a newline, the definition text unchanged, a newline and the closing fence |
| Hover.UnreadableDocument | cle-extension/server/src/hover.ts:12-17 | an unreadable document gives null, unless the walk has already rejected |
| Hover.HoverCases | cle-extension/server/src/hover.ts:20-47 | null exactly when the line names no label or no readable file defines it; otherwise the first definition among the readable files |
| Hover.HoverAgreesWithDefinition | cle-extension/server/src/hover.ts:20-33 | where go-to-definition answers, hover answers null exactly when go-to-definition does, and where it finds a definition at a match, hover shows that match's text |
| Rename.LabelRange | cle-extension/server/src/rename.ts:20-28 | the range covers the label's first occurrence in the text, shifted by the start column; it is absent exactly when the label does not occur there |
| Rename.PutSpec | cle-extension/server/src/rename.ts:32-41 | `Map.set` keeps insertion order and distinct keys, replaces the key's list and leaves the other keys' lists unchanged |
| Rename.GroupAllSpec | cle-extension/server/src/rename.ts:37-41 | grouping adds each new file once, in first-seen order; it prepends each file's edits in reverse; no list is empty; the edit count grows by the number of edits |
| Rename.AddKeysSpec | cle-extension/server/src/rename.ts:37-41 | the key list extends the old one, stays distinct and holds exactly the old keys and the edited files |
| Rename.AddOccurrences | cle-extension/server/src/rename.ts:37-41 | the loop over the occurrences succeeds exactly when every occurrence yields an edit, and then its result is the grouping of those edits |
| Rename.OccurrenceEdits | cle-extension/server/src/rename.ts:40 | one edit per occurrence when every label range exists |
| Rename.OccurrenceEditsText | cle-extension/server/src/rename.ts:38-40 | each edit belongs to its occurrence's file and writes the new name |
| Rename.OccurrenceEditsFound | cle-extension/server/src/rename.ts:21 | the occurrences of one file always contain their label, so no `!` assertion fails on them |
| Rename.AllFound | cle-extension/server/src/rename.ts:21 | occurrences that all contain their labels yield edits |
| Rename.GroupingSpec | cle-extension/server/src/rename.ts:32-46 | the definition's file comes first and no file appears twice; each list holds its occurrence edits newest first, then the definition's edit in its own file; one edit more than the occurrences |
| Rename.GroupingText | cle-extension/server/src/rename.ts:33-41 | every edit in the workspace edit writes the new name |
| Rename.MakeRename | cle-extension/server/src/rename.ts:7-50 | the handler computes the specified rename |
| Rename.RenameAnswer | cle-extension/server/src/rename.ts:7-49 | an answered rename lists the definition's file first, no file twice and no file without edits; it holds one edit more than the label has occurrences, and every edit writes the new name |
| Rename.RenameCases | cle-extension/server/src/rename.ts:9-21 | null exactly when there is no definition or no readable file; given both, it rejects exactly when the label does not occur in the definition text found |
| Rename.OccurrenceEditShifted | cle-extension/server/src/rename.ts:20-28 | an occurrence's edit starts at the match index plus the label's index in the whole line, so an indented line's edit lands to the right of the label |
| Analyzer.ConflictNameRoundTrip | cle-extension/types/vscle/analyzer.d.ts:27-33 | conflict names and identifiers correspond one to one |
| Analyzer.TagsDistinct | cle-extension/types/vscle/analyzer.d.ts:90-93 | two results share a tag exactly when they are the same variant; tags are "Conflict", "Error" and "Success" |
| Parser.NameOf | cle-extension/server/src/parser.ts:56-68 | the name found is an identifier of the declarator, and its own identifier when it has one |
| Parser.FunctionName | cle-extension/server/src/parser.ts:54-70 | a function's name is an identifier of its declarator |
| Parser.NameThroughWrappers | cle-extension/server/src/parser.ts:62-66 | suffixes and parentheses around a named declarator do not change its name |
| Parser.ChildTakesPrecedence | cle-extension/server/src/parser.ts:62-63 | without an identifier, a nested direct declarator is followed before a parenthesised declarator |
| Parser.Preorder | cle-extension/server/src/parser.ts:34 | the walk enters the root first |
| Parser.FunctionListener.Walk | cle-extension/server/src/parser.ts:28-34 | the walk appends the tree's function definitions in the order it enters them |
| Parser.DeclarationListener.Walk | cle-extension/server/src/parser.ts:43-49 | the walk appends the tree's declarations in the order it enters them |
| Parser.FunctionDefinitions | cle-extension/server/src/parser.ts:25-37 | the result is the function definitions of the tree in preorder |
| Parser.Declarations | cle-extension/server/src/parser.ts:39-52 | the result is the declarations of the tree in preorder |
| Parser.DefsInExactly | cle-extension/server/src/parser.ts:29-30 | a definition is listed exactly when an entered node is that definition |
| Parser.EnclosingFirst | cle-extension/server/src/parser.ts:25-37 | a definition node comes before every definition nested inside it |
| Parser.SiblingsInOrder | cle-extension/server/src/parser.ts:34 | a subtree's definitions follow those of the subtrees to its left |
| Projection.DirName | cle-extension/server/src/util.ts:114 | the directory is empty exactly when the path has no '/' |
| Projection.LevelSetExactly | cle-extension/server/src/util.ts:121-125 | the level set has no repeats and holds exactly the levels of the assignments |
| Projection.LevelSetOrder | cle-extension/server/src/util.ts:121-125 | levels appear in order of first encounter |
| Projection.CollectLevels | cle-extension/server/src/util.ts:123-125 | the loop builds the level set |
| Projection.AssignColors | cle-extension/server/src/util.ts:126-130 | the colour map has exactly the levels as keys; each maps to HSL(index·360/size, 50, 65) |
| Projection.HueRange | cle-extension/server/src/util.ts:128-129 | hues lie in [0, 360) and distinct indices give distinct hues |
| Projection.ColorsSeparateLevels | cle-extension/server/src/util.ts:126-130 | distinct levels get distinct colours |
| Projection.MatchDef | cle-extension/server/src/util.ts:138 | the match is the first definition whose name equals the trimmed assignment name, and none means no definition has that name |
| Projection.PairsAppend | cle-extension/server/src/util.ts:136-139 | matching keeps the order of the assignments |
| Projection.PairsOfOne | cle-extension/server/src/util.ts:137-139 | an assignment contributes its first matching definition, or nothing |
| Projection.PairLevels | cle-extension/server/src/util.ts:147 | every matched pair's level is in the level set, so its colour lookup succeeds |
| Projection.PairsHaveLevels | cle-extension/server/src/util.ts:147 | every matched pair carries the level of one of the assignments |
| Projection.SendHighlights | cle-extension/server/src/util.ts:140-148 | one highlight per matched pair is sent, in order |
| Projection.SendTopology | cle-extension/server/src/util.ts:111-150 | the notifications sent are exactly those specified for the document |
| Projection.SendMatched | cle-extension/server/src/util.ts:117-148 | for a document in a source directory, an "unhighlight" is sent and then the highlights of the matched pairs |
| Projection.TopologyNotesCases | cle-extension/server/src/util.ts:112-148 | nothing is sent unless the document's directory is a source directory; then one "unhighlight", followed by one highlight per matched assignment, in order, spanning from one editor line above the definition's first line (token line minus two) to the token line and column of its stop token (of its start token when it has none) taken unchanged as the editor position, in its level's colour |
| Projection.MatchedNotesCases | cle-extension/server/src/util.ts:135-148 | one "unhighlight", then one highlight per matched assignment, in order, from one editor line above its definition's first line (token line minus two) to the token line and column of its stop token (of its start token when it has none) taken unchanged as the editor position, with alpha "30", in its level's colour |
| Lens.MakeLens | cle-extension/server/src/lens.ts:9-37 | no topology gives no lenses; otherwise one lens per matched function assignment |
| Lens.LensesPerAssignment | cle-extension/server/src/lens.ts:20-35 | one more assignment adds one lens at the end, on its first matching definition's own first line (token line minus one) and titled with its level, or none when no definition has its name |
| Lens.LensesFollowHighlights | cle-extension/server/src/lens.ts:24-34 | the k-th lens is one line below the start of the k-th highlight, is titled with the level whose colour that highlight carries, and has an empty command |
| Lens.ParseDecimal | cle-extension/server/src/lens.ts:44 | a decimal line number is read back as itself |
| Lens.ParseHex | cle-extension/server/src/lens.ts:44 | after a "0x" prefix, `parseInt` reads the digits in base 16 |
| Lens.MakeLensAll | cle-extension/server/src/lens.ts:40-53 | one lens per function and global variable, each titled with its level and bound to "vscle.null" |
| Lens.LensAllOrder | cle-extension/server/src/lens.ts:43-51 | the k-th lens is that of the k-th function, and the global variables' lenses follow the functions', in order |
| Lens.NullLensLine | cle-extension/server/src/lens.ts:44-46 | an assignment whose line is written in decimal gets its lens on that line |
| Action.ValidIsLexOrder | cle-extension/server/src/action.ts:10-13 | a selection is valid exactly when its end follows its start in (line, column) order |
| Action.CountDefsOnLine | cle-extension/server/src/action.ts:14-17 | the count is at most the number of definitions, and positive exactly when some definition begins on the selection's first line (token line minus one, since token lines count from 1 and editor lines from 0) |
| Action.MakeAction | cle-extension/server/src/action.ts:5-38 | the action is offered exactly when the selection is valid and starts on the first line of a function definition; it is the single snippet action |
| Action.SnippetShape | cle-extension/server/src/action.ts:25-31 | the snippet splits back into its four lines: a begin pragma, the selected text, an end pragma and an empty line |
| Action.SnippetEndsInBreak | cle-extension/server/src/action.ts:26-31 | the snippet ends in a line break, because its last line is empty |
| Analyze.FirstFailing | cle-extension/server/src/analyze.ts:15-24 | the first file whose prebuild fails, with every earlier file succeeding; none when all succeed |
| Analyze.Session.Prebuild | cle-extension/server/src/analyze.ts:14-25 | it runs the prebuild for each file in order, stopping after the first failure, and reports whether one failed |
| Analyze.Session.Analyze | cle-extension/server/src/analyze.ts:9-81 | the effects and the outcome of a run are those of the specified session |
| Analyze.Session.Connect | cle-extension/server/src/analyze.ts:27-40 | the steps after the prebuild record the specified effects and give the specified outcome |
| Analyze.Dispatch | cle-extension/server/src/analyze.ts:43-79 | malformed JSON throws; JSON that is no analyzer result ends in a TypeError; an Error result throws; conflicts give their diagnostics; success gives its topology |
| Analyze.PrebuildOrder | cle-extension/server/src/analyze.ts:14-25 | the prebuild runs only when set and non-empty: once per file, in order, with the file and working directory, stopping at the first failure |
| Analyze.StepOrder | cle-extension/server/src/analyze.ts:28-40 | after the prebuild the effects are a prefix of bind, spawn, receive, close, await exit; the socket is closed exactly when a message arrived |
| Analyze.PrebuildOnly | cle-extension/server/src/analyze.ts:14-25 | the prebuild records only prebuild invocations |
| Analyze.ConnectionSteps | cle-extension/server/src/analyze.ts:28-40 | after the prebuild the effects are a prefix of bind, spawn, receive, close, await exit, and none without a URL; receive and close happen exactly when the URL parses, the bind succeeds and a reply arrives |
| Analyze.SpawnRecorded | cle-extension/server/src/analyze.ts:28-33 | once the prebuild passed, the URL parsed and the socket is bound, the analyzer is spawned with the first file |
| Analyze.OutcomeCases | cle-extension/server/src/analyze.ts:36-79 | a reply is interpreted only after every step has been taken and the analyzer has exited normally; the run stalls exactly when the analyzer was spawned and no reply arrives; it throws the prebuild failure exactly when a prebuild fails |
| Analyze.CommandFirstFileOnly | cle-extension/server/src/analyze.ts:33 | the command runs the interpreter (python3 by default) on the analyzer script and passes only the first file |
| Analyze.ExpandAppend | cle-extension/server/src/analyze.ts:53-56 | the diagnostics of several conflicts are the concatenation of each conflict's |
| Analyze.ExpandAt | cle-extension/server/src/analyze.ts:53-73 | one diagnostic per (conflict, source) pair, in conflict-major order |
| Analyze.ExpandLength | cle-extension/server/src/analyze.ts:53-56 | the number of diagnostics is the total number of sources |
| Analyze.NoSourcesNoDiagnostics | cle-extension/server/src/analyze.ts:52-73 | conflicts without sources give no diagnostics, although the type promises a non-empty list |
| Analyze.ExpandMessages | cle-extension/server/src/analyze.ts:57-72 | every diagnostic is that of some conflict and one of its sources: it carries that conflict's description, and a file exactly when the source is not null |
| Server.Paths | cle-extension/server/src/server.ts:100-108 | the analyzer is handed the walk's file paths in order |
| Server.LanguageServer.constructor | cle-extension/server/src/server.ts:82-83 | the server starts with no topology and no current document |
| Server.LanguageServer.OnDidOpen | cle-extension/server/src/server.ts:84-95 | the opened document becomes current; a missing topology is replaced by the persisted one, which is then projected onto the document |
| Server.LanguageServer.PublishAll | cle-extension/server/src/server.ts:110-116 | one diagnostics notification per diagnostic, in order, each under its source's URI or "" |
| Server.LanguageServer.ReportFailure | cle-extension/server/src/server.ts:123-126 | a failure is shown to the user and logged |
| Server.LanguageServer.OnExecuteCommand | cle-extension/server/src/server.ts:96-128 | the current document is unchanged, and the topology, notifications and session effects are those specified for the command |
| Server.StartAnalysisCases | cle-extension/server/src/server.ts:99-126 | a failed walk or an empty file set is reported and nothing runs; otherwise the session runs on the walk's files; diagnostics are published one per notification and the topology kept; a new topology replaces the cached one and is projected onto the open document, and nothing is sent without one; a failure is reported and changes nothing else; a run that stalls sends nothing and changes nothing |
| Server.TopologyKept | cle-extension/server/src/server.ts:96-128 | once a topology is cached, executing a command never clears it |
| Server.AnalyzedFiles | cle-extension/server/src/server.ts:100-108 | the analyzer's command line carries the first file of the walk |
| Server.StartTrace | cle-extension/server/src/server.ts:100-108 | after a walk that found files, the effects of starting the analysis are those of the session run on their paths |

## Left out

- The stream-based prototype of the server (stream.ts and the
  `settingsGen`/`analyzerGen`/`sendConflictsGen` generators of server.ts)
  is not part of this model. It is not wired into the live handlers.
- The `onInitialize` capabilities, configuration registration and
  `getSettings` are left out: the settings are a parameter of each handler.
- `readTopologyJSON`, `parseCFile` (the ANTLR lexer and parser) and
  `JSON.parse` are left out. Their results are inputs: the persisted
  topology, the parse tree and the analyzer's `Payload`.
- The sockets, child processes and `new URL` are described by `World`. The
  server's effects on them are recorded as a trace of events.
- Concurrency is left out. `Promise.all` over the source directories is
  modelled in order. The unawaited `sendTopology` calls are modelled as
  sending at once. The interleaving with other handlers is not modelled.
- If the analyzer exits with an error before replying, the rejected exit
  promise goes unhandled while the receive waits. That run is modelled as
  `Stalled`.
- Console and debug logging is left out, except for the command handler's
  `connection.console.error(e.message)` (server.ts:125), which
  `Server.Report` sends as `LogError`. Not modelled are
  `connection.console.log` at hover.ts:15, hover.ts:28 and util.ts:64, the
  `connection.console.error` at util.ts:158 inside `readTopologyJSON`, and
  `console.log` at lens.ts:27 and rename.ts:14-15. None of them affects an
  answer.
- `path.resolve`, `URI.parse(...).fsPath` and `URI.file(...).toString()`
  are modelled as the identity on already normalised paths.
  `path.parse(p).dir` is modelled for paths that do not end in '/'.
- Definition.LocationOf: the location's uri is the file's path. The code
  turns the path into a `file://` URI string (definition.ts:37); that
  conversion is not modelled.
- SourceSet.JoinPath: joins a directory and a name as `dir + "/" + name`.
  `path.join` also normalises the result ("." and ".." segments, repeated
  separators); that is not modelled.
- Projection.SendTopology, Projection.TopologyNotesCases, Lens.MakeLens and
  Action.MakeAction: the parse tree is a parameter that is always present.
  When the document cannot be read, `parseCFile` rejects (parser.ts:13).
  `sendTopology` then sends nothing, not even the "unhighlight"; its
  promise is not awaited (server.ts:91 and :120), so the rejection goes
  unhandled. `makeLens` and `makeAction` reject their requests. None of
  this is modelled.
- Parser.FunctionName: a function definition's declarator is taken to have
  a name (`NamedDeclarator`). On a tree rebuilt by the parser's error
  recovery, `dec!.directDeclarator()` can throw (parser.ts:66); that throw
  is not modelled.
- Strings are sequences of Dafny characters. UTF-16 code units, surrogate
  pairs and the `Buffer` decoding of file contents are left out.
- The capture groups of the regular expressions are left out. The label
  group is derived from the matched text (`Regex.WordSuffix`). That is
  exact because each pattern puts white space before its final `(\w+)`:
  `Pragmas.LabelReGroup` and `Pragmas.RefReGroup` show it for every string
  of the patterns, and `Pragmas.GroupIsWordSuffix` recovers the group.
- `Regex.Exec` models the non-global patterns and the `g` patterns on
  fresh objects. Their `lastIndex` is always 0 there.
- Rename: the final loop (rename.ts:43-46) copies the map into a plain
  object with the same entries. The association list stands for both.
- Projection.AssignColors: hues are the exact reals k·360/n. JavaScript's
  floating-point accumulation `i += 360 / size` and the
  `Color(...).hex()` conversion of the highlight colour are not modelled.
  The `?? '#0000'` at util.ts:147 guards a template literal, which is
  always a string, so the fallback is dead for every input. A level missing
  from `levelMap` would send the colour "undefined30"; `PairLevels` and
  `LevelSetExactly` show that every matched pair's level is in the map.
- Lens.ParseInt: JavaScript numbers lose precision beyond 2^53. The model
  reads digits exactly. Radix prefixes other than "0x"/"0X" (none exist)
  and fractional parts are irrelevant to `parseInt`.
- Analyze.Dispatch: a reply tagged as an analyzer result is assumed to
  conform to the declared types of analyzer.d.ts. A tagged reply whose
  fields do not conform is not represented by `Payload`. Examples are
  `{"result":"Conflict"}` without conflicts, whose `.flatMap` throws a
  TypeError (analyze.ts:55), and `{"result":"Success"}` without a
  topology, whose `right(res.topology)` (analyze.ts:76) stores `undefined`
  as the topology (server.ts:118).
- Analyzer: `Source` entries are typed non-null in the declarations but
  are modelled as optional, because analyze.ts handles a null source.
  Remedies and the analyzer's error records are carried but not
  interpreted.
- The client extension, the Python conflict analyzer, the earlier
  top-level server prototype and the test scripts are not part of this
  model.
