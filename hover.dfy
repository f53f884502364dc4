/** `makeHover`: show the definition of the label on a pragma line as a C
    code block. */
module Hover {
  import opened Base
  import opened Regex
  import opened Lines
  import opened SourceSet
  import opened Pragmas
  import opened Search
  import opened Definition

  /** Markdown hover contents. */
  datatype MarkupContent = MarkupContent(kind: string, value: string)

  /** The definition text fenced as a C code block. */
  function CodeBlock(text: string): MarkupContent {
    MarkupContent("markdown", Join(["```c", text, "```"], "\n"))
  }

  /** `makeHover` for line `line` of a document whose read gives `doc`. */
  function HoverOf(fs: Fs, dirs: seq<string>, doc: Option<string>, line: nat): Result<Option<MarkupContent>> {
    match Walk(fs, dirs)
    case Err(e) => Err(e)
    case Ok(files) =>
      if doc.None? then Ok(None)
      else
        match LineLabel(doc.value, line)
        case None => Ok(None)
        case Some(name) => Ok(HoverIn(files, name))
  }

  /** The hover for the first definition of `name` among the readable files. */
  function HoverIn(files: seq<SourceFile>, name: string): Option<MarkupContent> {
    match FirstLenient(files, DefRe(name))
    case None => None
    case Some(h) => Some(CodeBlock(h.m.text))
  }

  method MakeHover(fs: Fs, dirs: seq<string>, doc: Option<string>, line: nat)
    returns (r: Result<Option<MarkupContent>>)
    ensures r == HoverOf(fs, dirs, doc, line)
  {
    var walk := Walk(fs, dirs);
    if walk.Err? {
      return Err(walk.error);
    }
    if doc.None? {
      return Ok(None);
    }
    var name := ReadLineLabel(doc.value, line);
    if name.None? {
      return Ok(None);
    }
    var h := LookupHover(walk.value, name.value);
    return Ok(h);
  }

  /** The lenient scan for the definition of `name`, then the code block. */
  method LookupHover(files: seq<SourceFile>, name: string) returns (h: Option<MarkupContent>)
    ensures h == HoverIn(files, name)
  {
    var hit := ScanLenient(files, DefRe(name));
    if hit.None? {
      return None;
    }
    return Some(MarkupContent("markdown", Join(["```c", hit.value.m.text, "```"], "\n")));
  }

  /** The text between the fences. */
  function Unfenced(v: string): string {
    if |v| >= 9 then v[5..|v| - 4] else ""
  }

  /** The block consists of the opening fence "```c", a line break, the
      definition text unchanged, a line break and the closing fence. */
  lemma CodeBlockRoundTrip(text: string)
    ensures var v := CodeBlock(text).value;
      "```c\n" <= v && v[|v| - 4..] == "\n```" && Unfenced(v) == text
  {
    var parts := ["```c", text, "```"];
    assert parts[1..] == [text, "```"] && parts[1..][1..] == ["```"];
    assert Join(parts[1..][1..], "\n") == "```";
    assert Join(parts[1..], "\n") == text + "\n" + "```";
    assert Join(parts, "\n") == "```c" + "\n" + Join(parts[1..], "\n");
    var v := CodeBlock(text).value;
    assert v == "```c\n" + text + "\n```";
  }

  /** An unreadable document gives no hover, unless the walk rejects first. */
  lemma UnreadableDocument(fs: Fs, dirs: seq<string>, line: nat)
    ensures HoverOf(fs, dirs, None, line) == (if Walk(fs, dirs).Ok? then Ok(None) else Err(FsError))
  {
  }

  /** The hover answers null exactly when the line names no label or no
      readable file defines it; otherwise it shows the first definition, in
      walk order, among the readable files. */
  lemma HoverCases(fs: Fs, dirs: seq<string>, doc: string, line: nat)
    requires Walk(fs, dirs).Ok?
    ensures var files := Walk(fs, dirs).value;
      var name := LineLabel(doc, line);
      (HoverOf(fs, dirs, Some(doc), line) == Ok(None) <==>
         name.None? || Skips(files, DefRe(name.value), |files|)) &&
      (name.Some? ==> forall k :: (0 <= k < |files| && Skips(files, DefRe(name.value), k) &&
                                   files[k].contents.Some? && HitIn(files[k], DefRe(name.value)).Some?) ==>
         HoverOf(fs, dirs, Some(doc), line) == Ok(Some(CodeBlock(HitIn(files[k], DefRe(name.value)).value.m.text))))
  {
    var name := LineLabel(doc, line);
    if name.Some? {
      FirstLenientDecides(Walk(fs, dirs).value, DefRe(name.value));
    }
  }

  /** Where go-to-definition answers, hover agrees with it: both are null
      together, and where go-to-definition finds a definition, hover shows
      the matched text of that same definition. */
  lemma HoverAgreesWithDefinition(fs: Fs, dirs: seq<string>, doc: string, line: nat)
    requires DefinitionOf(fs, dirs, Some(doc), line).Ok?
    ensures DefinitionOf(fs, dirs, Some(doc), line).value.None? <==>
            HoverOf(fs, dirs, Some(doc), line) == Ok(None)
    ensures DefinitionOf(fs, dirs, Some(doc), line).value.Some? ==>
            exists h :: Placed(h) && DefinitionOf(fs, dirs, Some(doc), line).value.value == LocationOf(h) &&
                        HoverOf(fs, dirs, Some(doc), line) == Ok(Some(CodeBlock(h.m.text)))
  {
    var name := LineLabel(doc, line);
    if name.Some? {
      var files := Walk(fs, dirs).value;
      StrictImpliesLenient(files, DefRe(name.value));
      var r := FirstStrict(files, DefRe(name.value));
      if r.value.Some? {
        var h := r.value.value;
        assert DefinitionOf(fs, dirs, Some(doc), line).value.value == LocationOf(h);
        assert HoverOf(fs, dirs, Some(doc), line) == Ok(Some(CodeBlock(h.m.text)));
      }
    }
  }
}
