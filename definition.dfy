/** `makeDefinition`: go to the definition of the label on a pragma line. */
module Definition {
  import opened Base
  import opened Regex
  import opened Lines
  import opened SourceSet
  import opened Pragmas
  import opened Search
  import opened Lsp
  import Labels

  /** The location of a hit: the counted line, starting at
      `index - lastNewline`, as wide as the whole match. */
  function LocationOf(h: Hit): Location
    requires Placed(h)
  {
    var hs := Hits(h.src, h.m.index);
    var col := h.m.index - LastOr0(hs);
    Location(h.path, Range(Position(|hs|, col), Position(|hs|, col + |h.m.text|)))
  }

  /** The label a line refers to in the definition and hover lookups. */
  function LineLabel(doc: string, line: nat): Option<string> {
    match Exec(RefRe, LineAt(SplitLines(doc), line))
    case None => None
    case Some(r) => Some(RefLabel(r))
  }

  /** `LineLabel` reads no label exactly when no part of the line is a
      string of `refRegex`; a label it reads is the last group `(\w+)`: a
      non-empty run of word characters that ends such a part of the line,
      right after a space. */
  lemma LineLabelCases(doc: string, line: nat, l: string)
    requires l == LineAt(SplitLines(doc), line)
    ensures LineLabel(doc, line).None? <==> forall p, e :: 0 <= p <= e <= |l| ==> !InLang(RefRe, l[p..e])
    ensures var x := LineLabel(doc, line);
      x.Some? ==>
        |x.value| > 0 && (forall c :: 0 <= c < |x.value| ==> IsWordChar(x.value[c])) &&
        exists p, e :: 0 <= p < e - |x.value| && e <= |l| && InLang(RefRe, l[p..e]) &&
          l[e - |x.value|..e] == x.value && l[e - |x.value| - 1] == ' '
  {
    ExecNone(RefRe, l);
    if Exec(RefRe, l).Some? {
      var m := Exec(RefRe, l).value;
      RefReGroup(m.text);
      var p, e := GroupPlace(l, m);
    }
  }

  /** A definition line `#pragma cle def X ...` read as a reference yields
      the label "def", whatever label it defines. */
  lemma LineLabelOfDef(doc: string, line: nat, x: string)
    requires LineAt(SplitLines(doc), line) == "#pragma cle def " + x
    ensures LineLabel(doc, line) == Some("def")
  {
    DefLineRef(x);
  }

  /** `makeDefinition` for line `line` of a document whose read gives `doc`. */
  function DefinitionOf(fs: Fs, dirs: seq<string>, doc: Option<string>, line: nat): Result<Option<Location>> {
    match Walk(fs, dirs)
    case Err(e) => Err(e)
    case Ok(files) =>
      if doc.None? then Err(FsError)
      else
        match LineLabel(doc.value, line)
        case None => Ok(None)
        case Some(name) => DefinitionIn(files, name)
  }

  /** The lookup of the definition of `name` among `files`. */
  function DefinitionIn(files: seq<SourceFile>, name: string): Result<Option<Location>> {
    match FirstStrict(files, DefRe(name))
    case Err(e) => Err(e)
    case Ok(None) => Ok(None)
    case Ok(Some(h)) => Ok(Some(LocationOf(h)))
  }

  method MakeDefinition(fs: Fs, dirs: seq<string>, doc: Option<string>, line: nat)
    returns (r: Result<Option<Location>>)
    ensures r == DefinitionOf(fs, dirs, doc, line)
  {
    var walk := Walk(fs, dirs);
    if walk.Err? {
      return Err(walk.error);
    }
    if doc.None? {
      return Err(FsError);
    }
    var name := ReadLineLabel(doc.value, line);
    if name.None? {
      return Ok(None);
    }
    r := LookupDefinition(walk.value, name.value);
  }

  /** `refRegex.exec(lines[line])` and, on a match, its last group. */
  method ReadLineLabel(doc: string, line: nat) returns (name: Option<string>)
    ensures name == LineLabel(doc, line)
  {
    var lines := SplitLines(doc);
    var ref := Exec(RefRe, LineAt(lines, line));
    if ref.None? {
      return None;
    }
    return Some(RefLabel(ref.value));
  }

  /** The scan for the definition of `name`, then its location. */
  method LookupDefinition(files: seq<SourceFile>, name: string) returns (r: Result<Option<Location>>)
    ensures r == DefinitionIn(files, name)
  {
    var hit := ScanStrict(files, DefRe(name));
    if hit.Err? {
      return Err(hit.error);
    }
    if hit.value.None? {
      return Ok(None);
    }
    var loc := LocationAt(hit.value.value);
    return Ok(Some(loc));
  }

  /** The location built from a hit: the newline loop, then the range. */
  method LocationAt(h: Hit) returns (loc: Location)
    requires Placed(h)
    ensures loc == LocationOf(h)
  {
    var index := h.m.index;
    var count, lastNewline := CountNewlines(h.src, index);
    var charStart: int := (index as int) - (lastNewline as int);
    loc := Location(h.path, Range(Position(count, charStart), Position(count, charStart + |h.m.text|)));
  }

  /** The lookup answers null exactly when the walk and the document read
      succeed and either the line names no label or every file is readable
      and none defines it; a found definition is the first in walk order,
      and it defines exactly the label of the line. */
  lemma DefinitionCases(fs: Fs, dirs: seq<string>, doc: Option<string>, line: nat)
    ensures Walk(fs, dirs).Err? || doc.None? ==> DefinitionOf(fs, dirs, doc, line).Err?
    ensures Walk(fs, dirs).Ok? && doc.Some? ==>
      var files := Walk(fs, dirs).value;
      var name := LineLabel(doc.value, line);
      (DefinitionOf(fs, dirs, doc, line) == Ok(None) <==>
         name.None? || Misses(files, DefRe(name.value), |files|)) &&
      (name.Some? ==> forall k :: (0 <= k < |files| && Misses(files, DefRe(name.value), k) &&
                                   files[k].contents.Some? && HitIn(files[k], DefRe(name.value)).Some?) ==>
         DefinitionOf(fs, dirs, doc, line) == Ok(Some(LocationOf(HitIn(files[k], DefRe(name.value)).value))) &&
         "#pragma cle def " + name.value <= HitIn(files[k], DefRe(name.value)).value.m.text) &&
      (name.Some? ==> forall k :: 0 <= k < |files| && Misses(files, DefRe(name.value), k) && files[k].contents.None? ==>
         DefinitionOf(fs, dirs, doc, line).Err?)
  {
    if Walk(fs, dirs).Ok? && doc.Some? {
      var name := LineLabel(doc.value, line);
      if name.Some? {
        DefinitionInCases(Walk(fs, dirs).value, name.value);
      }
    }
  }

  /** The same for the lookup of a given label. */
  lemma DefinitionInCases(files: seq<SourceFile>, name: string)
    ensures DefinitionIn(files, name) == Ok(None) <==> Misses(files, DefRe(name), |files|)
    ensures forall k :: (0 <= k < |files| && Misses(files, DefRe(name), k) &&
                         files[k].contents.Some? && HitIn(files[k], DefRe(name)).Some?) ==>
      DefinitionIn(files, name) == Ok(Some(LocationOf(HitIn(files[k], DefRe(name)).value))) &&
      "#pragma cle def " + name <= HitIn(files[k], DefRe(name)).value.m.text
    ensures forall k :: 0 <= k < |files| && Misses(files, DefRe(name), k) && files[k].contents.None? ==>
      DefinitionIn(files, name).Err?
  {
    FirstStrictDecides(files, DefRe(name));
    forall k | 0 <= k < |files| && files[k].contents.Some? && HitIn(files[k], DefRe(name)).Some?
      ensures "#pragma cle def " + name <= HitIn(files[k], DefRe(name)).value.m.text
    {
      HitSound(files[k], DefRe(name));
      DefReNamesLabel(name, HitIn(files[k], DefRe(name)).value.m.text);
    }
  }

  /** The range is on one line, the counted one, and as wide as the match. */
  lemma LocationShape(h: Hit)
    requires Placed(h)
    ensures var l := LocationOf(h);
      l.uri == h.path &&
      l.range.start.line == l.range.end.line == |Hits(h.src, h.m.index)| &&
      l.range.end.character - l.range.start.character == |h.m.text|
  {
  }

  /** The two column formulas: for the same match, this lookup's range
      starts one column after that of `getCLEDefinition`. */
  lemma ColumnsDifferByOne(h: Hit, name: string)
    requires Placed(h)
    ensures var a := LocationOf(h).range; var b := Labels.DefInfo(h.path, h.src, h.m, name).range;
      a.start.line == b.start.line && a.start.character == b.start.character + 1 &&
      a.end.character == b.end.character + 1
  {
  }

  /** In text without "\r" before the match, the start column is the match's
      own column on the first line and one more than it on every later line. */
  lemma {:induction false} DefinitionColumn(h: Hit)
    requires Placed(h)
    requires forall k :: 0 <= k < h.m.index ==> h.src[k] != '\r'
    ensures var l := LocationOf(h);
      var ls := SplitLines(h.src[..h.m.index]);
      var col := |ls[|ls| - 1]|;
      l.range.start.line == |ls| - 1 &&
      l.range.start.character == (if |ls| == 1 then col else col + 1)
  {
    LfPosition(h.src, h.m.index);
  }
}
