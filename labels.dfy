/** `getCLEDefinition` and `getCLELabels`: the definition a pragma line
    refers to, and the pragma lines of a label, found in the C-like files
    under the source directories. */
module Labels {
  import opened Base
  import opened Regex
  import opened Lines
  import opened SourceSet
  import opened Pragmas
  import opened Search
  import opened Lsp

  /** A pragma found in a file: where, its text, and the label it concerns. */
  datatype CLEInfo = CLEInfo(range: Range, text: string, path: string, labelName: string)

  // ---------------------------------------------------------------------
  // getCLEDefinition

  /** The answer once `AnyDefRe` matched `src` (the file at `path`) with `m`:
      one line at the counted line, starting at `index - lastNewline - 1`,
      as wide as the whole match, labelled with the queried `name`. */
  function DefInfo(path: string, src: string, m: Match, name: string): CLEInfo
    requires m.index <= |src|
  {
    var h := Hits(src, m.index);
    var col := m.index - LastOr0(h) - 1;
    CLEInfo(Range(Position(|h|, col), Position(|h|, col + |m.text|)), m.text, path, name)
  }

  /** The scan for a definition of any label, answered as `DefInfo`. */
  function DefSearch(files: seq<SourceFile>, name: string): Result<Option<CLEInfo>> {
    match FirstStrict(files, AnyDefRe)
    case Err(e) => Err(e)
    case Ok(None) => Ok(None)
    case Ok(Some(h)) => Ok(Some(DefInfo(h.path, h.src, h.m, name)))
  }

  /** `getCLEDefinition(path, line)` where `doc` is what reading `path`
      gives. */
  function CLEDefinition(fs: Fs, dirs: seq<string>, doc: Option<string>, line: nat): Result<Option<CLEInfo>> {
    match Walk(fs, dirs)
    case Err(e) => Err(e)
    case Ok(files) =>
      if doc.None? then Err(FsError)
      else
        match RefName(doc.value, line)
        case None => Ok(None)
        case Some(name) => DefSearch(files, name)
  }

  /** The label of line `line` of `doc`, read with `labelRegex`. */
  function RefName(doc: string, line: nat): Option<string> {
    match Exec(LabelRe, LineAt(SplitLines(doc), line))
    case None => None
    case Some(r) => Some(RefLabel(r))
  }

  /** `RefName` reads no label exactly when no part of the line is a string
      of `labelRegex`; a label it reads is the `(\w+)` group: a non-empty run
      of word characters that ends such a part of the line, right after
      white space. */
  lemma RefNameCases(doc: string, line: nat, l: string)
    requires l == LineAt(SplitLines(doc), line)
    ensures RefName(doc, line).None? <==> forall p, e :: 0 <= p <= e <= |l| ==> !InLang(LabelRe, l[p..e])
    ensures var x := RefName(doc, line);
      x.Some? ==>
        |x.value| > 0 && (forall c :: 0 <= c < |x.value| ==> IsWordChar(x.value[c])) &&
        exists p, e :: 0 <= p < e - |x.value| && e <= |l| && InLang(LabelRe, l[p..e]) &&
          l[e - |x.value|..e] == x.value && IsJsSpace(l[e - |x.value| - 1])
  {
    ExecNone(LabelRe, l);
    if Exec(LabelRe, l).Some? {
      var m := Exec(LabelRe, l).value;
      LabelReGroup(m.text);
      var p, e := GroupPlace(l, m);
    }
  }

  /** A line `#pragma cle X` with a single space before the label yields no
      label: `labelRegex` needs white space after "cle" and again before
      the label. */
  lemma RefNameOneSpace(doc: string, line: nat, x: string)
    requires forall c :: 0 <= c < |x| ==> IsWordChar(x[c])
    requires LineAt(SplitLines(doc), line) == "#pragma cle " + x
    ensures RefName(doc, line).None?
  {
    OneSpaceRefused(x);
  }

  method GetCLEDefinition(fs: Fs, dirs: seq<string>, doc: Option<string>, line: nat)
    returns (r: Result<Option<CLEInfo>>)
    ensures r == CLEDefinition(fs, dirs, doc, line)
  {
    var walk := Walk(fs, dirs);
    if walk.Err? {
      return Err(walk.error);
    }
    if doc.None? {
      return Err(FsError);
    }
    var name := ReadRefName(doc.value, line);
    if name.None? {
      return Ok(None);
    }
    r := SearchDefinition(walk.value, name.value);
  }

  /** `labelRegex.exec(lines[line])` and, on a match, its group. */
  method ReadRefName(doc: string, line: nat) returns (name: Option<string>)
    ensures name == RefName(doc, line)
  {
    var lines := SplitLines(doc);
    var ref := Exec(LabelRe, LineAt(lines, line));
    if ref.None? {
      return None;
    }
    return Some(RefLabel(ref.value));
  }

  /** The scan for a definition of any label, answered for `name`. */
  method SearchDefinition(files: seq<SourceFile>, name: string) returns (r: Result<Option<CLEInfo>>)
    ensures r == DefSearch(files, name)
  {
    var hit := ScanStrict(files, AnyDefRe);
    if hit.Err? {
      return Err(hit.error);
    }
    if hit.value.None? {
      return Ok(None);
    }
    var info := DefinitionAt(hit.value.value, name);
    return Ok(Some(info));
  }

  /** The answer built from a hit: the newline loop, then the range. */
  method DefinitionAt(h: Hit, name: string) returns (info: CLEInfo)
    requires Placed(h)
    ensures info == DefInfo(h.path, h.src, h.m, name)
  {
    var index := h.m.index;
    var count, lastNewline := CountNewlines(h.src, index);
    var charStart: int := (index as int) - (lastNewline as int) - 1;
    info := CLEInfo(Range(Position(count, charStart), Position(count, charStart + |h.m.text|)),
                    h.m.text, h.path, name);
  }

  /** What a found definition states: a single-line range on the line the
      loop counted, as wide as the match, the match text (a string of the
      definition pattern, found at the match index of the file), and the
      queried label, which the text need not contain. */
  lemma DefInfoShape(path: string, src: string, m: Match, name: string)
    requires m.index + |m.text| <= |src| && src[m.index..m.index + |m.text|] == m.text
    ensures var info := DefInfo(path, src, m, name);
      info.range.start.line == info.range.end.line == |Hits(src, m.index)| &&
      info.range.end.character - info.range.start.character == |m.text| &&
      info.text == src[m.index..m.index + |m.text|] &&
      info.path == path && info.labelName == name
  {
  }

  /** In text without "\r" before the match, the range is on the match's
      line, and its start column is one less than the match's column on the
      first line and equal to it on every later line. */
  lemma {:induction false} DefColumn(path: string, src: string, m: Match, name: string)
    requires m.index <= |src|
    requires forall k :: 0 <= k < m.index ==> src[k] != '\r'
    ensures var info := DefInfo(path, src, m, name);
      var ls := SplitLines(src[..m.index]);
      var col := |ls[|ls| - 1]|;
      info.range.start.line == |ls| - 1 &&
      info.range.start.character == (if |ls| == 1 then col - 1 else col)
  {
    LfPosition(src, m.index);
  }

  /** `getCLEDefinition` answers null exactly when the walk and the read of
      the document succeed and either the requested line is not a reference
      or no file holds a definition; a reference is answered by the first
      file, in walk order, that holds a definition of any label. */
  lemma CLEDefinitionCases(fs: Fs, dirs: seq<string>, doc: Option<string>, line: nat)
    ensures Walk(fs, dirs).Err? ==> CLEDefinition(fs, dirs, doc, line) == Err(FsError)
    ensures Walk(fs, dirs).Ok? && doc.None? ==> CLEDefinition(fs, dirs, doc, line) == Err(FsError)
    ensures Walk(fs, dirs).Ok? && doc.Some? ==>
      var name := RefName(doc.value, line);
      var files := Walk(fs, dirs).value;
      (CLEDefinition(fs, dirs, doc, line) == Ok(None) <==> name.None? || Misses(files, AnyDefRe, |files|)) &&
      (name.Some? ==> CLEDefinition(fs, dirs, doc, line) == DefSearch(files, name.value))
  {
    if Walk(fs, dirs).Ok? && doc.Some? {
      if RefName(doc.value, line).Some? {
        FirstStrictDecides(Walk(fs, dirs).value, AnyDefRe);
      }
    }
  }

  // ---------------------------------------------------------------------
  // getCLELabels

  /** What `labelRegex.exec(line)` gives on a reference line: the match and
      its `(\w+)` group. */
  datatype Ref = Ref(m: Match, group: string)

  /** The group read off a match of `LabelRe`. */
  function RefOf(r: Option<Match>): Option<Ref> {
    match r
    case None => None
    case Some(m) => Some(Ref(m, RefLabel(m)))
  }

  /** One occurrence: the line's number, from the match index to the end of
      the line; its text is the whole line and its label the match's group. */
  function OccInfo(path: string, i: nat, line: string, r: Ref): CLEInfo {
    CLEInfo(Range(Position(i, r.m.index), Position(i, |line|)), line, path, r.group)
  }

  /** `labelRegex.exec(line)` on every line, in order. */
  function LineRefs(ls: seq<string>): (refs: seq<Option<Ref>>)
    ensures |refs| == |ls|
  {
    seq(|ls|, k requires 0 <= k < |ls| => RefOf(Exec(LabelRe, ls[k])))
  }

  /** Line `n` as an occurrence of `query`, given what `exec` returned for
      each line, if it is one. */
  function LineOccurrence(path: string, ls: seq<string>, refs: seq<Option<Ref>>, n: nat, query: string): seq<CLEInfo>
    requires |refs| == |ls| && n < |ls|
  {
    match refs[n]
    case Some(r) => if r.group == query then [OccInfo(path, n, ls[n], r)] else []
    case None => []
  }

  /** The lines from line `i` on whose reference has the label `query`, in
      order; `refs` holds the result of `exec` on each line. */
  function Occurrences(path: string, ls: seq<string>, refs: seq<Option<Ref>>, i: nat, query: string): seq<CLEInfo>
    requires |refs| == |ls|
    decreases |ls| - i
  {
    if i >= |ls| then [] else LineOccurrence(path, ls, refs, i, query) + Occurrences(path, ls, refs, i + 1, query)
  }

  /** The occurrences of `query` in one file. */
  function FileOccurrences(f: SourceFile, query: string): seq<CLEInfo>
    requires f.contents.Some?
  {
    var ls := SplitLines(f.contents.value);
    Occurrences(f.path, ls, LineRefs(ls), 0, query)
  }

  /** The first file that can be read. */
  function FirstReadable(files: seq<SourceFile>): (f: Option<SourceFile>)
    ensures f.Some? ==> f.value.contents.Some?
  {
    if files == [] then None
    else if files[0].contents.Some? then Some(files[0])
    else FirstReadable(files[1..])
  }

  /** `getCLELabels(query)`. */
  function CLELabels(fs: Fs, dirs: seq<string>, query: string): Result<Option<seq<CLEInfo>>> {
    match Walk(fs, dirs)
    case Err(e) => Err(e)
    case Ok(files) =>
      match FirstReadable(files)
      case None => Ok(None)
      case Some(f) => Ok(Some(FileOccurrences(f, query)))
  }

  method GetCLELabels(fs: Fs, dirs: seq<string>, query: string)
    returns (r: Result<Option<seq<CLEInfo>>>)
    ensures r == CLELabels(fs, dirs, query)
  {
    var walk := Walk(fs, dirs);
    if walk.Err? {
      return Err(walk.error);
    }
    var files := walk.value;
    var k := 0;
    while k < |files|
      invariant k <= |files|
      invariant FirstReadable(files) == FirstReadable(files[k..])
    {
      assert files[k..][1..] == files[k + 1..];
      if files[k].contents.None? {
        k := k + 1;
        continue;
      }
      return Ok(Some(FileOccurrences(files[k], query)));
    }
    return Ok(None);
  }

  /** The first readable file is the first file whose read succeeds; there is
      none exactly when no file can be read. */
  lemma {:induction false} FirstReadableIsFirst(files: seq<SourceFile>)
    ensures FirstReadable(files).None? <==> forall j :: 0 <= j < |files| ==> files[j].contents.None?
    ensures FirstReadable(files).Some? ==>
      exists k :: 0 <= k < |files| && files[k] == FirstReadable(files).value &&
        files[k].contents.Some? && forall j :: 0 <= j < k ==> files[j].contents.None?
  {
    if files != [] {
      FirstReadableIsFirst(files[1..]);
      if files[0].contents.Some? {
        assert files[0] == FirstReadable(files).value;
      } else if FirstReadable(files).Some? {
        var k :| 0 <= k < |files[1..]| && files[1..][k] == FirstReadable(files).value &&
          files[1..][k].contents.Some? && forall j :: 0 <= j < k ==> files[1..][j].contents.None?;
        assert files[k + 1] == files[1..][k];
        assert forall j :: 0 < j < k + 1 ==> files[j] == files[1..][j - 1];
      } else {
        assert forall j :: 0 < j < |files| ==> files[j] == files[1..][j - 1];
      }
    }
  }

  /** Line `n` is an occurrence of `query` with the reference it holds. */
  ghost predicate OccursAt(path: string, ls: seq<string>, refs: seq<Option<Ref>>, n: nat, query: string, info: CLEInfo)
    requires |refs| == |ls| && n < |ls|
  {
    refs[n].Some? && refs[n].value.group == query &&
    info == OccInfo(path, n, ls[n], refs[n].value)
  }

  lemma LineOccurrenceExactly(path: string, ls: seq<string>, refs: seq<Option<Ref>>, n: nat, query: string, info: CLEInfo)
    requires |refs| == |ls| && n < |ls|
    ensures info in LineOccurrence(path, ls, refs, n, query) <==> OccursAt(path, ls, refs, n, query, info)
  {
  }

  /** An occurrence is exactly a line, at or after `i`, whose reference has
      the queried label, reported at that line. */
  lemma OccurrencesExactly(path: string, ls: seq<string>, refs: seq<Option<Ref>>, i: nat, query: string, info: CLEInfo)
    requires |refs| == |ls|
    ensures info in Occurrences(path, ls, refs, i, query) <==>
      exists n :: i <= n < |ls| && OccursAt(path, ls, refs, n, query, info)
  {
    OccurrencesByLine(path, ls, refs, i, query, info);
    forall n | i <= n < |ls| {
      LineOccurrenceExactly(path, ls, refs, n, query, info);
    }
  }

  /** The occurrences from line `i` on are those of the lines from `i` on. */
  lemma {:induction false} OccurrencesByLine(path: string, ls: seq<string>, refs: seq<Option<Ref>>, i: nat, query: string, info: CLEInfo)
    requires |refs| == |ls|
    ensures info in Occurrences(path, ls, refs, i, query) <==>
      exists n :: i <= n < |ls| && info in LineOccurrence(path, ls, refs, n, query)
    decreases |ls| - i
  {
    if i < |ls| {
      OccurrencesByLine(path, ls, refs, i + 1, query, info);
      assert Occurrences(path, ls, refs, i, query) ==
        LineOccurrence(path, ls, refs, i, query) + Occurrences(path, ls, refs, i + 1, query);
      if exists n :: i <= n < |ls| && info in LineOccurrence(path, ls, refs, n, query) {
        var n :| i <= n < |ls| && info in LineOccurrence(path, ls, refs, n, query);
        if n > i {
          assert exists n' :: i + 1 <= n' < |ls| && info in LineOccurrence(path, ls, refs, n', query);
        }
      }
    }
  }

  lemma LineOccurrenceAt(path: string, ls: seq<string>, refs: seq<Option<Ref>>, n: nat, query: string)
    requires |refs| == |ls| && n < |ls|
    ensures |LineOccurrence(path, ls, refs, n, query)| <= 1
    ensures forall a :: 0 <= a < |LineOccurrence(path, ls, refs, n, query)| ==>
      LineOccurrence(path, ls, refs, n, query)[a].range.start.line == n
  {
  }

  lemma OrderedAppend(h: seq<CLEInfo>, t: seq<CLEInfo>, i: int)
    requires |h| <= 1 && forall a :: 0 <= a < |h| ==> h[a].range.start.line == i
    requires forall a :: 0 <= a < |t| ==> t[a].range.start.line > i
    requires forall a, b :: 0 <= a < b < |t| ==> t[a].range.start.line < t[b].range.start.line
    ensures forall a :: 0 <= a < |h + t| ==> (h + t)[a].range.start.line >= i
    ensures forall a, b :: 0 <= a < b < |h + t| ==> (h + t)[a].range.start.line < (h + t)[b].range.start.line
  {
  }

  /** Occurrences come in strictly increasing line order, each on a line
      numbered at least `i`. */
  lemma {:induction false} OccurrencesOrdered(path: string, ls: seq<string>, refs: seq<Option<Ref>>, i: nat, query: string)
    requires |refs| == |ls|
    ensures forall a :: 0 <= a < |Occurrences(path, ls, refs, i, query)| ==>
      Occurrences(path, ls, refs, i, query)[a].range.start.line >= i
    ensures forall a, b :: 0 <= a < b < |Occurrences(path, ls, refs, i, query)| ==>
      Occurrences(path, ls, refs, i, query)[a].range.start.line < Occurrences(path, ls, refs, i, query)[b].range.start.line
    decreases |ls| - i
  {
    if i < |ls| {
      OccurrencesOrdered(path, ls, refs, i + 1, query);
      LineOccurrenceAt(path, ls, refs, i, query);
      var h := LineOccurrence(path, ls, refs, i, query);
      var t := Occurrences(path, ls, refs, i + 1, query);
      assert Occurrences(path, ls, refs, i, query) == h + t;
      OrderedAppend(h, t, i);
    }
  }

  /** `m` is a match found inside `line`. */
  predicate InLine(m: Match, line: string) {
    m.index + |m.text| <= |line| && line[m.index..m.index + |m.text|] == m.text
  }

  /** `r` is a reference found inside `line`, and its group occurs in it. */
  predicate FoundIn(r: Ref, line: string) {
    InLine(r.m, line) && IndexOf(r.group, line).Some?
  }

  /** What `exec` returns for a line is found inside that line. */
  lemma LineRefsFound(ls: seq<string>, k: nat)
    requires k < |ls| && LineRefs(ls)[k].Some?
    ensures FoundIn(LineRefs(ls)[k].value, ls[k])
  {
    var m := Exec(LabelRe, ls[k]).value;
    assert LineRefs(ls)[k] == Some(Ref(m, RefLabel(m)));
    GroupInLine(ls[k], m);
  }

  /** Every occurrence reports its whole line, from the match index to the
      line's end, and its label is the queried one and occurs in its text,
      when each reference is found inside its line with its group. */
  lemma OccurrenceShape(path: string, ls: seq<string>, refs: seq<Option<Ref>>, i: nat, query: string)
    requires |refs| == |ls|
    requires forall k :: 0 <= k < |ls| && refs[k].Some? ==> FoundIn(refs[k].value, ls[k])
    ensures forall info :: info in Occurrences(path, ls, refs, i, query) ==>
      info.labelName == query && info.path == path &&
      info.range.start.line == info.range.end.line &&
      0 <= info.range.start.line < |ls| && info.text == ls[info.range.start.line] &&
      info.range.end.character == |info.text| &&
      0 <= info.range.start.character <= info.range.end.character &&
      IndexOf(query, info.text).Some?
  {
    forall info | info in Occurrences(path, ls, refs, i, query)
      ensures info.labelName == query && info.path == path &&
        info.range.start.line == info.range.end.line &&
        0 <= info.range.start.line < |ls| && info.text == ls[info.range.start.line] &&
        info.range.end.character == |info.text| &&
        0 <= info.range.start.character <= info.range.end.character &&
        IndexOf(query, info.text).Some?
    {
      OccurrencesByLine(path, ls, refs, i, query, info);
      var n :| i <= n < |ls| && info in LineOccurrence(path, ls, refs, n, query);
      LineOccurrenceShape(path, ls, refs, n, query, info);
    }
  }

  /** The same for the occurrence of one line. */
  lemma LineOccurrenceShape(path: string, ls: seq<string>, refs: seq<Option<Ref>>, n: nat, query: string, info: CLEInfo)
    requires |refs| == |ls| && n < |ls|
    requires refs[n].Some? ==> FoundIn(refs[n].value, ls[n])
    requires info in LineOccurrence(path, ls, refs, n, query)
    ensures info.labelName == query && info.path == path &&
      info.range.start.line == info.range.end.line == n &&
      info.text == ls[n] && info.range.end.character == |info.text| &&
      0 <= info.range.start.character <= info.range.end.character &&
      IndexOf(query, info.text).Some?
  {
  }

  /** The group of a match inside `line` occurs in `line`. */
  lemma GroupInLine(line: string, m: Match)
    requires InLine(m, line)
    ensures IndexOf(RefLabel(m), line).Some?
  {
    var g := WordSuffix(m.text);
    assert line[m.index + |m.text| - |g|..m.index + |m.text|] == g;
    IndexOfSubstring(g, line, m.index + |m.text| - |g|);
  }

  /** The same for the occurrences of a file. */
  lemma FileOccurrenceShape(f: SourceFile, query: string)
    requires f.contents.Some?
    ensures var ls := SplitLines(f.contents.value);
      forall info :: info in FileOccurrences(f, query) ==>
        info.labelName == query && info.path == f.path &&
        info.range.start.line == info.range.end.line &&
        0 <= info.range.start.line < |ls| && info.text == ls[info.range.start.line] &&
        info.range.end.character == |info.text| &&
        0 <= info.range.start.character <= info.range.end.character &&
        IndexOf(query, info.text).Some?
  {
    var ls := SplitLines(f.contents.value);
    forall k | 0 <= k < |ls| && LineRefs(ls)[k].Some? ensures FoundIn(LineRefs(ls)[k].value, ls[k]) {
      LineRefsFound(ls, k);
    }
    OccurrenceShape(f.path, ls, LineRefs(ls), 0, query);
  }

  /** `getCLELabels` answers null exactly when the walk succeeds and no file
      can be read; otherwise it answers with the occurrences of the first
      readable file only. */
  lemma CLELabelsCases(fs: Fs, dirs: seq<string>, query: string)
    ensures Walk(fs, dirs).Err? <==> CLELabels(fs, dirs, query).Err?
    ensures Walk(fs, dirs).Ok? ==>
      var files := Walk(fs, dirs).value;
      (CLELabels(fs, dirs, query) == Ok(None) <==> forall j :: 0 <= j < |files| ==> files[j].contents.None?) &&
      (CLELabels(fs, dirs, query).value.Some? ==>
        exists k :: 0 <= k < |files| && files[k].contents.Some? &&
          (forall j :: 0 <= j < k ==> files[j].contents.None?) &&
          CLELabels(fs, dirs, query).value.value == FileOccurrences(files[k], query))
  {
    if Walk(fs, dirs).Ok? {
      FirstReadableIsFirst(Walk(fs, dirs).value);
    }
  }
}
