/** `makeRename`: rename a label at its definition and at its pragma lines,
    as text edits grouped per file. */
module Rename {
  import opened Base
  import opened SourceSet
  import opened Lsp
  import opened Labels
  import opened Lines
  import opened Regex
  import opened Pragmas

  /** `labelRange(info)`: the label's first occurrence in the text, shifted
      by the start column of the range; None where `exec` returns null and
      the `!` assertion fails. */
  function LabelRange(info: CLEInfo): (r: Option<Range>)
    ensures r.None? <==> IndexOf(info.labelName, info.text).None?
    ensures r.Some? ==>
      var ix := IndexOf(info.labelName, info.text).value;
      r.value.start == Position(info.range.start.line, info.range.start.character + ix) &&
      r.value.end == Position(info.range.start.line, info.range.start.character + ix + |info.labelName|) &&
      info.text[ix..ix + |info.labelName|] == info.labelName
  {
    match IndexOf(info.labelName, info.text)
    case None => None
    case Some(ix) =>
      var start := info.range.start.character + ix;
      Some(Range(Position(info.range.start.line, start), Position(info.range.start.line, start + |info.labelName|)))
  }

  // ---------------------------------------------------------------------
  // The changes map: a JavaScript Map from file to edits, which keeps its
  // keys in insertion order.

  type Changes = seq<(string, seq<TextEdit>)>

  function Keys(c: Changes): (ks: seq<string>)
    ensures |ks| == |c| && forall i :: 0 <= i < |c| ==> ks[i] == c[i].0
  {
    if c == [] then [] else [c[0].0] + Keys(c[1..])
  }

  ghost predicate Distinct(ks: seq<string>) {
    forall i, j :: 0 <= i < j < |ks| ==> ks[i] != ks[j]
  }

  /** `changesMap.get(key) ?? []`. */
  function Lookup(c: Changes, key: string): seq<TextEdit> {
    if c == [] then [] else if c[0].0 == key then c[0].1 else Lookup(c[1..], key)
  }

  /** `changesMap.set(key, v)`: a present key keeps its place, a new one goes
      last. */
  function Put(c: Changes, key: string, v: seq<TextEdit>): Changes {
    if c == [] then [(key, v)]
    else if c[0].0 == key then [(key, v)] + c[1..]
    else [c[0]] + Put(c[1..], key, v)
  }

  /** The number of edits in all lists. */
  function Total(c: Changes): nat {
    if c == [] then 0 else |c[0].1| + Total(c[1..])
  }

  lemma {:induction false} PutSpec(c: Changes, key: string, v: seq<TextEdit>)
    requires Distinct(Keys(c))
    ensures Keys(Put(c, key, v)) == if key in Keys(c) then Keys(c) else Keys(c) + [key]
    ensures Distinct(Keys(Put(c, key, v)))
    ensures forall k :: Lookup(Put(c, key, v), k) == if k == key then v else Lookup(c, k)
    ensures Total(Put(c, key, v)) == Total(c) - |Lookup(c, key)| + |v|
  {
    if c != [] {
      assert Distinct(Keys(c[1..])) by {
        assert forall i :: 0 <= i < |c| - 1 ==> Keys(c[1..])[i] == Keys(c)[i + 1];
      }
      PutSpec(c[1..], key, v);
      if c[0].0 != key {
        assert key in Keys(c) <==> key in Keys(c[1..]) by {
          assert Keys(c) == [c[0].0] + Keys(c[1..]);
        }
        LookupAbsent(c[1..], c[0].0);
      } else {
        LookupAbsent(c[1..], key);
      }
    }
  }

  lemma {:induction false} LookupAbsent(c: Changes, key: string)
    requires Distinct(Keys(c)) && key !in Keys(c)
    ensures Lookup(c, key) == []
  {
    if c != [] {
      assert Keys(c)[0] == c[0].0;
      assert Distinct(Keys(c[1..])) && key !in Keys(c[1..]) by {
        assert forall i :: 0 <= i < |c| - 1 ==> Keys(c[1..])[i] == Keys(c)[i + 1];
      }
      LookupAbsent(c[1..], key);
    }
  }

  /** The keys a sequence of `set` calls leaves, in insertion order. */
  function AddKeys(ks: seq<string>, es: seq<(string, TextEdit)>): seq<string>
    decreases |es|
  {
    if es == [] then ks else AddKeys(if es[0].0 in ks then ks else ks + [es[0].0], es[1..])
  }

  /** The edits for `key`, in order. */
  function EditsFor(es: seq<(string, TextEdit)>, key: string): seq<TextEdit> {
    if es == [] then [] else (if es[0].0 == key then [es[0].1] else []) + EditsFor(es[1..], key)
  }

  function Reverse<T>(s: seq<T>): seq<T> {
    if s == [] then [] else Reverse(s[1..]) + [s[0]]
  }

  /** The loop over the occurrences: each edit is put in front of the edits
      already stored for its file. */
  function GroupAll(c: Changes, es: seq<(string, TextEdit)>): Changes
    decreases |es|
  {
    if es == [] then c
    else GroupAll(Put(c, es[0].0, [es[0].1] + Lookup(c, es[0].0)), es[1..])
  }

  ghost predicate NoEmptyList(c: Changes) {
    forall i :: 0 <= i < |c| ==> c[i].1 != []
  }

  lemma {:induction false} PutNonEmpty(c: Changes, key: string, v: seq<TextEdit>)
    requires NoEmptyList(c) && v != []
    ensures NoEmptyList(Put(c, key, v))
  {
    if c != [] && c[0].0 != key {
      PutNonEmpty(c[1..], key, v);
      var p := Put(c, key, v);
      assert forall i :: 1 <= i < |p| ==> p[i] == Put(c[1..], key, v)[i - 1];
    }
  }

  /** What the grouping leaves: distinct keys in insertion order, each
      file's edits in reverse order in front of those it had, no list
      empty, and every edit counted once. */
  lemma {:induction false} GroupAllSpec(c: Changes, es: seq<(string, TextEdit)>)
    requires Distinct(Keys(c)) && NoEmptyList(c)
    ensures Distinct(Keys(GroupAll(c, es)))
    ensures Keys(GroupAll(c, es)) == AddKeys(Keys(c), es)
    ensures forall key :: Lookup(GroupAll(c, es), key) == Reverse(EditsFor(es, key)) + Lookup(c, key)
    ensures NoEmptyList(GroupAll(c, es))
    ensures Total(GroupAll(c, es)) == Total(c) + |es|
    decreases |es|
  {
    if es != [] {
      var key := es[0].0;
      var c' := Put(c, key, [es[0].1] + Lookup(c, key));
      PutSpec(c, key, [es[0].1] + Lookup(c, key));
      PutNonEmpty(c, key, [es[0].1] + Lookup(c, key));
      GroupAllSpec(c', es[1..]);
      forall k
        ensures Lookup(GroupAll(c, es), k) == Reverse(EditsFor(es, k)) + Lookup(c, k)
      {
        if k == key {
          assert Reverse(EditsFor(es, k)) == Reverse(EditsFor(es[1..], k)) + [es[0].1];
        } else {
          assert EditsFor(es, k) == EditsFor(es[1..], k);
        }
      }
    }
  }

  /** The edits of the occurrences, in order; None if the label range of one
      of them cannot be found. */
  function OccurrenceEdits(occs: seq<CLEInfo>, newName: string): (r: Option<seq<(string, TextEdit)>>)
    ensures r.Some? ==> |r.value| == |occs|
  {
    if occs == [] then Some([])
    else
      match (LabelRange(occs[0]), OccurrenceEdits(occs[1..], newName))
      case (Some(rg), Some(rest)) => Some([(occs[0].path, TextEdit(rg, newName))] + rest)
      case _ => None
  }

  /** `makeRename` for line `line` of a document whose read gives `doc`. */
  function RenameOf(fs: Fs, dirs: seq<string>, doc: Option<string>, line: nat, newName: string)
    : Result<Option<Changes>>
  {
    match CLEDefinition(fs, dirs, doc, line)
    case Err(e) => Err(e)
    case Ok(None) => Ok(None)
    case Ok(Some(def)) =>
      match CLELabels(fs, dirs, def.labelName)
      case Err(e) => Err(e)
      case Ok(None) => Ok(None)
      case Ok(Some(occs)) =>
        match LabelRange(def)
        case None => Err(LabelNotInText)
        case Some(rg) =>
          match OccurrenceEdits(occs, newName)
          case None => Err(LabelNotInText)
          case Some(es) => Ok(Some(GroupAll([(def.path, [TextEdit(rg, newName)])], es)))
  }

  method MakeRename(fs: Fs, dirs: seq<string>, doc: Option<string>, line: nat, newName: string)
    returns (r: Result<Option<Changes>>)
    ensures r == RenameOf(fs, dirs, doc, line, newName)
  {
    var def := GetCLEDefinition(fs, dirs, doc, line);
    if def.Err? {
      return Err(def.error);
    }
    if def.value.None? {
      return Ok(None);
    }
    var d := def.value.value;
    var found := GetCLELabels(fs, dirs, d.labelName);
    if found.Err? {
      return Err(found.error);
    }
    if found.value.None? {
      return Ok(None);
    }
    var occs := found.value.value;
    var defRange := LabelRange(d);
    if defRange.None? {
      return Err(LabelNotInText);
    }
    var grouped := AddOccurrences([(d.path, [TextEdit(defRange.value, newName)])], occs, newName);
    if grouped.None? {
      return Err(LabelNotInText);
    }
    return Ok(Some(grouped.value));
  }

  /** The loop over the occurrences: each edit is put in front of its file's
      list; None where a label range cannot be found. */
  method AddOccurrences(c0: Changes, occs: seq<CLEInfo>, newName: string) returns (r: Option<Changes>)
    ensures r.Some? <==> OccurrenceEdits(occs, newName).Some?
    ensures r.Some? ==> r.value == GroupAll(c0, OccurrenceEdits(occs, newName).value)
  {
    var changes := c0;
    var k := 0;
    while k < |occs|
      invariant k <= |occs|
      invariant OccurrenceEdits(occs, newName).Some? <==> OccurrenceEdits(occs[k..], newName).Some?
      invariant OccurrenceEdits(occs, newName).Some? ==>
        GroupAll(c0, OccurrenceEdits(occs, newName).value) ==
        GroupAll(changes, OccurrenceEdits(occs[k..], newName).value)
    {
      assert occs[k..][1..] == occs[k + 1..];
      assert occs[k..][0] == occs[k];
      var occ := occs[k];
      var key := occ.path;
      var prev := Lookup(changes, key);
      var rg := LabelRange(occ);
      if rg.None? {
        return None;
      }
      changes := Put(changes, key, [TextEdit(rg.value, newName)] + prev);
      k := k + 1;
    }
    assert occs[k..] == [];
    return Some(changes);
  }

  /** The label of an occurrence `getCLELabels` reports always occurs in its
      line, so its range is always found. */
  lemma OccurrenceEditsFound(f: SourceFile, query: string, newName: string)
    requires f.contents.Some?
    ensures OccurrenceEdits(FileOccurrences(f, query), newName).Some?
  {
    var occs := FileOccurrences(f, query);
    FileOccurrenceShape(f, query);
    AllFound(occs, newName);
  }

  lemma {:induction false} AllFound(occs: seq<CLEInfo>, newName: string)
    requires forall info :: info in occs ==> IndexOf(info.labelName, info.text).Some?
    ensures OccurrenceEdits(occs, newName).Some?
  {
    if occs != [] {
      assert occs[0] in occs;
      AllFound(occs[1..], newName);
    }
  }

  /** The files the edits are for. */
  ghost function FilesOf(es: seq<(string, TextEdit)>): set<string> {
    set j | 0 <= j < |es| :: es[j].0
  }

  /** The keys `set` leaves: those there before, in their places, then each
      new file in the order it was first met, none twice. */
  lemma {:induction false} AddKeysSpec(ks: seq<string>, es: seq<(string, TextEdit)>)
    requires Distinct(ks)
    ensures Distinct(AddKeys(ks, es))
    ensures ks <= AddKeys(ks, es)
    ensures forall x :: x in AddKeys(ks, es) <==> x in ks || x in FilesOf(es)
    decreases |es|
  {
    if es != [] {
      var ks' := if es[0].0 in ks then ks else ks + [es[0].0];
      AddKeysSpec(ks', es[1..]);
      assert FilesOf(es) == {es[0].0} + FilesOf(es[1..]) by {
        forall x | x in FilesOf(es) ensures x in {es[0].0} + FilesOf(es[1..]) {
          var j :| 0 <= j < |es| && es[j].0 == x;
          if j > 0 { assert es[1..][j - 1].0 == x; }
        }
        forall x | x in FilesOf(es[1..]) ensures x in FilesOf(es) {
          var j :| 0 <= j < |es| - 1 && es[1..][j].0 == x;
          assert es[j + 1].0 == x;
        }
      }
    }
  }

  /** With distinct keys, the list stored at a place is the one `get` returns
      for its key. */
  lemma {:induction false} LookupAt(c: Changes, i: nat)
    requires Distinct(Keys(c)) && i < |c|
    ensures Lookup(c, c[i].0) == c[i].1
  {
    if i > 0 {
      assert Keys(c)[0] != Keys(c)[i];
      assert Distinct(Keys(c[1..])) by {
        assert forall j :: 0 <= j < |c| - 1 ==> Keys(c[1..])[j] == Keys(c)[j + 1];
      }
      LookupAt(c[1..], i - 1);
    }
  }

  lemma {:induction false} ReverseHas<T>(s: seq<T>, x: T)
    ensures x in Reverse(s) <==> x in s
  {
    if s != [] {
      ReverseHas(s[1..], x);
      assert s == [s[0]] + s[1..];
    }
  }

  lemma {:induction false} EditsForFrom(es: seq<(string, TextEdit)>, key: string, e: TextEdit)
    requires e in EditsFor(es, key)
    ensures exists j :: 0 <= j < |es| && es[j] == (key, e)
  {
    if e !in (if es[0].0 == key then [es[0].1] else []) {
      EditsForFrom(es[1..], key, e);
      var j :| 0 <= j < |es| - 1 && es[1..][j] == (key, e);
      assert es[j + 1] == (key, e);
    }
  }

  lemma {:induction false} OccurrenceEditsText(occs: seq<CLEInfo>, newName: string)
    requires OccurrenceEdits(occs, newName).Some?
    ensures forall j :: 0 <= j < |occs| ==>
      OccurrenceEdits(occs, newName).value[j].0 == occs[j].path &&
      OccurrenceEdits(occs, newName).value[j].1.newText == newName
  {
    if occs != [] {
      OccurrenceEditsText(occs[1..], newName);
    }
  }

  /** The grouping of a rename: the definition's file comes first, no file
      twice, the other files in the order of their first occurrence; every
      list holds the file's occurrence edits in reverse order, followed by
      the definition's edit in the definition's file; no list is empty; and
      there is one edit more than there are occurrences. */
  lemma GroupingSpec(defPath: string, de: TextEdit, es: seq<(string, TextEdit)>)
    ensures var changes := GroupAll([(defPath, [de])], es);
      Keys(changes) == AddKeys([defPath], es) && [defPath] <= Keys(changes) &&
      Distinct(Keys(changes)) && NoEmptyList(changes) &&
      (forall key :: Lookup(changes, key) ==
         Reverse(EditsFor(es, key)) + (if key == defPath then [de] else [])) &&
      Total(changes) == 1 + |es|
  {
    var c0: Changes := [(defPath, [de])];
    assert Keys(c0) == [defPath];
    assert Total(c0) == 1;
    assert c0[1..] == [];
    assert forall key :: Lookup(c0, key) == (if key == defPath then [de] else []);
    GroupAllSpec(c0, es);
    AddKeysSpec([defPath], es);
  }

  /** Every edit of a rename writes the new name. */
  lemma {:induction false} GroupingText(defPath: string, de: TextEdit, occs: seq<CLEInfo>, newName: string)
    requires OccurrenceEdits(occs, newName).Some? && de.newText == newName
    ensures var changes := GroupAll([(defPath, [de])], OccurrenceEdits(occs, newName).value);
      forall i, e :: 0 <= i < |changes| && e in changes[i].1 ==> e.newText == newName
  {
    var es := OccurrenceEdits(occs, newName).value;
    var changes := GroupAll([(defPath, [de])], es);
    GroupingSpec(defPath, de, es);
    OccurrenceEditsText(occs, newName);
    forall i, e | 0 <= i < |changes| && e in changes[i].1
      ensures e.newText == newName
    {
      LookupAt(changes, i);
      var key := changes[i].0;
      assert e in Reverse(EditsFor(es, key)) + (if key == defPath then [de] else []);
      if e in Reverse(EditsFor(es, key)) {
        ReverseHas(EditsFor(es, key), e);
        EditsForFrom(es, key, e);
      }
    }
  }

  /** A rename that answers groups the edits of the definition found and of
      the occurrences of its label as `GroupingSpec` states. */
  lemma RenameAnswer(fs: Fs, dirs: seq<string>, doc: Option<string>, line: nat, newName: string)
    requires RenameOf(fs, dirs, doc, line, newName).Ok? && RenameOf(fs, dirs, doc, line, newName).value.Some?
    ensures CLEDefinition(fs, dirs, doc, line).Ok? && CLEDefinition(fs, dirs, doc, line).value.Some?
    ensures var def := CLEDefinition(fs, dirs, doc, line).value.value;
      CLELabels(fs, dirs, def.labelName).Ok? && CLELabels(fs, dirs, def.labelName).value.Some? &&
      LabelRange(def).Some? &&
      OccurrenceEdits(CLELabels(fs, dirs, def.labelName).value.value, newName).Some? &&
      RenameOf(fs, dirs, doc, line, newName).value.value ==
        GroupAll([(def.path, [TextEdit(LabelRange(def).value, newName)])],
                 OccurrenceEdits(CLELabels(fs, dirs, def.labelName).value.value, newName).value)
    ensures var def := CLEDefinition(fs, dirs, doc, line).value.value;
      var occs := CLELabels(fs, dirs, def.labelName).value.value;
      var ans := RenameOf(fs, dirs, doc, line, newName).value.value;
      [def.path] <= Keys(ans) && Distinct(Keys(ans)) && NoEmptyList(ans) &&
      Total(ans) == 1 + |occs| &&
      forall i, e :: 0 <= i < |ans| && e in ans[i].1 ==> e.newText == newName
  {
    var def := CLEDefinition(fs, dirs, doc, line).value.value;
    var occs := CLELabels(fs, dirs, def.labelName).value.value;
    var de := TextEdit(LabelRange(def).value, newName);
    GroupingSpec(def.path, de, OccurrenceEdits(occs, newName).value);
    GroupingText(def.path, de, occs, newName);
  }

  /** A rename answers null exactly when there is no definition or no
      readable file; given both, it rejects exactly when the queried label
      does not occur in the definition text, which happens because the
      definition found need not be the label's own. */
  lemma RenameCases(fs: Fs, dirs: seq<string>, doc: Option<string>, line: nat, newName: string)
    ensures RenameOf(fs, dirs, doc, line, newName) == Ok(None) <==>
      CLEDefinition(fs, dirs, doc, line) == Ok(None) ||
      (CLEDefinition(fs, dirs, doc, line).Ok? && CLEDefinition(fs, dirs, doc, line).value.Some? &&
       CLELabels(fs, dirs, CLEDefinition(fs, dirs, doc, line).value.value.labelName) == Ok(None))
    ensures (CLEDefinition(fs, dirs, doc, line).Ok? && CLEDefinition(fs, dirs, doc, line).value.Some? &&
             CLELabels(fs, dirs, CLEDefinition(fs, dirs, doc, line).value.value.labelName).Ok? &&
             CLELabels(fs, dirs, CLEDefinition(fs, dirs, doc, line).value.value.labelName).value.Some?) ==>
      (RenameOf(fs, dirs, doc, line, newName).Err? <==>
        IndexOf(CLEDefinition(fs, dirs, doc, line).value.value.labelName,
                CLEDefinition(fs, dirs, doc, line).value.value.text).None?)
  {
    var d := CLEDefinition(fs, dirs, doc, line);
    if d.Ok? && d.value.Some? {
      var q := d.value.value.labelName;
      var o := CLELabels(fs, dirs, q);
      if o.Ok? && o.value.Some? {
        var f := FirstReadable(Walk(fs, dirs).value).value;
        OccurrenceEditsFound(f, q, newName);
      }
    }
  }

  /** On an indented pragma line (match index above 0) the occurrence edit
      lands `index` columns to the right of the label's first occurrence in
      the line: the start column is the match index plus an index taken in
      the whole line. */
  lemma OccurrenceEditShifted(path: string, n: nat, line: string, r: Ref)
    requires IndexOf(r.group, line).Some?
    ensures var rg := LabelRange(OccInfo(path, n, line, r)).value;
      var ix := IndexOf(r.group, line).value;
      rg.start.line == rg.end.line == n &&
      rg.start.character == r.m.index + ix &&
      line[rg.start.character - r.m.index..rg.end.character - r.m.index] == r.group
  {
  }
}
