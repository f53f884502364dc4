/** The two code-lens providers: `makeLens`, one lens above each function
    definition the topology assigns a level to, and `makeLens_`, one lens per
    assignment at the line number the analyzer reported. */
module Lens {
  import opened Base
  import opened Analyzer
  import opened Parser
  import opened Projection

  /** A JavaScript number used as a line: an integer, or NaN. */
  datatype Num = Int(i: int) | NaN

  datatype Command = Command(title: string, command: string)

  /** A code lens; its range is the zero-width range at column 0 of `line`. */
  datatype CodeLens = CodeLens(line: Num, command: Command)

  function LensOf(p: Pair): CodeLens {
    CodeLens(Int(p.def.start.line - 1), Command(p.level, ""))
  }

  /** `makeLens`, for the document whose parse tree is `tree`. */
  function MakeLens(topology: Option<Topology>, tree: Tree): (lenses: seq<CodeLens>)
    ensures topology.None? ==> lenses == []
    ensures topology.Some? ==> |lenses| == |Pairs(topology.value.functions, DefsIn(Preorder(tree)))|
  {
    if topology.None? then [] else LensesFor(topology.value, DefsIn(Preorder(tree)))
  }

  /** One lens per pair, in order. */
  function LensesOf(ps: seq<Pair>): (lenses: seq<CodeLens>)
    ensures |lenses| == |ps| && forall k :: 0 <= k < |ps| ==> lenses[k] == LensOf(ps[k])
  {
    seq(|ps|, k requires 0 <= k < |ps| => LensOf(ps[k]))
  }

  lemma LensesOfAppend(p: seq<Pair>, q: seq<Pair>)
    ensures LensesOf(p + q) == LensesOf(p) + LensesOf(q)
  {
  }

  /** The lenses sit one line below the start of the highlights that
      `sendTopology` sends for the same topology and document, are titled,
      in the same order, with the levels whose colours those highlights
      carry, and have an empty command. */
  lemma LensesFollowHighlights(top: Topology, dirs: seq<string>, docPath: string, tree: Tree)
    requires Applies(dirs, docPath)
    ensures var lenses := MakeLens(Some(top), tree);
      var notes := TopologyNotes(top, dirs, docPath, tree);
      |notes| == 1 + |lenses| &&
      forall k :: 0 <= k < |lenses| ==>
        notes[k + 1].Highlight? &&
        lenses[k].line == Int(notes[k + 1].range.start.line + 1) &&
        lenses[k].command.title in LevelSet(top.functions) &&
        notes[k + 1].color == ColorOf(LevelSet(top.functions), lenses[k].command.title) &&
        lenses[k].command.command == ""
  {
    TopologyNotesCases(top, dirs, docPath, tree);
    var ps := Pairs(top.functions, DefsIn(Preorder(tree)));
    var lenses := MakeLens(Some(top), tree);
    var notes := TopologyNotes(top, dirs, docPath, tree);
    forall k | 0 <= k < |lenses|
      ensures notes[k + 1].Highlight? && lenses[k].line == Int(notes[k + 1].range.start.line + 1)
      ensures lenses[k].command.title in LevelSet(top.functions) &&
        notes[k + 1].color == ColorOf(LevelSet(top.functions), lenses[k].command.title)
    {
      assert lenses[k] == LensOf(ps[k]);
      assert notes[k + 1].range.start.line == ps[k].def.start.line - 2;
    }
  }

  /** The lenses `makeLens` shows for `top` when the document defines `defs`. */
  function LensesFor(top: Topology, defs: seq<FunctionDef>): seq<CodeLens> {
    LensesOf(Pairs(top.functions, defs))
  }

  /** A lens per matched assignment, titled with its level, in assignment
      order; an assignment with no definition of its name has none. */
  lemma LensesPerAssignment(top: Topology, defs: seq<FunctionDef>, a: EnclaveAssignment)
    ensures var t := Topology(top.sourcePath, top.levels, top.globalScopedVars, top.functions + [a]);
      LensesFor(t, defs) ==
        LensesFor(top, defs) +
        (if MatchDef(defs, a.name).Some?
         then [CodeLens(Int(MatchDef(defs, a.name).value.start.line - 1), Command(a.level, ""))]
         else [])
  {
    PairsAppend(top.functions, [a], defs);
    LensesOfAppend(Pairs(top.functions, defs), Pairs([a], defs));
    LensesOfOne(a, defs);
  }

  lemma LensesOfOne(a: EnclaveAssignment, defs: seq<FunctionDef>)
    ensures LensesOf(Pairs([a], defs)) ==
      (if MatchDef(defs, a.name).Some?
       then [CodeLens(Int(MatchDef(defs, a.name).value.start.line - 1), Command(a.level, ""))]
       else [])
  {
    PairsOfOne(a, defs);
  }

  /** The value of a digit in base 10 or 16, if `c` is one. */
  function DigitValue(c: char, radix: nat): Option<nat> {
    var v: int :=
      if '0' <= c <= '9' then c as int - '0' as int
      else if 'a' <= c <= 'f' then c as int - 'a' as int + 10
      else if 'A' <= c <= 'F' then c as int - 'A' as int + 10
      else radix;
    if 0 <= v < radix then Some(v) else None
  }

  /** The length of the longest prefix of digits. */
  function DigitRun(s: string, radix: nat): (n: nat)
    ensures n <= |s|
    ensures forall k :: 0 <= k < n ==> DigitValue(s[k], radix).Some?
    ensures n < |s| ==> DigitValue(s[n], radix).None?
  {
    if s != [] && DigitValue(s[0], radix).Some? then 1 + DigitRun(s[1..], radix) else 0
  }

  /** The number a string of digits denotes. */
  function DigitsValue(ds: string, radix: nat): nat
    requires forall k :: 0 <= k < |ds| ==> DigitValue(ds[k], radix).Some?
  {
    if ds == [] then 0
    else
      assert forall k :: 0 <= k < |ds| - 1 ==> ds[..|ds| - 1][k] == ds[k];
      DigitsValue(ds[..|ds| - 1], radix) * radix + DigitValue(ds[|ds| - 1], radix).value
  }

  /** `parseInt(s)` with no radix: leading white space is skipped, one sign is
      read, a "0x" or "0X" prefix selects base 16, and the longest run of
      digits that follows is read; without digits the result is NaN. */
  function ParseInt(s: string): Num {
    var t := TrimStart(s);
    var neg := t != [] && t[0] == '-';
    var u := if t != [] && (t[0] == '-' || t[0] == '+') then t[1..] else t;
    var hex := |u| >= 2 && u[0] == '0' && (u[1] == 'x' || u[1] == 'X');
    var radix: nat := if hex then 16 else 10;
    var v := if hex then u[2..] else u;
    var n := DigitRun(v, radix);
    if n == 0 then NaN
    else
      var m: int := DigitsValue(v[..n], radix);
      Int(if neg then -m else m)
  }

  /** The decimal numeral of `n`. */
  function Decimal(n: nat): (s: string)
    ensures |s| >= 1 && forall k :: 0 <= k < |s| ==> '0' <= s[k] <= '9'
    ensures |s| >= 2 ==> s[0] != '0'
  {
    var d := [('0' as int + n % 10) as char];
    if n < 10 then d else Decimal(n / 10) + d
  }

  lemma {:induction false} DecimalValue(n: nat)
    ensures forall k :: 0 <= k < |Decimal(n)| ==> DigitValue(Decimal(n)[k], 10).Some?
    ensures DigitsValue(Decimal(n), 10) == n
  {
    var s := Decimal(n);
    assert DigitValue(s[|s| - 1], 10) == Some(n % 10);
    if n >= 10 {
      DecimalValue(n / 10);
      assert s[..|s| - 1] == Decimal(n / 10);
    }
  }

  lemma {:induction false} DigitRunAll(s: string, radix: nat)
    requires forall k :: 0 <= k < |s| ==> DigitValue(s[k], radix).Some?
    ensures DigitRun(s, radix) == |s|
  {
    if s != [] {
      assert s[0] == s[0];
      DigitRunAll(s[1..], radix);
    }
  }

  /** A line number in decimal reads back as itself. */
  lemma ParseDecimal(n: nat)
    ensures ParseInt(Decimal(n)) == Int(n)
  {
    var s := Decimal(n);
    DecimalValue(n);
    assert TrimStart(s) == s by {
      assert '0' <= s[0] <= '9';
      assert !IsJsSpace(s[0]);
    }
    DigitRunAll(s, 10);
    assert s[..|s|] == s;
  }

  /** With the "0x" prefix the digits are read in base 16. */
  lemma ParseHex(d: string)
    requires d != [] && forall k :: 0 <= k < |d| ==> DigitValue(d[k], 16).Some?
    ensures ParseInt("0x" + d) == Int(DigitsValue(d, 16))
  {
    var s := "0x" + d;
    assert s[0] == '0' && s[1] == 'x' && s[2..] == d;
    assert TrimStart(s) == s by {
      assert !IsJsSpace(s[0]);
    }
    DigitRunAll(d, 16);
    assert d[..|d|] == d;
    var m := DigitsValue(d, 16);
    assert ParseInt(s) == Int(m);
  }

  function NullLens(a: EnclaveAssignment): CodeLens {
    CodeLens(ParseInt(a.line), Command(a.level, "vscle.null"))
  }

  /** `makeLens_`. */
  function MakeLensAll(topology: Option<Topology>): (lenses: seq<CodeLens>)
    ensures topology.None? ==> lenses == []
    ensures topology.Some? ==> |lenses| == |topology.value.functions| + |topology.value.globalScopedVars|
    ensures topology.Some? ==> forall k :: 0 <= k < |lenses| ==>
      lenses[k].command.command == "vscle.null" &&
      lenses[k].command.title == (topology.value.functions + topology.value.globalScopedVars)[k].level
  {
    if topology.None? then []
    else
      var all := topology.value.functions + topology.value.globalScopedVars;
      seq(|all|, k requires 0 <= k < |all| => NullLens(all[k]))
  }

  /** The functions come first, then the global variables. */
  lemma LensAllOrder(top: Topology, k: nat)
    requires k < |top.functions| + |top.globalScopedVars|
    ensures var lenses := MakeLensAll(Some(top));
      var a := if k < |top.functions| then top.functions[k] else top.globalScopedVars[k - |top.functions|];
      lenses[k] == NullLens(a)
  {
  }

  /** An assignment whose line is written in decimal gets a lens on that line. */
  lemma NullLensLine(a: EnclaveAssignment, n: nat)
    requires a.line == Decimal(n)
    ensures NullLens(a).line == Int(n)
  {
    ParseDecimal(n);
  }
}
