/** `sendTopology`: colouring the functions of the open document by the level
    the analyzer assigned to them. One "unhighlight" is sent, then one
    "highlight" per assignment whose trimmed name is the name of a function
    definition of the document. */
module Projection {
  import opened Base
  import opened Lsp
  import opened Analyzer
  import opened Parser

  /** The index of the last '/' of a path. */
  function LastSlash(p: string): (k: Option<nat>)
    ensures k.Some? ==> k.value < |p| && p[k.value] == '/'
    ensures k.Some? ==> forall j :: k.value < j < |p| ==> p[j] != '/'
    ensures k.None? ==> forall j :: 0 <= j < |p| ==> p[j] != '/'
  {
    if p == [] then None
    else if p[|p| - 1] == '/' then Some(|p| - 1)
    else LastSlash(p[..|p| - 1])
  }

  /** `path.parse(p).dir` for a path that does not end in '/'. */
  function DirName(p: string): (d: string)
    ensures d == "" <==> LastSlash(p).None?
  {
    match LastSlash(p)
    case None => ""
    case Some(k) => if k == 0 then "/" else p[..k]
  }

  /** `matchedSourceDir` is truthy: the document's directory is one of the
      source directories, and is not the empty string, which is falsy. */
  predicate Applies(dirs: seq<string>, docPath: string) {
    DirName(docPath) != "" && DirName(docPath) in dirs
  }

  /** The `levelSet` after the loop over `fs`: each level once, in the order
      in which it is first met. */
  function LevelSet(fs: seq<EnclaveAssignment>): seq<string> {
    if fs == [] then []
    else
      var r := LevelSet(fs[..|fs| - 1]);
      if fs[|fs| - 1].level in r then r else r + [fs[|fs| - 1].level]
  }

  ghost predicate Distinct(r: seq<string>) {
    forall i, j :: 0 <= i < j < |r| ==> r[i] != r[j]
  }

  /** Some assignment of `fs` has level `x`. */
  ghost predicate HasLevel(fs: seq<EnclaveAssignment>, x: string) {
    exists i :: 0 <= i < |fs| && fs[i].level == x
  }

  lemma HasLevelSnoc(fs: seq<EnclaveAssignment>, x: string)
    requires fs != []
    ensures HasLevel(fs, x) <==> x == fs[|fs| - 1].level || HasLevel(fs[..|fs| - 1], x)
  {
    var init := fs[..|fs| - 1];
    if HasLevel(fs, x) {
      var i :| 0 <= i < |fs| && fs[i].level == x;
      if i < |init| { assert init[i] == fs[i]; }
    }
    if HasLevel(init, x) {
      var i :| 0 <= i < |init| && init[i].level == x;
      assert fs[i] == init[i];
    }
  }

  /** The level set holds each level of `fs` exactly once. */
  lemma {:induction false} LevelSetExactly(fs: seq<EnclaveAssignment>)
    ensures Distinct(LevelSet(fs))
    ensures forall x :: x in LevelSet(fs) <==> HasLevel(fs, x)
  {
    if fs != [] {
      LevelSetExactly(fs[..|fs| - 1]);
      forall x ensures x in LevelSet(fs) <==> HasLevel(fs, x) {
        HasLevelSnoc(fs, x);
      }
    }
  }

  /** First-encounter order: wherever a later level occurs, each earlier
      level has already occurred. */
  lemma {:induction false} LevelSetOrder(fs: seq<EnclaveAssignment>, i: nat, j: nat, p: nat)
    requires i < j < |LevelSet(fs)| && p < |fs| && fs[p].level == LevelSet(fs)[j]
    ensures HasLevel(fs[..p], LevelSet(fs)[i])
  {
    var init := fs[..|fs| - 1];
    var r := LevelSet(init);
    LevelSetExactly(init);
    LevelSetExactly(fs);
    if p == |fs| - 1 {
      assert LevelSet(fs)[i] in r by {
        if fs[|fs| - 1].level !in r { assert i < |r|; }
      }
      assert init == fs[..p];
    } else {
      assert init[p] == fs[p];
      assert HasLevel(init, fs[p].level);
      assert j < |r| by {
        if fs[|fs| - 1].level !in r { assert LevelSet(fs) == r + [fs[|fs| - 1].level]; }
      }
      LevelSetOrder(init, i, j, p);
      assert init[..p] == fs[..p];
    }
  }

  /** The hue of the `k`-th of `n` levels: `360 / n` added `k` times. */
  function Hue(k: nat, n: nat): real
    requires n > 0
  {
    (k as real) * (360.0 / (n as real))
  }

  /** Each hue is the one before plus `360 / n`. */
  lemma HueStep(k: nat, n: nat)
    requires n > 0
    ensures Hue(k + 1, n) == Hue(k, n) + 360.0 / (n as real)
  {
  }

  /** Multiplying by a positive real keeps a strict order. */
  lemma MulStrict(a: real, b: real, c: real)
    requires a < b && 0.0 < c
    ensures a * c < b * c
  {
    assert (b - a) * c > 0.0;
  }

  /** The hues of the levels lie in [0, 360) and are pairwise distinct. */
  lemma HueRange(k: nat, k2: nat, n: nat)
    requires k < n && k2 < n
    ensures 0.0 <= Hue(k, n) < 360.0
    ensures Hue(k, n) == Hue(k2, n) ==> k == k2
  {
    var step := 360.0 / (n as real);
    assert step * (n as real) == 360.0;
    MulStrict(k as real, n as real, step);
    if k < k2 {
      MulStrict(k as real, k2 as real, step);
    } else if k2 < k {
      MulStrict(k2 as real, k as real, step);
    }
  }

  /** The position of a level in the level set. */
  function IndexIn(levels: seq<string>, level: string): (k: nat)
    requires level in levels
    ensures k < |levels| && levels[k] == level
  {
    if levels[0] == level then 0 else 1 + IndexIn(levels[1..], level)
  }

  /** `Color.hsl(i, 50, 65)` of the level's entry in `levelMap`. */
  function ColorOf(levels: seq<string>, level: string): Hsl
    requires level in levels
  {
    Hsl(Hue(IndexIn(levels, level), |levels|), 50, 65)
  }

  /** In a set without repetition the position of its `k`-th element is `k`. */
  lemma IndexOfDistinct(levels: seq<string>, k: nat)
    requires Distinct(levels) && k < |levels|
    ensures IndexIn(levels, levels[k]) == k
  {
  }

  /** The loop that fills `levelSet`. */
  method CollectLevels(fs: seq<EnclaveAssignment>) returns (levels: seq<string>)
    ensures levels == LevelSet(fs)
  {
    levels := [];
    var k := 0;
    while k < |fs|
      invariant k <= |fs|
      invariant levels == LevelSet(fs[..k])
    {
      assert fs[..k + 1][..k] == fs[..k];
      if fs[k].level !in levels {
        levels := levels + [fs[k].level];
      }
      k := k + 1;
    }
    assert fs[..|fs|] == fs;
  }

  /** The loop that fills `levelMap`, its hue `i` growing by `360 / size`. */
  method AssignColors(levels: seq<string>) returns (colors: map<string, Hsl>)
    requires Distinct(levels)
    ensures forall x :: x in colors <==> x in levels
    ensures forall x :: x in levels ==> colors[x] == ColorOf(levels, x)
  {
    colors := map[];
    var i: real := 0.0;
    var n := 0;
    while n < |levels|
      invariant n <= |levels|
      invariant |levels| > 0 ==> i == Hue(n, |levels|)
      invariant forall x :: x in colors <==> x in levels[..n]
      invariant forall m :: 0 <= m < n ==> levels[m] in colors && colors[levels[m]] == Hsl(Hue(m, |levels|), 50, 65)
    {
      assert levels[..n + 1] == levels[..n] + [levels[n]];
      HueStep(n, |levels|);
      colors := colors[levels[n] := Hsl(i, 50, 65)];
      i := i + 360.0 / (|levels| as real);
      n := n + 1;
    }
    assert levels[..n] == levels;
    forall x | x in levels ensures colors[x] == ColorOf(levels, x) {
      IndexOfDistinct(levels, IndexIn(levels, x));
    }
  }

  /** `d` is the first definition named `name` with its surrounding white
      space removed. */
  ghost predicate FirstNamed(defs: seq<FunctionDef>, name: string, d: FunctionDef) {
    exists k :: 0 <= k < |defs| && defs[k] == d && FunctionName(d) == Trim(name) &&
                (forall j :: 0 <= j < k ==> FunctionName(defs[j]) != Trim(name))
  }

  /** `defs.find(def => functionName(def) === name.trim())`. */
  function MatchDef(defs: seq<FunctionDef>, name: string): (d: Option<FunctionDef>)
    ensures d.Some? ==> FirstNamed(defs, name, d.value)
    ensures d.None? ==> forall j :: 0 <= j < |defs| ==> FunctionName(defs[j]) != Trim(name)
  {
    if defs == [] then None
    else if FunctionName(defs[0]) == Trim(name) then Some(defs[0])
    else
      var d := MatchDef(defs[1..], name);
      assert forall j :: 1 <= j < |defs| ==> defs[j] == defs[1..][j - 1];
      d
  }

  /** An assignment and the definition it was matched with. */
  datatype Pair = Pair(def: FunctionDef, level: string)

  /** The `map`/`filter` chain: the matched assignments, in order. */
  function Pairs(fs: seq<EnclaveAssignment>, defs: seq<FunctionDef>): seq<Pair> {
    FlatMap(PairFn(defs), fs)
  }

  /** What one assignment contributes: its match, if there is one. */
  function PairOf(a: EnclaveAssignment, defs: seq<FunctionDef>): seq<Pair> {
    match MatchDef(defs, a.name)
    case Some(d) => [Pair(d, a.level)]
    case None => []
  }

  function PairFn(defs: seq<FunctionDef>): EnclaveAssignment -> seq<Pair> {
    a => PairOf(a, defs)
  }

  /** `Pairs` keeps the order of the assignments ... */
  lemma PairsAppend(a: seq<EnclaveAssignment>, b: seq<EnclaveAssignment>, defs: seq<FunctionDef>)
    ensures Pairs(a + b, defs) == Pairs(a, defs) + Pairs(b, defs)
  {
    FlatMapAppend(PairFn(defs), a, b);
  }

  /** ... and an assignment contributes its match, or nothing when no
      definition has its name. */
  lemma PairsOfOne(a: EnclaveAssignment, defs: seq<FunctionDef>)
    ensures Pairs([a], defs) ==
      (if MatchDef(defs, a.name).Some? then [Pair(MatchDef(defs, a.name).value, a.level)] else [])
  {
    var f := PairFn(defs);
    assert [a][0] == a && [a][1..] == [];
    assert FlatMap(f, [a]) == f(a) + FlatMap(f, []);
    assert f(a) == PairOf(a, defs);
  }

  /** Every matched pair's level is in the level set, so the colour lookup
      for it finds an entry. */
  lemma {:induction false} PairLevels(fs: seq<EnclaveAssignment>, defs: seq<FunctionDef>)
    ensures forall p :: p in Pairs(fs, defs) ==> p.level in LevelSet(fs)
  {
    PairsHaveLevels(fs, defs);
    LevelSetExactly(fs);
  }

  /** Every matched pair carries the level of one of the assignments. */
  lemma {:induction false} PairsHaveLevels(fs: seq<EnclaveAssignment>, defs: seq<FunctionDef>)
    ensures forall p :: p in Pairs(fs, defs) ==> HasLevel(fs, p.level)
  {
    if fs != [] {
      PairsHaveLevels(fs[1..], defs);
      forall p | p in Pairs(fs, defs) ensures HasLevel(fs, p.level) {
        if p in Pairs(fs[1..], defs) {
          var i :| 0 <= i < |fs[1..]| && fs[1..][i].level == p.level;
          assert fs[i + 1] == fs[1..][i];
        } else {
          assert fs[0].level == p.level;
        }
      }
    }
  }

  /** The token line and column of the definition's stop token, or of its
      start token when it has none. */
  function EndOf(d: FunctionDef): Position {
    if d.stop.Some? then Position(d.stop.value.line, d.stop.value.charPositionInLine)
    else Position(d.start.line, d.start.charPositionInLine)
  }

  /** The highlighted range: the token lines are used as editor lines, the
      start shifted up by two and the end unshifted. */
  function HighlightRange(d: FunctionDef): Range {
    Range(Position(d.start.line - 2, d.start.charPositionInLine), EndOf(d))
  }

  function HighlightOf(p: Pair, levels: seq<string>): Outbound
    requires p.level in levels
  {
    Highlight(HighlightRange(p.def), ColorOf(levels, p.level), "30")
  }

  function HighlightsOf(ps: seq<Pair>, levels: seq<string>): seq<Outbound>
    requires forall p :: p in ps ==> p.level in levels
  {
    seq(|ps|, k requires 0 <= k < |ps| => HighlightOf(ps[k], levels))
  }

  /** What `sendTopology` sends for the document at `docPath` whose parse
      tree is `tree`. */
  function TopologyNotes(top: Topology, dirs: seq<string>, docPath: string, tree: Tree): seq<Outbound> {
    if !Applies(dirs, docPath) then [] else MatchedNotes(top, DefsIn(Preorder(tree)))
  }

  /** The "unhighlight" and the highlights sent for `top` when the document
      defines `defs`. */
  function MatchedNotes(top: Topology, defs: seq<FunctionDef>): seq<Outbound> {
    PairLevels(top.functions, defs);
    [Unhighlight] + HighlightsOf(Pairs(top.functions, defs), LevelSet(top.functions))
  }

  /** The `forEach` that sends one "highlight" per matched pair. */
  method SendHighlights(client: Client, pairs: seq<Pair>, levels: seq<string>, colors: map<string, Hsl>)
    requires forall p :: p in pairs ==> p.level in levels
    requires forall x :: x in levels ==> x in colors && colors[x] == ColorOf(levels, x)
    modifies client
    ensures client.sent == old(client.sent) + HighlightsOf(pairs, levels)
  {
    var k := 0;
    while k < |pairs|
      invariant k <= |pairs|
      invariant client.sent == old(client.sent) + HighlightsOf(pairs[..k], levels)
    {
      assert pairs[k] in pairs;
      assert HighlightsOf(pairs[..k + 1], levels) == HighlightsOf(pairs[..k], levels) + [HighlightOf(pairs[k], levels)];
      client.Send(Highlight(HighlightRange(pairs[k].def), colors[pairs[k].level], "30"));
      k := k + 1;
    }
    assert pairs[..k] == pairs;
  }

  /** `sendTopology(connection, top, settings, currentTextDocument)`. */
  method SendTopology(client: Client, top: Topology, dirs: seq<string>, docPath: string, tree: Tree)
    modifies client
    ensures client.sent == old(client.sent) + TopologyNotes(top, dirs, docPath, tree)
  {
    var textDocDir := DirName(docPath);
    if textDocDir != "" && textDocDir in dirs {
      var defs := FunctionDefinitions(tree);
      SendMatched(client, top, defs);
    } else {
      assert old(client.sent) + [] == old(client.sent);
    }
  }

  /** The body of `sendTopology` once the document is known to apply. */
  method SendMatched(client: Client, top: Topology, defs: seq<FunctionDef>)
    modifies client
    ensures client.sent == old(client.sent) + MatchedNotes(top, defs)
  {
    var assignments := top.functions;
    var levels := CollectLevels(assignments);
    LevelSetExactly(assignments);
    var colors := AssignColors(levels);
    client.Send(Unhighlight);
    var pairs := Pairs(assignments, defs);
    PairLevels(assignments, defs);
    SendHighlights(client, pairs, levels, colors);
    AppendAssoc(old(client.sent), [Unhighlight], HighlightsOf(pairs, levels));
  }

  /** Nothing is sent unless the document lies in a source directory; then one
      "unhighlight" comes first, followed by exactly one "highlight" per
      matched assignment, in assignment order, each over its definition's
      range and in its level's colour. */
  lemma TopologyNotesCases(top: Topology, dirs: seq<string>, docPath: string, tree: Tree)
    ensures var notes := TopologyNotes(top, dirs, docPath, tree);
      var ps := Pairs(top.functions, DefsIn(Preorder(tree)));
      (notes == [] <==> !Applies(dirs, docPath)) &&
      (Applies(dirs, docPath) ==>
        |notes| == 1 + |ps| && notes[0] == Unhighlight &&
        forall k :: 0 <= k < |ps| ==>
          notes[k + 1].Highlight? &&
          notes[k + 1].range.start == Position(ps[k].def.start.line - 2, ps[k].def.start.charPositionInLine) &&
          notes[k + 1].range.end == EndOf(ps[k].def) &&
          notes[k + 1].alpha == "30" &&
          ps[k].level in LevelSet(top.functions) &&
          notes[k + 1].color == ColorOf(LevelSet(top.functions), ps[k].level))
  {
    MatchedNotesCases(top, DefsIn(Preorder(tree)));
  }

  /** For any definitions: one "unhighlight", then one "highlight" per
      matched assignment, in order, over its definition's range, with alpha
      "30" and in its level's colour. */
  lemma MatchedNotesCases(top: Topology, defs: seq<FunctionDef>)
    ensures var notes := MatchedNotes(top, defs);
      var ps := Pairs(top.functions, defs);
      |notes| == 1 + |ps| && notes[0] == Unhighlight &&
      forall k :: 0 <= k < |ps| ==>
        notes[k + 1].Highlight? &&
        notes[k + 1].range.start == Position(ps[k].def.start.line - 2, ps[k].def.start.charPositionInLine) &&
        notes[k + 1].range.end == EndOf(ps[k].def) &&
        notes[k + 1].alpha == "30" &&
        ps[k].level in LevelSet(top.functions) &&
        notes[k + 1].color == ColorOf(LevelSet(top.functions), ps[k].level)
  {
    PairLevels(top.functions, defs);
    var ps := Pairs(top.functions, defs);
    var levels := LevelSet(top.functions);
    var hs := HighlightsOf(ps, levels);
    var notes := MatchedNotes(top, defs);
    assert notes == [Unhighlight] + hs;
    forall k | 0 <= k < |ps| ensures ps[k].level in levels && notes[k + 1] == HighlightOf(ps[k], levels) {
      assert ps[k] in ps;
      assert notes[k + 1] == hs[k];
    }
  }

  /** Distinct levels get distinct hues, every hue in [0, 360). */
  lemma ColorsSeparateLevels(fs: seq<EnclaveAssignment>, a: string, b: string)
    requires a in LevelSet(fs) && b in LevelSet(fs)
    ensures 0.0 <= ColorOf(LevelSet(fs), a).hue < 360.0
    ensures ColorOf(LevelSet(fs), a) == ColorOf(LevelSet(fs), b) <==> a == b
  {
    var levels := LevelSet(fs);
    HueRange(IndexIn(levels, a), IndexIn(levels, b), |levels|);
  }
}
