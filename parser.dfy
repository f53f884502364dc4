/** The parts of the C parse tree the server reads: the declarator of a
    function definition, whose identifier `functionName` finds, and the
    collection of function definitions and declarations in the order a
    tree walker enters them. */
module Parser {
  import opened Base

  /** A `directDeclarator` node, through the three accessors the server
      calls: `Identifier()`, `directDeclarator()` and `declarator()`. */
  datatype DirectDeclarator = DirectDeclarator(
    identifier: Option<string>,
    child: Option<DirectDeclarator>,
    declarator: Option<Declarator>)

  /** A `declarator` node: a pointer part the server ignores, then its
      `directDeclarator()`. */
  datatype Declarator = Declarator(direct: DirectDeclarator)

  /** The search of `functionName` ends at an identifier: the node has one,
      or else its nested direct declarator leads to one, or else it has a
      declarator that does. The C grammar guarantees this of every direct
      declarator it produces. */
  predicate Named(dd: DirectDeclarator) {
    dd.identifier.Some? ||
    (if dd.child.Some? then Named(dd.child.value)
     else dd.declarator.Some? && Named(dd.declarator.value.direct))
  }

  /** Every identifier anywhere below a direct declarator. */
  ghost function Identifiers(dd: DirectDeclarator): set<string> {
    (if dd.identifier.Some? then {dd.identifier.value} else {}) +
    (if dd.child.Some? then Identifiers(dd.child.value) else {}) +
    (if dd.declarator.Some? then Identifiers(dd.declarator.value.direct) else {})
  }

  /** `go` of `functionName`: the node's identifier if it has one, else the
      name of its nested direct declarator, else the name of its
      declarator's direct declarator. */
  function NameOf(dd: DirectDeclarator): (n: string)
    requires Named(dd)
    ensures n in Identifiers(dd)
    ensures dd.identifier.Some? ==> n == dd.identifier.value
  {
    if dd.identifier.Some? then dd.identifier.value
    else if dd.child.Some? then NameOf(dd.child.value)
    else NameOf(dd.declarator.value.direct)
  }

  /** Suffixes (`f(int)`, `a[3]`) and parentheses (`(f)`) around a named
      declarator do not change its name. */
  lemma NameThroughWrappers(dd: DirectDeclarator, d: Option<Declarator>)
    requires Named(dd)
    ensures Named(DirectDeclarator(None, Some(dd), d)) &&
            NameOf(DirectDeclarator(None, Some(dd), d)) == NameOf(dd)
    ensures Named(DirectDeclarator(None, None, Some(Declarator(dd)))) &&
            NameOf(DirectDeclarator(None, None, Some(Declarator(dd)))) == NameOf(dd)
  {
  }

  /** A direct declarator with an unnamed nested direct declarator has no
      name, even when its declarator would have one: the nested node is
      tried first. */
  lemma ChildTakesPrecedence(dd: DirectDeclarator)
    requires dd.identifier.None? && dd.child.Some? && !Named(dd.child.value)
    ensures !Named(dd)
  {
  }

  type NamedDeclarator = d: Declarator | Named(d.direct)
    witness Declarator(DirectDeclarator(Some("f"), None, None))

  /** A token's place: `line` counts from 1, `charPositionInLine` from 0. */
  datatype Token = Token(line: int, charPositionInLine: int)

  /** A `functionDefinition` node: its declarator and its first and last
      tokens (`stop` may be undefined). */
  datatype FunctionDef = FunctionDef(declarator: NamedDeclarator, start: Token, stop: Option<Token>)

  /** `functionName(def)`. */
  function FunctionName(def: FunctionDef): (n: string)
    ensures n in Identifiers(def.declarator.direct)
  {
    NameOf(def.declarator.direct)
  }

  /** A `declaration` node, by its first token. */
  datatype Declaration = Declaration(start: Token)

  datatype Rule =
    | FunctionDefinitionRule(def: FunctionDef)
    | DeclarationRule(decl: Declaration)
    | OtherRule

  /** A parse tree: the rule of a node and its children in order. */
  datatype Tree = Tree(rule: Rule, children: seq<Tree>)

  function Width(t: Tree): nat {
    |t.children|
  }

  /** The nodes in the order a walker enters them: a node, then its
      children's subtrees from left to right. */
  function Preorder(t: Tree): (p: seq<Tree>)
    ensures |p| >= 1 && p[0] == t
    decreases t, Width(t) + 1
  {
    [t] + PreorderFrom(t, 0)
  }

  function PreorderFrom(t: Tree, k: nat): seq<Tree>
    requires k <= |t.children|
    decreases t, |t.children| - k
  {
    if k == |t.children| then [] else Preorder(t.children[k]) + PreorderFrom(t, k + 1)
  }

  /** The function definitions among `nodes`, in order. */
  function DefsIn(nodes: seq<Tree>): seq<FunctionDef> {
    if nodes == [] then []
    else (if nodes[0].rule.FunctionDefinitionRule? then [nodes[0].rule.def] else []) + DefsIn(nodes[1..])
  }

  /** The declarations among `nodes`, in order. */
  function DeclsIn(nodes: seq<Tree>): seq<Declaration> {
    if nodes == [] then []
    else (if nodes[0].rule.DeclarationRule? then [nodes[0].rule.decl] else []) + DeclsIn(nodes[1..])
  }

  lemma {:induction false} DefsInAppend(a: seq<Tree>, b: seq<Tree>)
    ensures DefsIn(a + b) == DefsIn(a) + DefsIn(b)
  {
    if a == [] {
      assert a + b == b;
    } else {
      assert (a + b)[1..] == a[1..] + b;
      DefsInAppend(a[1..], b);
    }
  }

  lemma {:induction false} DeclsInAppend(a: seq<Tree>, b: seq<Tree>)
    ensures DeclsIn(a + b) == DeclsIn(a) + DeclsIn(b)
  {
    if a == [] {
      assert a + b == b;
    } else {
      assert (a + b)[1..] == a[1..] + b;
      DeclsInAppend(a[1..], b);
    }
  }

  /** The listener of `functionDefinitions`: `enterFunctionDefinition` pushes
      the node. */
  class FunctionListener {
    var functions: seq<FunctionDef>

    constructor()
      ensures functions == []
    {
      functions := [];
    }

    /** `ParseTreeWalker.DEFAULT.walk(listener, t)`. */
    method Walk(t: Tree)
      modifies this
      ensures functions == old(functions) + DefsIn(Preorder(t))
      decreases t
    {
      if t.rule.FunctionDefinitionRule? {
        functions := functions + [t.rule.def];
      }
      assert [t][0] == t && [t][1..] == [];
      assert DefsIn([t]) == (if t.rule.FunctionDefinitionRule? then [t.rule.def] else []) + DefsIn([]);
      ghost var before := old(functions) + DefsIn([t]);
      assert functions == before;
      var k := 0;
      while k < |t.children|
        invariant k <= |t.children|
        invariant before + DefsIn(PreorderFrom(t, 0)) == functions + DefsIn(PreorderFrom(t, k))
      {
        DefsInAppend(Preorder(t.children[k]), PreorderFrom(t, k + 1));
        Walk(t.children[k]);
        k := k + 1;
      }
      assert PreorderFrom(t, k) == [] && DefsIn(PreorderFrom(t, k)) == [];
      assert Preorder(t) == [t] + PreorderFrom(t, 0);
      DefsInAppend([t], PreorderFrom(t, 0));
      assert functions == before + DefsIn(PreorderFrom(t, 0));
    }
  }

  /** The listener of `declarations`: `enterDeclaration` pushes the node. */
  class DeclarationListener {
    var decls: seq<Declaration>

    constructor()
      ensures decls == []
    {
      decls := [];
    }

    method Walk(t: Tree)
      modifies this
      ensures decls == old(decls) + DeclsIn(Preorder(t))
      decreases t
    {
      if t.rule.DeclarationRule? {
        decls := decls + [t.rule.decl];
      }
      assert [t][0] == t && [t][1..] == [];
      assert DeclsIn([t]) == (if t.rule.DeclarationRule? then [t.rule.decl] else []) + DeclsIn([]);
      ghost var before := old(decls) + DeclsIn([t]);
      assert decls == before;
      var k := 0;
      while k < |t.children|
        invariant k <= |t.children|
        invariant before + DeclsIn(PreorderFrom(t, 0)) == decls + DeclsIn(PreorderFrom(t, k))
      {
        DeclsInAppend(Preorder(t.children[k]), PreorderFrom(t, k + 1));
        Walk(t.children[k]);
        k := k + 1;
      }
      assert PreorderFrom(t, k) == [] && DeclsIn(PreorderFrom(t, k)) == [];
      assert Preorder(t) == [t] + PreorderFrom(t, 0);
      DeclsInAppend([t], PreorderFrom(t, 0));
      assert decls == before + DeclsIn(PreorderFrom(t, 0));
    }
  }

  /** `functionDefinitions(tree)`. */
  method FunctionDefinitions(tree: Tree) returns (defs: seq<FunctionDef>)
    ensures defs == DefsIn(Preorder(tree))
  {
    var listener := new FunctionListener();
    listener.Walk(tree);
    defs := listener.functions;
  }

  /** `declarations(tree)`. */
  method Declarations(tree: Tree) returns (decls: seq<Declaration>)
    ensures decls == DeclsIn(Preorder(tree))
  {
    var listener := new DeclarationListener();
    listener.Walk(tree);
    decls := listener.decls;
  }

  /** A definition is listed exactly when some entered node is that
      definition. */
  lemma {:induction false} DefsInExactly(nodes: seq<Tree>, d: FunctionDef)
    ensures d in DefsIn(nodes) <==> exists i :: 0 <= i < |nodes| && nodes[i].rule == FunctionDefinitionRule(d)
  {
    if nodes != [] {
      DefsInExactly(nodes[1..], d);
      if exists i :: 0 <= i < |nodes| - 1 && nodes[1..][i].rule == FunctionDefinitionRule(d) {
        var i :| 0 <= i < |nodes| - 1 && nodes[1..][i].rule == FunctionDefinitionRule(d);
        assert nodes[i + 1] == nodes[1..][i];
      }
      if exists i :: 0 <= i < |nodes| && nodes[i].rule == FunctionDefinitionRule(d) {
        var i :| 0 <= i < |nodes| && nodes[i].rule == FunctionDefinitionRule(d);
        if i > 0 { assert nodes[1..][i - 1] == nodes[i]; }
      }
    }
  }

  /** A definition node is entered before anything inside it, so it comes
      first among the definitions of its subtree. */
  lemma EnclosingFirst(t: Tree)
    requires t.rule.FunctionDefinitionRule?
    ensures DefsIn(Preorder(t)) != [] && DefsIn(Preorder(t))[0] == t.rule.def
  {
    DefsInAppend([t], PreorderFrom(t, 0));
    assert [t][1..] == [];
  }

  /** A subtree's definitions come after those of the subtrees to its left. */
  lemma {:induction false} SiblingsInOrder(t: Tree, k: nat)
    requires k < |t.children|
    ensures DefsIn(PreorderFrom(t, k)) == DefsIn(Preorder(t.children[k])) + DefsIn(PreorderFrom(t, k + 1))
  {
    DefsInAppend(Preorder(t.children[k]), PreorderFrom(t, k + 1));
  }
}
