/** The recursive visitor that every pass derives from, for any pass at all: a run of a pass is a tree of
    visits, in which the pass decides which parts to visit, how often, in what order, and what to return. */
module Visitors {
  import opened QualTypes
  import opened LexicalScopes
  import opened AST
  import opened ScopeTrees

  /** One visit: the scoped node it is of, if any, the visits it makes, and its result. */
  datatype VisitTree<T> = VisitTree(node: Option<ScopedASTNode>, parts: seq<VisitTree<T>>, result: T)

  /** Visits follow the syntax tree: a scoped node is visited from within its enclosing node. */
  ghost predicate Follows<T>(v: VisitTree<T>, outer: ScopedASTNode?) {
    match v.node
    case None => forall p :: p in v.parts ==> Follows(p, outer)
    case Some(n) => n.enclosing == outer && forall p :: p in v.parts ==> Follows(p, n)
  }

  ghost function Visited<T>(v: VisitTree<T>): set<ScopedASTNode> {
    (if v.node.None? then {} else {v.node.value}) + VisitedAll(v.parts)
  }

  ghost function VisitedAll<T>(vs: seq<VisitTree<T>>): set<ScopedASTNode> {
    if vs == [] then {} else VisitedAll(vs[..|vs| - 1]) + Visited(vs[|vs| - 1])
  }

  lemma {:induction false} PartIsVisited<T>(vs: seq<VisitTree<T>>, i: nat)
    requires i < |vs|
    ensures Visited(vs[i]) <= VisitedAll(vs)
  {
    if i < |vs| - 1 {
      PartIsVisited(vs[..|vs| - 1], i);
    }
  }

  class RecursiveASTVisitor<T> {
    const lc: LexicalContext<Decl>
    var resultStack: seq<T>
    var currentScope: seq<Scope>

    constructor (lc: LexicalContext<Decl>)
      ensures this.lc == lc && resultStack == [] && currentScope == []
    {
      this.lc, resultStack, currentScope := lc, [], [];
    }

    /** The scope on top of the stack is the one of the node being visited. */
    ghost predicate At(outer: ScopedASTNode?, m: ScopeMap)
      reads this`currentScope
    {
      outer != null ==> outer in m && m[outer] != null && currentScope != [] && currentScope[|currentScope| - 1] == m[outer]
    }

    /** `Visit`: dispatch, then take the one result the dispatcher pushed. */
    method Visit(v: VisitTree<T>, ghost outer: ScopedASTNode?, ghost nodes: set<ScopedASTNode>) returns (r: T)
      requires Follows(v, outer) && Visited(v) <= nodes && (outer == null ==> v.node.Some?)
      requires TreeOk(lc.scopeStorage, ScopesOf(nodes)) && At(outer, ScopesOf(nodes))
      modifies this, lc, nodes
      ensures resultStack == old(resultStack) && currentScope == old(currentScope)
      ensures r == v.result
      ensures TreeOk(lc.scopeStorage, ScopesOf(nodes)) && Entered(old(ScopesOf(nodes)), ScopesOf(nodes), Visited(v))
      decreases v, 2
    {
      hide TreeOk, ScopesOf, Entered, Visited, Follows;
      Accept(v, outer, nodes);
      r := resultStack[|resultStack| - 1];
      resultStack := resultStack[..|resultStack| - 1];
    }

    /** The dispatchers: a node that opens a scope pushes it around its visit; every node pushes one result. */
    method Accept(v: VisitTree<T>, ghost outer: ScopedASTNode?, ghost nodes: set<ScopedASTNode>)
      requires Follows(v, outer) && Visited(v) <= nodes && (outer == null ==> v.node.Some?)
      requires TreeOk(lc.scopeStorage, ScopesOf(nodes)) && At(outer, ScopesOf(nodes))
      modifies this, lc, nodes
      ensures resultStack == old(resultStack) + [v.result] && currentScope == old(currentScope)
      ensures TreeOk(lc.scopeStorage, ScopesOf(nodes)) && Entered(old(ScopesOf(nodes)), ScopesOf(nodes), Visited(v))
      decreases v, 1
    {
      hide Nested, OneEach, Grown, ScopesOf, Entered;
      ghost var m := ScopesOf(nodes);
      ghost var parts := VisitedAll(v.parts);
      if v.node.None? {
        assert Visited(v) == parts;
        var r := VisitParts(v, outer, nodes);
        resultStack := resultStack + [r];
        return;
      }
      var node := v.node.value;
      var parent: Scope;
      if node.enclosing == null {
        parent := lc.GetGlobalScope();
      } else {
        parent := currentScope[|currentScope| - 1];
      }
      var s := EnterScope(lc, node, parent, nodes);
      ghost var m' := ScopesOf(nodes);
      currentScope := currentScope + [s];
      var r := VisitParts(v, node, nodes);
      EnteredTwice(m, m', ScopesOf(nodes), {node}, parts);
      resultStack := resultStack + [r];
      currentScope := currentScope[..|currentScope| - 1];
    }

    /** What a pass does with a node: visit some parts and settle on a result. */
    method VisitParts(v: VisitTree<T>, ghost outer: ScopedASTNode?, ghost nodes: set<ScopedASTNode>) returns (r: T)
      requires outer != null && VisitedAll(v.parts) <= nodes && forall p :: p in v.parts ==> Follows(p, outer)
      requires TreeOk(lc.scopeStorage, ScopesOf(nodes)) && At(outer, ScopesOf(nodes))
      modifies this, lc, nodes
      ensures resultStack == old(resultStack) && currentScope == old(currentScope) && r == v.result
      ensures TreeOk(lc.scopeStorage, ScopesOf(nodes))
      ensures Entered(old(ScopesOf(nodes)), ScopesOf(nodes), VisitedAll(v.parts))
      decreases v, 0
    {
      hide TreeOk, ScopesOf, Follows;
      ghost var m := ScopesOf(nodes);
      assert Entered(m, m, {});
      for i := 0 to |v.parts|
        invariant resultStack == old(resultStack) && currentScope == old(currentScope)
        invariant TreeOk(lc.scopeStorage, ScopesOf(nodes))
        invariant Entered(m, ScopesOf(nodes), VisitedAll(v.parts[..i]))
      {
        ghost var m', before := ScopesOf(nodes), VisitedAll(v.parts[..i]);
        PartIsVisited(v.parts, i);
        var _ := Visit(v.parts[i], outer, nodes);
        EnteredTwice(m, m', ScopesOf(nodes), before, Visited(v.parts[i]));
        assert v.parts[..i + 1][..i] == v.parts[..i];
      }
      assert v.parts[..|v.parts|] == v.parts;
      r := v.result;
    }
  }

  /** One pass: a fresh visitor over a file. */
  method RunPass<T>(lc: LexicalContext<Decl>, pass: VisitTree<T>, ghost nodes: set<ScopedASTNode>)
    returns (result: T, visitor: RecursiveASTVisitor<T>)
    requires TreeOk(lc.scopeStorage, ScopesOf(nodes))
    requires Visited(pass) <= nodes && pass.node.Some? && Follows(pass, null)
    modifies lc, nodes
    ensures TreeOk(lc.scopeStorage, ScopesOf(nodes)) && Entered(old(ScopesOf(nodes)), ScopesOf(nodes), Visited(pass))
    ensures result == pass.result && fresh(visitor) && visitor.resultStack == [] && visitor.currentScope == []
  {
    hide TreeOk, ScopesOf, Follows, Entered, Visited;
    visitor := new RecursiveASTVisitor<T>(lc);
    result := visitor.Visit(pass, null, nodes);
  }

  lemma {:induction false} EnteredNone(m: ScopeMap)
    ensures Entered(m, m, {})
  {
  }

  /** A sequence of passes, each a fresh visitor over some file: whatever they visit, each visited scoped node has
      one scope, nested in that of the node around it; no other node has one; each pass gives its result; and both stacks
      of each visitor end empty. */
  method RunPasses<T>(lc: LexicalContext<Decl>, passes: seq<VisitTree<T>>, ghost nodes: set<ScopedASTNode>)
    returns (results: seq<T>, ghost visitors: seq<RecursiveASTVisitor<T>>)
    requires TreeOk(lc.scopeStorage, ScopesOf(nodes))
    requires VisitedAll(passes) <= nodes && forall v :: v in passes ==> v.node.Some? && Follows(v, null)
    modifies lc, nodes
    ensures TreeOk(lc.scopeStorage, ScopesOf(nodes))
    ensures Entered(old(ScopesOf(nodes)), ScopesOf(nodes), VisitedAll(passes))
    ensures |results| == |passes| && forall i :: 0 <= i < |passes| ==> results[i] == passes[i].result
    ensures |visitors| == |passes| && forall v :: v in visitors ==> v.resultStack == [] && v.currentScope == []
  {
    hide TreeOk, ScopesOf, Follows, Entered, Visited;
    ghost var m := ScopesOf(nodes);
    EnteredNone(m);
    results, visitors := [], [];
    for i := 0 to |passes|
      invariant TreeOk(lc.scopeStorage, ScopesOf(nodes))
      invariant Entered(m, ScopesOf(nodes), VisitedAll(passes[..i]))
      invariant |results| == i && forall k :: 0 <= k < i ==> results[k] == passes[k].result
      invariant |visitors| == i && forall v :: v in visitors ==> fresh(v) && v.resultStack == [] && v.currentScope == []
    {
      ghost var m', before := ScopesOf(nodes), VisitedAll(passes[..i]);
      PartIsVisited(passes, i);
      var r, visitor := RunPass(lc, passes[i], nodes);
      results, visitors := results + [r], visitors + [visitor];
      EnteredTwice(m, m', ScopesOf(nodes), before, Visited(passes[i]));
      assert passes[..i + 1][..i] == passes[..i];
    }
    assert passes[..|passes|] == passes;
  }
}
