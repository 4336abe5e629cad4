/** The first sub-pass: scopes are opened, and the file's type and alias names are entered in its scope. */
module ForwardDeclareTypes {
  import opened LexicalScopes
  import opened AST
  import opened NormalForms
  import opened Programs
  import opened ScopeTrees
  import opened Diagnostics

  /** The report for one more declaration: its name is already taken. */
  function TypeClash(m: Env, d: Decl): seq<Diagnostic> {
    if d.TypeD? && d.t.name in m then [TypeRedefinition(d.t.name), PreviouslyDeclared] else []
  }

  function TypeClashes(ds: seq<Decl>): seq<Diagnostic> {
    if ds == [] then [] else TypeClashes(ds[..|ds| - 1]) + TypeClash(FirstTypes(ds[..|ds| - 1]), ds[|ds| - 1])
  }

  method DeclareType(t: TypeDecl, ls: Scope, dc: DiagnosticConsumer)
    modifies ls`symbolTable, dc
    ensures if old(ls.GetDecls(t.name)) == []
            then ls.symbolTable == old(ls.symbolTable)[t.name := [TypeD(t)]] && dc.emitted == old(dc.emitted)
            else ls.symbolTable == old(ls.symbolTable)
                 && dc.emitted == old(dc.emitted) + [TypeRedefinition(t.name), PreviouslyDeclared]
  {
    var existing := ls.GetDecls(t.name);
    if |existing| > 0 {
      dc.Emit(TypeRedefinition(t.name));
      dc.Emit(PreviouslyDeclared);
      return;
    }
    assert [] + [TypeD(t)] == [TypeD(t)];
    ls.Insert(t.name, TypeD(t));
  }

  /** Open the scopes of these nodes, outer ones first. */
  method EnterNodes(ns: seq<ScopedASTNode>, root: ScopedASTNode, lc: LexicalContext<Decl>,
                    ghost nodes: set<ScopedASTNode>)
    requires TreeOk(lc.scopeStorage, ScopesOf(nodes)) && root in nodes && root.scope != null
    requires InOrder(ns, root) && forall n :: n in ns ==> n in nodes
    modifies lc, nodes
    ensures TreeOk(lc.scopeStorage, ScopesOf(nodes)) && old(lc.scopeStorage) <= lc.scopeStorage
    ensures Entered(old(ScopesOf(nodes)), ScopesOf(nodes), Among(ns))
    ensures forall n :: n in nodes && (old(n.scope) != null || n !in ns) ==> n.scope == old(n.scope)
    ensures forall n :: n in ns && old(n.scope) == null ==> n.scope != null && fresh(n.scope) && n.scope.symbolTable == map[]
  {
    hide TreeOk, Entered;
    ghost var m := ScopesOf(nodes);
    assert Entered(m, m, Among(ns[..0])) by { EnteredNothing(m); }
    for k := 0 to |ns|
      invariant TreeOk(lc.scopeStorage, ScopesOf(nodes)) && old(lc.scopeStorage) <= lc.scopeStorage
      invariant root.scope != null && forall n :: n in ns[..k] ==> n.scope != null
      invariant Entered(m, ScopesOf(nodes), Among(ns[..k]))
      invariant forall n :: n in nodes && n !in ns[..k] ==> n.scope == old(n.scope)
      invariant forall n :: n in ns[..k] && old(n.scope) == null ==> fresh(n.scope) && n.scope.symbolTable == map[]
      invariant forall n :: n in nodes && old(n.scope) != null ==> n.scope == old(n.scope)
    {
      ghost var m' := ScopesOf(nodes);
      var parent := ns[k].enclosing.scope;
      var _ := EnterScope(lc, ns[k], parent, nodes);
      EnteredTwice(m, m', ScopesOf(nodes), Among(ns[..k]), {ns[k]});
      assert Among(ns[..k + 1]) == Among(ns[..k]) + {ns[k]};
    }
    assert ns[..|ns|] == ns;
  }

  lemma EnteredNothing(m: ScopeMap)
    ensures Entered(m, m, {})
    ensures Entered(m, m, Among([]))
  {
  }

  /** One top-level declaration, given the types declared before it. */
  method DeclareIn(d: Decl, root: ScopedASTNode, ghost m: Env, ls: Scope, lc: LexicalContext<Decl>,
                   dc: DiagnosticConsumer, ghost nodes: set<ScopedASTNode>)
    requires TreeOk(lc.scopeStorage, ScopesOf(nodes)) && root in nodes && root.scope == ls
    requires DeclPlaced(d, root) && forall n :: n in DeclNodes(d) ==> n in nodes
    requires ls.symbolTable == TypeTable(m)
    modifies lc, nodes, ls`symbolTable, dc
    ensures TreeOk(lc.scopeStorage, ScopesOf(nodes)) && old(lc.scopeStorage) <= lc.scopeStorage
    ensures Entered(old(ScopesOf(nodes)), ScopesOf(nodes), Among(DeclNodes(d)))
    ensures forall n :: n in nodes && (old(n.scope) != null || n !in DeclNodes(d)) ==> n.scope == old(n.scope)
    ensures forall n :: n in DeclNodes(d) && old(n.scope) == null ==>
                            n.scope != null && fresh(n.scope) && n.scope.symbolTable == map[]
    ensures ls.symbolTable == TypeTable(AddType(m, d))
    ensures dc.emitted == old(dc.emitted) + TypeClash(m, d)
  {
    hide TreeOk, Entered, TypeTable, InOrder, DeclPlaced;
    EnteredNothing(ScopesOf(nodes));
    if d.TypeD? {
      TableOfOneMore(m, d.t);
      DeclareType(d.t, ls, dc);
    } else {
      DeclNodesInOrder(d, root);
      EnterNodes(DeclNodes(d), root, lc, nodes);
    }
  }

  /** The sub-pass over a unit that has not been visited before. */
  method ForwardDeclareType(p: ProgramDecl, lc: LexicalContext<Decl>, dc: DiagnosticConsumer,
                            ghost nodes: set<ScopedASTNode>)
    requires TreeOk(lc.scopeStorage, ScopesOf(nodes)) && Placed(p)
    requires {p.node} + Among(DeclsNodes(p.decls)) <= nodes
    requires p.node.scope == null && forall n :: n in DeclsNodes(p.decls) ==> n.scope == null
    modifies lc, nodes, dc
    ensures TreeOk(lc.scopeStorage, ScopesOf(nodes)) && old(lc.scopeStorage) <= lc.scopeStorage
    ensures Entered(old(ScopesOf(nodes)), ScopesOf(nodes), {p.node} + Among(DeclsNodes(p.decls)))
    ensures p.node.scope != null && fresh(p.node.scope) && p.node.scope.symbolTable == TypeTable(FirstTypes(p.decls))
    ensures forall n :: n in DeclsNodes(p.decls) ==> n.scope != null && fresh(n.scope) && n.scope.symbolTable == map[]
    ensures dc.emitted == old(dc.emitted) + TypeClashes(p.decls)
  {
    hide Nested, OneEach, Grown, Entered, TypeTable, Among, DeclPlaced, InOrder, DeclNodes, DeclsNodes,
         FirstTypes, AddType, TypeClash, TypeClashes;
    ghost var m := ScopesOf(nodes);
    var global := lc.GetGlobalScope();
    var ls := EnterScope(lc, p.node, global, nodes);
    NothingDeclared(p.node);
    assert p.decls[..0] == [];
    for i := 0 to |p.decls|
      invariant TreeOk(lc.scopeStorage, ScopesOf(nodes)) && old(lc.scopeStorage) <= lc.scopeStorage
      invariant Entered(m, ScopesOf(nodes), {p.node} + Among(DeclsNodes(p.decls[..i])))
      invariant p.node.scope == ls && fresh(ls) && ls.symbolTable == TypeTable(FirstTypes(p.decls[..i]))
      invariant forall n :: n in nodes && n != p.node && n !in DeclsNodes(p.decls[..i]) ==> n.scope == old(n.scope)
      invariant forall n :: n in DeclsNodes(p.decls[..i]) ==>
                              n in nodes && n.scope != null && n.scope != ls && fresh(n.scope) && n.scope.symbolTable == map[]
      invariant dc.emitted == old(dc.emitted) + TypeClashes(p.decls[..i])
    {
      OneMore(p.decls, i, p.node);
      InUnit(p, p.decls[i]);
      ghost var m', before := ScopesOf(nodes), p.decls[..i];
      DeclareIn(p.decls[i], p.node, FirstTypes(before), ls, lc, dc, nodes);
      EnteredTwice(m, m', ScopesOf(nodes), {p.node} + Among(DeclsNodes(before)), Among(DeclNodes(p.decls[i])));
    }
    assert p.decls[..|p.decls|] == p.decls;
  }

  lemma OneMore(ds: seq<Decl>, i: nat, root: ScopedASTNode)
    requires i < |ds|
    ensures DeclsNodes(ds[..i + 1]) == DeclsNodes(ds[..i]) + DeclNodes(ds[i])
    ensures {root} + Among(DeclsNodes(ds[..i + 1])) == {root} + Among(DeclsNodes(ds[..i])) + Among(DeclNodes(ds[i]))
    ensures FirstTypes(ds[..i + 1]) == AddType(FirstTypes(ds[..i]), ds[i])
    ensures TypeClashes(ds[..i + 1]) == TypeClashes(ds[..i]) + TypeClash(FirstTypes(ds[..i]), ds[i])
  {
    assert ds[..i + 1][..i] == ds[..i];
  }

  lemma InUnit(p: ProgramDecl, d: Decl)
    requires Placed(p) && d in p.decls
    ensures DeclPlaced(d, p.node)
    ensures forall n :: n in DeclNodes(d) ==> n in DeclsNodes(p.decls) && n in Among(DeclsNodes(p.decls)) && n != p.node
  {
    DeclNodesAreNodes(p.decls, d);
    match d {
      case ImplD(i) => FuncsNodesAreInner(i.impls, i.node);
      case _ =>
    }
  }

  lemma {:induction false} FuncsNodesAreInner(fs: seq<FuncDecl>, outer: ScopedASTNode)
    requires forall f :: f in fs ==> FuncPlaced(f, outer)
    ensures forall n :: n in FuncsNodes(fs) ==> n.kind != File
  {
    if fs != [] {
      FuncsNodesAreInner(fs[1..], outer);
      assert FuncPlaced(fs[0], outer);
      assert forall n :: n in FuncNodes(fs[0]) ==> n == fs[0].node || n in FuncNodes(fs[0])[1..];
    }
  }

  lemma NothingDeclared(root: ScopedASTNode)
    ensures TypeTable(FirstTypes([])) == map[] && {root} + Among(DeclsNodes([])) == {root}
    ensures DeclsNodes([]) == [] && TypeClashes([]) == []
  {
  }

  lemma TableOfOneMore(m: Env, t: TypeDecl)
    ensures t.name in TypeTable(m) <==> t.name in m
    ensures t.name in m ==> TypeTable(m)[t.name] != []
    ensures TypeTable(m)[t.name := [TypeD(t)]] == TypeTable(m[t.name := t])
  {
  }
}
