/** The type-checking pass over the heap: every method does to the scopes what the tables say. */
module TypeCheckPass {
  import opened LexicalScopes
  import opened AST
  import opened Programs
  import opened ScopeTrees
  import opened SymbolTables
  import opened Diagnostics
  import opened MaterializeTypes
  import opened TypeChecks

  ghost function State(nodes: set<ScopedASTNode>, dc: DiagnosticConsumer): Checked
    reads nodes, ScopeSet(nodes), dc
  {
    Checked(TablesOf(nodes), dc.emitted)
  }

  ghost predicate VarPlaced(v: Var, n: ScopedASTNode, nodes: set<ScopedASTNode>, owner: Owner) {
    && (v.value.Some? ==> ExprPlaced(v.value.value, n, nodes, owner))
    && (v.declaredType.Some? ==> v.declaredType.value.slot in owner)
    && n !in ValueUnder(v.value)
  }

  /** The two methods for variables and for parameters do the same. */
  method VisitVar(v: Var, ls: Scope, lc: LexicalContext<Decl>, dc: DiagnosticConsumer, ghost n: ScopedASTNode,
                  ghost nodes: set<ScopedASTNode>, ghost mine: set<ScopedASTNode>, ghost owner: Owner)
    requires TreeOk(lc.scopeStorage, ScopesOf(nodes)) && n in nodes && n.scope == ls
    requires VarPlaced(v, n, mine, owner) && mine <= nodes
    modifies lc, nodes, ScopeSet(nodes), dc
    ensures TreeOk(lc.scopeStorage, ScopesOf(nodes)) && old(lc.scopeStorage) <= lc.scopeStorage
    ensures ScopesKept(old(ScopesOf(nodes)), ScopesOf(nodes), mine)
    ensures forall s :: s in ScopeSet(nodes) ==> s in old(ScopeSet(nodes)) || fresh(s)
    ensures State(nodes, dc) == CheckVar(TypingOf(owner), old(State(nodes, dc)), v, n)
    decreases v.value, 1
  {
    hide TreeOk, TypingOf, ExprPlaced, ValueUnder, ValueChecked, Inserted, Refusal, TableOf;
    ghost var m, c := TypingOf(owner), State(nodes, dc);
    TableIn(n, nodes);
    var refused := Refuse(v, ls, dc, n, owner);
    if refused {
      return;
    }
    assert State(nodes, dc) == c;
    VisitValue(v, ls, lc, dc, n, nodes, mine, owner);
  }

  /** The value is visited first, and the variable entered after it. */
  method VisitValue(v: Var, ls: Scope, lc: LexicalContext<Decl>, dc: DiagnosticConsumer, ghost n: ScopedASTNode,
                    ghost nodes: set<ScopedASTNode>, ghost mine: set<ScopedASTNode>, ghost owner: Owner)
    requires TreeOk(lc.scopeStorage, ScopesOf(nodes)) && n in nodes && n.scope == ls
    requires VarPlaced(v, n, mine, owner) && mine <= nodes && Entry(TableOf(n), v.name) == []
    modifies lc, nodes, ScopeSet(nodes), dc
    ensures TreeOk(lc.scopeStorage, ScopesOf(nodes)) && old(lc.scopeStorage) <= lc.scopeStorage
    ensures ScopesKept(old(ScopesOf(nodes)), ScopesOf(nodes), mine)
    ensures forall s :: s in ScopeSet(nodes) ==> s in old(ScopeSet(nodes)) || fresh(s)
    ensures State(nodes, dc) == Inserted(ValueChecked(TypingOf(owner), old(State(nodes, dc)), v), v, n)
    decreases v.value, 0
  {
    hide TreeOk, TypingOf, ExprPlaced, CheckBlocks, BlocksUnder, Inserted, TableOf, TablesOf;
    ghost var m, c, scopes := TypingOf(owner), State(nodes, dc), ScopesOf(nodes);
    TableIn(n, nodes);
    if v.value.Some? {
      CheckBlocksLocal(m, c, v.value.value.blocks);
      VisitExpr(v.value.value, ls, lc, dc, n, nodes, mine, owner);
      assert ScopesOf(nodes)[n] == scopes[n];
      TableIn(n, nodes);
    }
    Insert(v, ls, dc, n, lc.scopeStorage, nodes);
  }

  /** The checks before the value is looked at; past them a type or a value is there, as the deduction asserts. */
  method Refuse(v: Var, ls: Scope, dc: DiagnosticConsumer, ghost n: ScopedASTNode,
                ghost owner: Owner) returns (refused: bool)
    requires n.scope == ls && (v.declaredType.Some? ==> v.declaredType.value.slot in owner)
    modifies dc
    ensures var refusal := Refusal(TypingOf(owner), old(TableOf(n)), v);
            && refused == refusal.Some?
            && (refused ==> dc.emitted == old(dc.emitted) + refusal.value) && (!refused ==> dc.emitted == old(dc.emitted))
    ensures !refused ==> Entry(TableOf(n), v.name) == []
    ensures !refused ==> v.value.Some? || (v.declaredType.Some? && !v.declaredType.value.slot.ty.IsUnknown())
  {
    if |ls.GetDecls(v.name)| > 0 {
      dc.Emit(Redefinition(v.name));
      dc.Emit(PreviouslyDeclared);
      return true;
    }
    if v.value.None? && v.declaredType.None? {
      dc.Emit(CannotDefaultInitialize);
      return true;
    }
    if v.declaredType.Some? && v.declaredType.value.slot.ty.IsUnknown() {
      return true;
    }
    return false;
  }

  method Insert(v: Var, ls: Scope, ghost dc: DiagnosticConsumer, ghost n: ScopedASTNode, ghost storage: seq<Scope>,
                ghost nodes: set<ScopedASTNode>)
    requires TreeOk(storage, ScopesOf(nodes)) && n in nodes && n.scope == ls && Entry(TableOf(n), v.name) == []
    modifies ls`symbolTable
    ensures State(nodes, dc) == Inserted(old(State(nodes, dc)), v, n)
  {
    hide TreeOk;
    InsertAt(ls, v.name, v.decl, n, storage, nodes);
  }

  method VisitExpr(e: Expr, ls: Scope, lc: LexicalContext<Decl>, dc: DiagnosticConsumer, ghost n: ScopedASTNode,
                   ghost nodes: set<ScopedASTNode>, ghost mine: set<ScopedASTNode>, ghost owner: Owner)
    requires TreeOk(lc.scopeStorage, ScopesOf(nodes)) && n in nodes && n.scope == ls
    requires ExprPlaced(e, n, mine, owner) && mine <= nodes
    modifies lc, nodes, ScopeSet(nodes), dc
    ensures TreeOk(lc.scopeStorage, ScopesOf(nodes)) && old(lc.scopeStorage) <= lc.scopeStorage
    ensures ScopesKept(old(ScopesOf(nodes)), ScopesOf(nodes), mine)
    ensures forall s :: s in ScopeSet(nodes) ==> s in old(ScopeSet(nodes)) || fresh(s)
    ensures State(nodes, dc) == CheckBlocks(TypingOf(owner), old(State(nodes, dc)), e.blocks)
    decreases e
  {
    hide TreeOk, State, TypingOf, ScopeSet, BlockPlaced, CheckBlock, CheckBlocks;
    ghost var m, c := TypingOf(owner), State(nodes, dc);
    NothingChecked(m, c, n);
    assert e.blocks[..0] == [];
    for k := 0 to |e.blocks|
      invariant TreeOk(lc.scopeStorage, ScopesOf(nodes)) && old(lc.scopeStorage) <= lc.scopeStorage
      invariant ScopesKept(old(ScopesOf(nodes)), ScopesOf(nodes), mine) && n.scope == ls
      invariant forall s :: s in ScopeSet(nodes) ==> s in old(ScopeSet(nodes)) || fresh(s)
      invariant TypingOf(owner) == m && State(nodes, dc) == CheckBlocks(m, c, e.blocks[..k])
    {
      ExprPart(m, c, e, k);
      ghost var scopes := ScopesOf(nodes);
      VisitBlock(e.blocks[k], ls, lc, dc, n, nodes, mine, owner);
      assert ScopesOf(nodes)[n] == scopes[n];
    }
    assert e.blocks[..|e.blocks|] == e.blocks;
  }

  lemma NothingChecked(m: Typing, c: Checked, n: ScopedASTNode)
    ensures CheckBlocks(m, c, []) == c && CheckStmts(m, c, [], n) == c
  {
  }

  lemma ExprPart(m: Typing, c: Checked, e: Expr, k: nat)
    requires k < |e.blocks|
    ensures CheckBlocks(m, c, e.blocks[..k + 1]) == CheckBlock(m, CheckBlocks(m, c, e.blocks[..k]), e.blocks[k])
  {
    hide CheckBlock;
    assert e.blocks[..k + 1][..k] == e.blocks[..k];
  }

  lemma BlockPart(m: Typing, c: Checked, b: BlockStmt, k: nat)
    requires k < |b.stmts| && b.node !in StmtsUnder(b.stmts)
    ensures CheckStmts(m, c, b.stmts[..k + 1], b.node) ==
            CheckStmt(m, CheckStmts(m, c, b.stmts[..k], b.node), b.stmts[k], b.node)
    ensures b.node !in StmtUnder(b.stmts[k])
  {
    hide CheckStmt, StmtUnder;
    assert b.stmts[..k + 1][..k] == b.stmts[..k];
    StmtIsUnder(b.stmts, k);
  }

  lemma {:induction false} StmtIsUnder(ss: seq<Stmt>, k: nat)
    requires k < |ss|
    ensures StmtUnder(ss[k]) <= StmtsUnder(ss)
  {
    if k < |ss| - 1 {
      StmtIsUnder(ss[..|ss| - 1], k);
    }
  }

  method VisitBlock(b: BlockStmt, ls: Scope, lc: LexicalContext<Decl>, dc: DiagnosticConsumer, ghost n: ScopedASTNode,
                    ghost nodes: set<ScopedASTNode>, ghost mine: set<ScopedASTNode>, ghost owner: Owner)
    requires TreeOk(lc.scopeStorage, ScopesOf(nodes)) && n in nodes && n.scope == ls
    requires BlockPlaced(b, n, mine, owner) && mine <= nodes
    modifies lc, nodes, ScopeSet(nodes), dc
    ensures TreeOk(lc.scopeStorage, ScopesOf(nodes)) && old(lc.scopeStorage) <= lc.scopeStorage
    ensures ScopesKept(old(ScopesOf(nodes)), ScopesOf(nodes), mine)
    ensures forall s :: s in ScopeSet(nodes) ==> s in old(ScopeSet(nodes)) || fresh(s)
    ensures State(nodes, dc) == CheckBlock(TypingOf(owner), old(State(nodes, dc)), b)
    decreases b
  {
    hide TreeOk, TypingOf, TablesOf, ScopeSet, StmtPlaced, CheckStmt, CheckStmts, StmtsUnder;
    ghost var m, c := TypingOf(owner), State(nodes, dc);
    var inner := Enter(b.node, ls, lc, n, nodes, mine);
    ghost var entered := ScopesOf(nodes);
    NothingChecked(m, c, b.node);
    assert b.stmts[..0] == [];
    for k := 0 to |b.stmts|
      invariant TreeOk(lc.scopeStorage, ScopesOf(nodes)) && old(lc.scopeStorage) <= lc.scopeStorage
      invariant ScopesKept(old(ScopesOf(nodes)), ScopesOf(nodes), mine) && ScopesKept(entered, ScopesOf(nodes), mine)
      invariant forall s :: s in ScopeSet(nodes) ==> s in old(ScopeSet(nodes)) || fresh(s)
      invariant TypingOf(owner) == m && State(nodes, dc) == CheckStmts(m, c, b.stmts[..k], b.node)
    {
      BlockPart(m, c, b, k);
      assert ScopesOf(nodes)[b.node] == entered[b.node];
      VisitStmt(b.stmts[k], inner, lc, dc, b.node, nodes, mine, owner);
    }
    assert b.stmts[..|b.stmts|] == b.stmts;
  }

  method VisitStmt(s: Stmt, ls: Scope, lc: LexicalContext<Decl>, dc: DiagnosticConsumer, ghost n: ScopedASTNode,
                   ghost nodes: set<ScopedASTNode>, ghost mine: set<ScopedASTNode>, ghost owner: Owner)
    requires TreeOk(lc.scopeStorage, ScopesOf(nodes)) && n in nodes && n.scope == ls
    requires mine <= nodes && StmtPlaced(s, n, mine, owner) && n !in StmtUnder(s)
    modifies lc, nodes, ScopeSet(nodes), dc
    ensures TreeOk(lc.scopeStorage, ScopesOf(nodes)) && old(lc.scopeStorage) <= lc.scopeStorage
    ensures ScopesKept(old(ScopesOf(nodes)), ScopesOf(nodes), mine)
    ensures forall s :: s in ScopeSet(nodes) ==> s in old(ScopeSet(nodes)) || fresh(s)
    ensures State(nodes, dc) == CheckStmt(TypingOf(owner), old(State(nodes, dc)), s, n)
    decreases s
  {
    hide TreeOk, State, TypingOf, ScopeSet, ExprPlaced, BlockPlaced, CheckVar, CheckBlock, CheckBlocks, BlocksUnder;
    match s {
      case VarStmt(v) => VisitVar(OfVarDecl(v), ls, lc, dc, n, nodes, mine, owner);
      case TypeStmt(_) =>
      case ExprStmt(e) => VisitExpr(e, ls, lc, dc, n, nodes, mine, owner);
      case NestedBlock(b) => VisitBlock(b, ls, lc, dc, n, nodes, mine, owner);
    }
  }

  method VisitParams(f: FuncDecl, ls: Scope, lc: LexicalContext<Decl>, dc: DiagnosticConsumer,
                     ghost nodes: set<ScopedASTNode>,
                     ghost mine: set<ScopedASTNode>, ghost owner: Owner)
    requires TreeOk(lc.scopeStorage, ScopesOf(nodes)) && mine <= nodes && f.node in nodes && f.node.scope == ls
             && FuncDeep(f, mine, owner)
    modifies lc, nodes, ScopeSet(nodes), dc
    ensures TreeOk(lc.scopeStorage, ScopesOf(nodes)) && old(lc.scopeStorage) <= lc.scopeStorage
    ensures ScopesKept(old(ScopesOf(nodes)), ScopesOf(nodes), mine)
    ensures forall s :: s in ScopeSet(nodes) ==> s in old(ScopeSet(nodes)) || fresh(s)
    ensures State(nodes, dc) == CheckParams(TypingOf(owner), old(State(nodes, dc)), f.params, f.node)
  {
    hide TreeOk, TypingOf, TablesOf, ScopeSet, State, FuncDeep, CheckVar, CheckParams;
    ghost var m, c, entered := TypingOf(owner), State(nodes, dc), ScopesOf(nodes);
    NoParams(m, c, f.node);
    assert f.params[..0] == [];
    for k := 0 to |f.params|
      invariant TreeOk(lc.scopeStorage, ScopesOf(nodes)) && old(lc.scopeStorage) <= lc.scopeStorage
      invariant ScopesKept(entered, ScopesOf(nodes), mine)
      invariant forall s :: s in ScopeSet(nodes) ==> s in old(ScopeSet(nodes)) || fresh(s)
      invariant TypingOf(owner) == m && State(nodes, dc) == CheckParams(m, c, f.params[..k], f.node)
    {
      ParamPart(m, c, f, k, mine, owner);
      assert ScopesOf(nodes)[f.node] == entered[f.node];
      VisitVar(OfParam(f.params[k]), ls, lc, dc, f.node, nodes, mine, owner);
    }
    assert f.params[..|f.params|] == f.params;
  }

  lemma NoParams(m: Typing, c: Checked, n: ScopedASTNode)
    ensures CheckParams(m, c, [], n) == c
  {
  }

  lemma ParamPart(m: Typing, c: Checked, f: FuncDecl, k: nat, mine: set<ScopedASTNode>, owner: Owner)
    requires k < |f.params| && FuncDeep(f, mine, owner)
    ensures CheckParams(m, c, f.params[..k + 1], f.node) ==
            CheckVar(m, CheckParams(m, c, f.params[..k], f.node), OfParam(f.params[k]), f.node)
    ensures VarPlaced(OfParam(f.params[k]), f.node, mine, owner)
  {
    hide CheckVar, ExprPlaced;
    assert f.params[..k + 1][..k] == f.params[..k];
    assert f.params[k] in f.params;
    FuncIsInner(f, mine, owner);
    ParamIsUnder(f.params, k);
  }

  lemma {:induction false} ParamIsUnder(ps: seq<FuncParamDecl>, k: nat)
    requires k < |ps|
    ensures ValueUnder(ps[k].defaultValue) <= ParamsUnder(ps)
  {
    if k < |ps| - 1 {
      ParamIsUnder(ps[..|ps| - 1], k);
    }
  }

  /** A function: its parameters in its own scope, then its body. */
  method VisitFunc(f: FuncDecl, ls: Scope, lc: LexicalContext<Decl>, dc: DiagnosticConsumer, ghost outer: ScopedASTNode,
                   ghost nodes: set<ScopedASTNode>, ghost mine: set<ScopedASTNode>, ghost owner: Owner)
    requires TreeOk(lc.scopeStorage, ScopesOf(nodes)) && mine <= nodes && outer in nodes && outer.scope == ls
    requires f.node.enclosing == outer && FuncDeep(f, mine, owner)
    modifies lc, nodes, ScopeSet(nodes), dc
    ensures TreeOk(lc.scopeStorage, ScopesOf(nodes)) && old(lc.scopeStorage) <= lc.scopeStorage
    ensures ScopesKept(old(ScopesOf(nodes)), ScopesOf(nodes), mine)
    ensures forall s :: s in ScopeSet(nodes) ==> s in old(ScopeSet(nodes)) || fresh(s)
    ensures State(nodes, dc) == CheckFunc(TypingOf(owner), old(State(nodes, dc)), f)
  {
    hide TreeOk, TypingOf, TablesOf, ScopeSet, ExprPlaced, BlockPlaced, CheckBlock, CheckParams;
    var inner := Enter(f.node, ls, lc, outer, nodes, mine);
    ghost var entered := ScopesOf(nodes);
    VisitParams(f, inner, lc, dc, nodes, mine, owner);
    if f.body.Some? {
      assert ScopesOf(nodes)[f.node] == entered[f.node];
      VisitBlock(f.body.value, inner, lc, dc, f.node, nodes, mine, owner);
    }
  }

  /** An `impl` block: its functions in order. */
  method VisitImpl(i: ImplDecl, ls: Scope, lc: LexicalContext<Decl>, dc: DiagnosticConsumer, ghost outer: ScopedASTNode,
                   ghost nodes: set<ScopedASTNode>, ghost mine: set<ScopedASTNode>, ghost owner: Owner)
    requires TreeOk(lc.scopeStorage, ScopesOf(nodes)) && mine <= nodes && outer in nodes && outer.scope == ls
    requires i.node in mine && i.node.enclosing == outer
    requires forall f :: f in i.impls ==> f.node.enclosing == i.node && FuncDeep(f, mine, owner)
    modifies lc, nodes, ScopeSet(nodes), dc
    ensures TreeOk(lc.scopeStorage, ScopesOf(nodes)) && old(lc.scopeStorage) <= lc.scopeStorage
    ensures ScopesKept(old(ScopesOf(nodes)), ScopesOf(nodes), mine)
    ensures forall s :: s in ScopeSet(nodes) ==> s in old(ScopeSet(nodes)) || fresh(s)
    ensures State(nodes, dc) == CheckFuncs(TypingOf(owner), old(State(nodes, dc)), i.impls)
  {
    hide TreeOk, TypingOf, TablesOf, ScopeSet, FuncDeep, CheckFunc, CheckFuncs;
    ghost var m, c := TypingOf(owner), State(nodes, dc);
    var inner := Enter(i.node, ls, lc, outer, nodes, mine);
    ghost var entered := ScopesOf(nodes);
    NoFuncs(m, c);
    assert i.impls[..0] == [];
    for k := 0 to |i.impls|
      invariant TreeOk(lc.scopeStorage, ScopesOf(nodes)) && old(lc.scopeStorage) <= lc.scopeStorage
      invariant ScopesKept(old(ScopesOf(nodes)), ScopesOf(nodes), mine) && ScopesKept(entered, ScopesOf(nodes), mine)
      invariant forall s :: s in ScopeSet(nodes) ==> s in old(ScopeSet(nodes)) || fresh(s)
      invariant TypingOf(owner) == m && State(nodes, dc) == CheckFuncs(m, c, i.impls[..k])
    {
      OneMoreFunc(m, c, i.impls, k);
      assert i.impls[k] in i.impls && ScopesOf(nodes)[i.node] == entered[i.node];
      VisitFunc(i.impls[k], inner, lc, dc, i.node, nodes, mine, owner);
    }
    assert i.impls[..|i.impls|] == i.impls;
  }

  lemma NoFuncs(m: Typing, c: Checked)
    ensures CheckFuncs(m, c, []) == c
  {
  }

  lemma OneMoreFunc(m: Typing, c: Checked, fs: seq<FuncDecl>, k: nat)
    requires k < |fs|
    ensures CheckFuncs(m, c, fs[..k + 1]) == CheckFunc(m, CheckFuncs(m, c, fs[..k]), fs[k])
  {
    hide CheckFunc;
    assert fs[..k + 1][..k] == fs[..k];
  }

  /** Where the parser puts the nodes of a declaration, inner ones included. */
  ghost predicate Located(d: Decl, root: ScopedASTNode, mine: set<ScopedASTNode>, owner: Owner) {
    && root.kind == File && DeclDeep(d, root, mine, owner)
    && match d
       case FuncD(f) => f.node.enclosing == root
       case ImplD(i) => i.node.kind == Impl && i.node.enclosing == root && forall f :: f in i.impls ==> f.node.enclosing == i.node
       case _ => true
  }

  method VisitDecl(d: Decl, ls: Scope, lc: LexicalContext<Decl>, dc: DiagnosticConsumer, ghost root: ScopedASTNode,
                   ghost nodes: set<ScopedASTNode>, ghost mine: set<ScopedASTNode>, ghost owner: Owner)
    requires TreeOk(lc.scopeStorage, ScopesOf(nodes)) && mine <= nodes && root in nodes && root.scope == ls
             && Located(d, root, mine, owner)
    modifies lc, nodes, ScopeSet(nodes), dc
    ensures TreeOk(lc.scopeStorage, ScopesOf(nodes)) && old(lc.scopeStorage) <= lc.scopeStorage
    ensures ScopesKept(old(ScopesOf(nodes)), ScopesOf(nodes), mine)
    ensures forall s :: s in ScopeSet(nodes) ==> s in old(ScopeSet(nodes)) || fresh(s)
    ensures State(nodes, dc) == CheckDecl(TypingOf(owner), old(State(nodes, dc)), d, root)
  {
    hide TreeOk, TypingOf, State, ScopeSet, ExprPlaced, FuncDeep, CheckFunc, CheckFuncs, CheckVar, FuncUnder,
         FuncsUnder, ValueUnder;
    DeclIsInner(d, root, mine, owner);
    match d {
      case VarD(v) => VisitVar(OfVarDecl(v), ls, lc, dc, root, nodes, mine, owner);
      case FuncD(f) => VisitFunc(f, ls, lc, dc, root, nodes, mine, owner);
      case ImplD(i) => VisitImpl(i, ls, lc, dc, root, nodes, mine, owner);
      case _ =>
    }
  }

  /** The pass over a unit whose file scope is open. */
  method Run(p: ProgramDecl, lc: LexicalContext<Decl>, dc: DiagnosticConsumer, ghost nodes: set<ScopedASTNode>,
             ghost mine: set<ScopedASTNode>, ghost owner: Owner)
    requires TreeOk(lc.scopeStorage, ScopesOf(nodes)) && mine <= nodes && p.node in nodes && p.node.scope != null
    requires forall d :: d in p.decls ==> Located(d, p.node, mine, owner)
    modifies lc, nodes, ScopeSet(nodes), dc
    ensures TreeOk(lc.scopeStorage, ScopesOf(nodes)) && old(lc.scopeStorage) <= lc.scopeStorage
    ensures ScopesKept(old(ScopesOf(nodes)), ScopesOf(nodes), mine)
    ensures forall s :: s in ScopeSet(nodes) ==> s in old(ScopeSet(nodes)) || fresh(s)
    ensures State(nodes, dc) == CheckDecls(TypingOf(owner), old(State(nodes, dc)), p.decls, p.node)
  {
    hide TreeOk, TypingOf, TablesOf, ScopeSet, Located, CheckDecl, CheckDecls;
    ghost var m, c, entered := TypingOf(owner), State(nodes, dc), ScopesOf(nodes);
    var ls := p.node.scope;
    NoDecls(m, c, p.node);
    assert p.decls[..0] == [];
    for k := 0 to |p.decls|
      invariant TreeOk(lc.scopeStorage, ScopesOf(nodes)) && old(lc.scopeStorage) <= lc.scopeStorage
      invariant ScopesKept(entered, ScopesOf(nodes), mine)
      invariant forall s :: s in ScopeSet(nodes) ==> s in old(ScopeSet(nodes)) || fresh(s)
      invariant TypingOf(owner) == m && State(nodes, dc) == CheckDecls(m, c, p.decls[..k], p.node)
    {
      OneMoreDecl(m, c, p.decls, k, p.node);
      assert p.decls[k] in p.decls && ScopesOf(nodes)[p.node] == entered[p.node];
      VisitDecl(p.decls[k], ls, lc, dc, p.node, nodes, mine, owner);
    }
    assert p.decls[..|p.decls|] == p.decls;
  }

  lemma NoDecls(m: Typing, c: Checked, root: ScopedASTNode)
    ensures CheckDecls(m, c, [], root) == c
  {
  }

  lemma OneMoreDecl(m: Typing, c: Checked, ds: seq<Decl>, k: nat, root: ScopedASTNode)
    requires k < |ds|
    ensures CheckDecls(m, c, ds[..k + 1], root) == CheckDecl(m, CheckDecls(m, c, ds[..k], root), ds[k], root)
  {
    hide CheckDecl;
    assert ds[..k + 1][..k] == ds[..k];
  }
}
