/** The symbol tables of a unit's scopes, as a value, and the steps that change them. */
module SymbolTables {
  import opened QualTypes
  import opened LexicalScopes
  import opened AST
  import opened Programs
  import opened ScopeTrees

  type Table = map<string, seq<Decl>>

  ghost function Entry(t: Table, name: string): seq<Decl> {
    if name in t then t[name] else []
  }

  /** The table of each node's scope; a node that has no scope yet has nothing declared in it. */
  type Tables = map<ScopedASTNode, Table>

  ghost function ScopeSet(nodes: set<ScopedASTNode>): set<Scope>
    reads nodes
  {
    set n | n in nodes && n.scope != null :: n.scope
  }

  ghost function TableOf(n: ScopedASTNode): Table
    reads n, n.scope
  {
    if n.scope == null then map[] else n.scope.symbolTable
  }

  ghost function TablesOf(nodes: set<ScopedASTNode>): Tables
    reads nodes, ScopeSet(nodes)
  {
    map n | n in nodes :: TableOf(n)
  }

  ghost predicate TablesEmpty(ts: Tables, ns: set<ScopedASTNode>) {
    forall n :: n in ns ==> n in ts && ts[n] == map[]
  }

  lemma TableIn(n: ScopedASTNode, nodes: set<ScopedASTNode>)
    requires n in nodes
    ensures n in TablesOf(nodes) && TablesOf(nodes)[n] == TableOf(n)
  {
  }

  /** The global scope belongs to no node. */
  lemma {:induction false} GlobalApart(storage: seq<Scope>, nodes: set<ScopedASTNode>)
    requires TreeOk(storage, ScopesOf(nodes))
    ensures storage != [] && storage[0] !in ScopeSet(nodes)
  {
    hide Nested, Grown;
    forall n | n in nodes && n.scope != null
      ensures n.scope != storage[0]
    {
      assert ScopesOf(nodes)[n] == n.scope;
    }
  }

  // The scoped nodes inside an expression, at any depth.

  ghost function BlocksUnder(bs: seq<BlockStmt>): set<ScopedASTNode> {
    if bs == [] then {} else BlocksUnder(bs[..|bs| - 1]) + BlockUnder(bs[|bs| - 1])
  }

  ghost function BlockUnder(b: BlockStmt): set<ScopedASTNode> {
    {b.node} + StmtsUnder(b.stmts)
  }

  ghost function StmtsUnder(ss: seq<Stmt>): set<ScopedASTNode> {
    if ss == [] then {} else StmtsUnder(ss[..|ss| - 1]) + StmtUnder(ss[|ss| - 1])
  }

  ghost function StmtUnder(s: Stmt): set<ScopedASTNode> {
    match s
    case VarStmt(v) => if v.initializer.Some? then BlocksUnder(v.initializer.value.blocks) else {}
    case TypeStmt(_) => {}
    case ExprStmt(e) => BlocksUnder(e.blocks)
    case NestedBlock(b) => BlockUnder(b)
  }

  ghost function ValueUnder(e: Option<Expr>): set<ScopedASTNode> {
    if e.None? then {} else BlocksUnder(e.value.blocks)
  }

  ghost function ParamsUnder(ps: seq<FuncParamDecl>): set<ScopedASTNode> {
    if ps == [] then {} else ParamsUnder(ps[..|ps| - 1]) + ValueUnder(ps[|ps| - 1].defaultValue)
  }

  ghost function FuncUnder(f: FuncDecl): set<ScopedASTNode> {
    {f.node} + ParamsUnder(f.params) + if f.body.None? then {} else BlockUnder(f.body.value)
  }

  ghost function FuncsUnder(fs: seq<FuncDecl>): set<ScopedASTNode> {
    if fs == [] then {} else FuncsUnder(fs[..|fs| - 1]) + FuncUnder(fs[|fs| - 1])
  }

  ghost function DeclUnder(d: Decl): set<ScopedASTNode> {
    match d
    case VarD(v) => ValueUnder(v.initializer)
    case FuncD(f) => FuncUnder(f)
    case ImplD(i) => {i.node} + FuncsUnder(i.impls)
    case _ => {}
  }

  /** Every scoped node of a unit other than the file's own. */
  ghost function DeclsUnder(ds: seq<Decl>): set<ScopedASTNode> {
    if ds == [] then {} else DeclsUnder(ds[..|ds| - 1]) + DeclUnder(ds[|ds| - 1])
  }

  // The type nodes of the variables declared in blocks, at any depth.

  ghost function BlocksLocals(bs: seq<BlockStmt>): set<TypeSlot> {
    if bs == [] then {} else BlocksLocals(bs[..|bs| - 1]) + BlockLocals(bs[|bs| - 1])
  }

  ghost function BlockLocals(b: BlockStmt): set<TypeSlot> {
    StmtsLocals(b.stmts)
  }

  ghost function StmtsLocals(ss: seq<Stmt>): set<TypeSlot> {
    if ss == [] then {} else StmtsLocals(ss[..|ss| - 1]) + StmtLocals(ss[|ss| - 1])
  }

  ghost function StmtLocals(s: Stmt): set<TypeSlot> {
    match s
    case VarStmt(v) =>
      (if v.declaredType.Some? then {v.declaredType.value.slot} else {}) +
      if v.initializer.Some? then BlocksLocals(v.initializer.value.blocks) else {}
    case TypeStmt(_) => {}
    case ExprStmt(e) => BlocksLocals(e.blocks)
    case NestedBlock(b) => BlockLocals(b)
  }

  ghost function ValueLocals(e: Option<Expr>): set<TypeSlot> {
    if e.None? then {} else BlocksLocals(e.value.blocks)
  }

  ghost function ParamsLocals(ps: seq<FuncParamDecl>): set<TypeSlot> {
    if ps == [] then {} else ParamsLocals(ps[..|ps| - 1]) + ValueLocals(ps[|ps| - 1].defaultValue)
  }

  ghost function FuncLocals(f: FuncDecl): set<TypeSlot> {
    ParamsLocals(f.params) + if f.body.None? then {} else BlockLocals(f.body.value)
  }

  ghost function FuncsLocals(fs: seq<FuncDecl>): set<TypeSlot> {
    if fs == [] then {} else FuncsLocals(fs[..|fs| - 1]) + FuncLocals(fs[|fs| - 1])
  }

  ghost function DeclLocals(d: Decl): set<TypeSlot> {
    match d
    case VarD(v) => ValueLocals(v.initializer)
    case FuncD(f) => FuncLocals(f)
    case ImplD(i) => FuncsLocals(i.impls)
    case _ => {}
  }

  ghost function DeclsLocals(ds: seq<Decl>): set<TypeSlot> {
    if ds == [] then {} else DeclsLocals(ds[..|ds| - 1]) + DeclLocals(ds[|ds| - 1])
  }

  // Blocks are nested under the node around them and not inside themselves, and the types of variables are nodes of the unit.

  ghost predicate ExprPlaced(e: Expr, outer: ScopedASTNode, nodes: set<ScopedASTNode>, owner: Owner) {
    forall b :: b in e.blocks ==> BlockPlaced(b, outer, nodes, owner)
  }

  ghost predicate BlockPlaced(b: BlockStmt, outer: ScopedASTNode, nodes: set<ScopedASTNode>, owner: Owner) {
    && b.node in nodes && b.node.kind == Block && b.node.enclosing == outer && b.node !in StmtsUnder(b.stmts)
    && forall s :: s in b.stmts ==> StmtPlaced(s, b.node, nodes, owner)
  }

  ghost predicate StmtPlaced(s: Stmt, outer: ScopedASTNode, nodes: set<ScopedASTNode>, owner: Owner) {
    match s
    case VarStmt(v) =>
      && (v.initializer.Some? ==> ExprPlaced(v.initializer.value, outer, nodes, owner))
      && (v.declaredType.Some? ==> v.declaredType.value.slot in owner)
    case TypeStmt(_) => true
    case ExprStmt(e) => ExprPlaced(e, outer, nodes, owner)
    case NestedBlock(b) => BlockPlaced(b, outer, nodes, owner)
  }

  ghost predicate FuncDeep(f: FuncDecl, nodes: set<ScopedASTNode>, owner: Owner) {
    && f.node in nodes && f.node.kind == Function
    && (f.body.Some? ==> BlockPlaced(f.body.value, f.node, nodes, owner))
    && forall p :: p in f.params ==>
         && p.declaredType.slot in owner
         && (p.defaultValue.Some? ==> ExprPlaced(p.defaultValue.value, f.node, nodes, owner))
  }

  ghost predicate DeclDeep(d: Decl, outer: ScopedASTNode, nodes: set<ScopedASTNode>, owner: Owner) {
    match d
    case VarD(v) => StmtPlaced(VarStmt(v), outer, nodes, owner)
    case ImplD(i) => i.node in nodes && forall f :: f in i.impls ==> FuncDeep(f, nodes, owner)
    case FuncD(f) => FuncDeep(f, nodes, owner)
    case _ => true
  }

  // Nested nodes are block nodes, so they are neither the file's node nor a function's.

  ghost predicate AllBlocks(ns: set<ScopedASTNode>, nodes: set<ScopedASTNode>) {
    forall n :: n in ns ==> n.kind == Block && n in nodes
  }

  lemma {:induction false} BlocksAreBlocks(bs: seq<BlockStmt>, outer: ScopedASTNode, nodes: set<ScopedASTNode>,
                                           owner: Owner)
    requires forall b :: b in bs ==> BlockPlaced(b, outer, nodes, owner)
    ensures AllBlocks(BlocksUnder(bs), nodes)
    decreases bs
  {
    hide BlockPlaced, BlockUnder;
    if bs != [] {
      BlocksAreBlocks(bs[..|bs| - 1], outer, nodes, owner);
      BlockIsBlocks(bs[|bs| - 1], outer, nodes, owner);
    }
  }

  lemma {:induction false} BlockIsBlocks(b: BlockStmt, outer: ScopedASTNode, nodes: set<ScopedASTNode>, owner: Owner)
    requires BlockPlaced(b, outer, nodes, owner)
    ensures AllBlocks(BlockUnder(b), nodes)
    decreases b
  {
    hide StmtPlaced;
    StmtsAreBlocks(b.stmts, b.node, nodes, owner);
  }

  lemma {:induction false} StmtsAreBlocks(ss: seq<Stmt>, outer: ScopedASTNode, nodes: set<ScopedASTNode>, owner: Owner)
    requires forall s :: s in ss ==> StmtPlaced(s, outer, nodes, owner)
    ensures AllBlocks(StmtsUnder(ss), nodes)
    decreases ss
  {
    hide StmtPlaced, StmtUnder;
    if ss != [] {
      StmtsAreBlocks(ss[..|ss| - 1], outer, nodes, owner);
      StmtIsBlocks(ss[|ss| - 1], outer, nodes, owner);
    }
  }

  lemma {:induction false} StmtIsBlocks(s: Stmt, outer: ScopedASTNode, nodes: set<ScopedASTNode>, owner: Owner)
    requires StmtPlaced(s, outer, nodes, owner)
    ensures AllBlocks(StmtUnder(s), nodes)
    decreases s
  {
    hide BlockPlaced, BlocksUnder, BlockUnder;
    match s {
      case VarStmt(v) => if v.initializer.Some? { BlocksAreBlocks(v.initializer.value.blocks, outer, nodes, owner); }
      case TypeStmt(_) =>
      case ExprStmt(e) => BlocksAreBlocks(e.blocks, outer, nodes, owner);
      case NestedBlock(b) => BlockIsBlocks(b, outer, nodes, owner);
    }
  }

  lemma {:induction false} ParamsAreBlocks(ps: seq<FuncParamDecl>, outer: ScopedASTNode, nodes: set<ScopedASTNode>,
                                           owner: Owner)
    requires forall p :: p in ps && p.defaultValue.Some? ==> ExprPlaced(p.defaultValue.value, outer, nodes, owner)
    ensures AllBlocks(ParamsUnder(ps), nodes)
  {
    hide BlocksUnder, BlockPlaced;
    if ps != [] {
      var p := ps[|ps| - 1];
      ParamsAreBlocks(ps[..|ps| - 1], outer, nodes, owner);
      if p.defaultValue.Some? {
        BlocksAreBlocks(p.defaultValue.value.blocks, outer, nodes, owner);
      }
    }
  }

  // Those type nodes are nodes of the unit.

  lemma {:induction false} BlocksLocalsOwned(bs: seq<BlockStmt>, outer: ScopedASTNode, nodes: set<ScopedASTNode>,
                                             owner: Owner)
    requires forall b :: b in bs ==> BlockPlaced(b, outer, nodes, owner)
    ensures BlocksLocals(bs) <= owner.Keys
    decreases bs
  {
    hide BlockPlaced, BlockLocals;
    if bs != [] {
      BlocksLocalsOwned(bs[..|bs| - 1], outer, nodes, owner);
      BlockLocalsOwned(bs[|bs| - 1], outer, nodes, owner);
    }
  }

  lemma {:induction false} BlockLocalsOwned(b: BlockStmt, outer: ScopedASTNode, nodes: set<ScopedASTNode>, owner: Owner)
    requires BlockPlaced(b, outer, nodes, owner)
    ensures BlockLocals(b) <= owner.Keys
    decreases b
  {
    hide StmtPlaced;
    StmtsLocalsOwned(b.stmts, b.node, nodes, owner);
  }

  lemma {:induction false} StmtsLocalsOwned(ss: seq<Stmt>, outer: ScopedASTNode, nodes: set<ScopedASTNode>, owner: Owner)
    requires forall s :: s in ss ==> StmtPlaced(s, outer, nodes, owner)
    ensures StmtsLocals(ss) <= owner.Keys
    decreases ss
  {
    hide StmtPlaced, StmtLocals;
    if ss != [] {
      StmtsLocalsOwned(ss[..|ss| - 1], outer, nodes, owner);
      StmtLocalsOwned(ss[|ss| - 1], outer, nodes, owner);
    }
  }

  lemma {:induction false} StmtLocalsOwned(s: Stmt, outer: ScopedASTNode, nodes: set<ScopedASTNode>, owner: Owner)
    requires StmtPlaced(s, outer, nodes, owner)
    ensures StmtLocals(s) <= owner.Keys
    decreases s
  {
    hide BlockPlaced, BlocksLocals, BlockLocals;
    match s {
      case VarStmt(v) => if v.initializer.Some? { BlocksLocalsOwned(v.initializer.value.blocks, outer, nodes, owner); }
      case TypeStmt(_) =>
      case ExprStmt(e) => BlocksLocalsOwned(e.blocks, outer, nodes, owner);
      case NestedBlock(b) => BlockLocalsOwned(b, outer, nodes, owner);
    }
  }

  lemma {:induction false} ParamsLocalsOwned(ps: seq<FuncParamDecl>, outer: ScopedASTNode, nodes: set<ScopedASTNode>,
                                             owner: Owner)
    requires forall p :: p in ps && p.defaultValue.Some? ==> ExprPlaced(p.defaultValue.value, outer, nodes, owner)
    ensures ParamsLocals(ps) <= owner.Keys
  {
    hide BlocksLocals, BlockPlaced;
    if ps != [] {
      var p := ps[|ps| - 1];
      ParamsLocalsOwned(ps[..|ps| - 1], outer, nodes, owner);
      if p.defaultValue.Some? {
        BlocksLocalsOwned(p.defaultValue.value.blocks, outer, nodes, owner);
      }
    }
  }

  lemma {:induction false} FuncsLocalsOwned(fs: seq<FuncDecl>, nodes: set<ScopedASTNode>, owner: Owner)
    requires forall f :: f in fs ==> FuncDeep(f, nodes, owner)
    ensures FuncsLocals(fs) <= owner.Keys
  {
    hide ExprPlaced, BlockPlaced, BlockLocals, ParamsLocals;
    if fs != [] {
      var f := fs[|fs| - 1];
      FuncsLocalsOwned(fs[..|fs| - 1], nodes, owner);
      assert FuncDeep(f, nodes, owner);
      ParamsLocalsOwned(f.params, f.node, nodes, owner);
      if f.body.Some? {
        BlockLocalsOwned(f.body.value, f.node, nodes, owner);
      }
    }
  }

  lemma {:induction false} DeclLocalsOwned(d: Decl, root: ScopedASTNode, nodes: set<ScopedASTNode>, owner: Owner)
    requires DeclDeep(d, root, nodes, owner)
    ensures DeclLocals(d) <= owner.Keys
  {
    hide FuncDeep, BlockPlaced, BlocksLocals, FuncLocals;
    match d {
      case VarD(v) => StmtLocalsOwned(VarStmt(v), root, nodes, owner);
      case FuncD(f) =>
        FuncsLocalsOwned([f], nodes, owner);
        assert FuncsLocals([f]) == FuncsLocals([]) + FuncLocals(f);
      case ImplD(i) => FuncsLocalsOwned(i.impls, nodes, owner);
      case _ =>
    }
  }

  lemma {:induction false} DeclsLocalsOwned(ds: seq<Decl>, root: ScopedASTNode, nodes: set<ScopedASTNode>, owner: Owner)
    requires forall d :: d in ds ==> DeclDeep(d, root, nodes, owner)
    ensures DeclsLocals(ds) <= owner.Keys
  {
    hide DeclDeep, DeclLocals;
    if ds != [] {
      DeclsLocalsOwned(ds[..|ds| - 1], root, nodes, owner);
      DeclLocalsOwned(ds[|ds| - 1], root, nodes, owner);
    }
  }

  /** None of the nodes is the file's. */
  ghost predicate AllInner(ns: set<ScopedASTNode>, nodes: set<ScopedASTNode>) {
    forall n :: n in ns ==> n.kind != File && n in nodes
  }

  lemma {:induction false} FuncIsInner(f: FuncDecl, nodes: set<ScopedASTNode>, owner: Owner)
    requires FuncDeep(f, nodes, owner)
    ensures AllInner(FuncUnder(f), nodes) && f.node !in ParamsUnder(f.params)
  {
    hide ExprPlaced, BlockPlaced, BlockUnder, ParamsUnder;
    ParamsAreBlocks(f.params, f.node, nodes, owner);
    if f.body.Some? {
      BlockIsBlocks(f.body.value, f.node, nodes, owner);
    }
  }

  lemma {:induction false} FuncsAreInner(fs: seq<FuncDecl>, nodes: set<ScopedASTNode>, owner: Owner)
    requires forall f :: f in fs ==> FuncDeep(f, nodes, owner)
    ensures AllInner(FuncsUnder(fs), nodes)
  {
    hide FuncDeep, FuncUnder;
    if fs != [] {
      FuncsAreInner(fs[..|fs| - 1], nodes, owner);
      FuncIsInner(fs[|fs| - 1], nodes, owner);
    }
  }

  lemma {:induction false} DeclIsInner(d: Decl, root: ScopedASTNode, nodes: set<ScopedASTNode>, owner: Owner)
    requires DeclDeep(d, root, nodes, owner) && (d.ImplD? ==> d.i.node.kind == Impl)
    ensures AllInner(DeclUnder(d), nodes)
  {
    hide FuncDeep, BlockPlaced, FuncUnder, FuncsUnder, BlocksUnder;
    match d {
      case VarD(v) => StmtIsBlocks(VarStmt(v), root, nodes, owner);
      case FuncD(f) => FuncIsInner(f, nodes, owner);
      case ImplD(i) => FuncsAreInner(i.impls, nodes, owner);
      case _ =>
    }
  }

  lemma {:induction false} DeclsAreInner(ds: seq<Decl>, root: ScopedASTNode, nodes: set<ScopedASTNode>, owner: Owner)
    requires forall d :: d in ds ==> DeclDeep(d, root, nodes, owner) && (d.ImplD? ==> d.i.node.kind == Impl)
    ensures AllInner(DeclsUnder(ds), nodes)
  {
    hide DeclDeep, DeclUnder;
    if ds != [] {
      DeclsAreInner(ds[..|ds| - 1], root, nodes, owner);
      DeclIsInner(ds[|ds| - 1], root, nodes, owner);
    }
  }

  /** Scopes are never taken away or replaced, and only the nodes in `mine` gain one. */
  ghost predicate ScopesKept(m: ScopeMap, m': ScopeMap, mine: set<ScopedASTNode>) {
    m'.Keys == m.Keys && forall n :: n in m && (m[n] != null || n !in mine) ==> m'[n] == m[n]
  }

  /** Insertion into the scope of a node changes the table of that node alone. */
  method InsertAt(ls: Scope, symbol: string, d: Decl, ghost node: ScopedASTNode,
                  ghost storage: seq<Scope>, ghost nodes: set<ScopedASTNode>)
    requires TreeOk(storage, ScopesOf(nodes)) && node in nodes && node.scope == ls
    requires d !in Entry(TableOf(node), symbol)
    modifies ls`symbolTable
    ensures TablesOf(nodes) == old(TablesOf(nodes)[node := TableOf(node)[symbol := Entry(TableOf(node), symbol) + [d]]])
  {
    hide Nested, Rooted;
    ghost var m := ScopesOf(nodes);
    assert forall n :: n in nodes && n != node && n.scope != null ==> m[n] != m[node];
    ls.Insert(symbol, d);
  }

  /** Opening a scope leaves every table as it was. */
  method Enter(node: ScopedASTNode, ls: Scope, lc: LexicalContext<Decl>, ghost outer: ScopedASTNode,
               ghost nodes: set<ScopedASTNode>, ghost mine: set<ScopedASTNode>)
    returns (s: Scope)
    requires TreeOk(lc.scopeStorage, ScopesOf(nodes))
    requires node in mine && mine <= nodes && outer in nodes && node.enclosing == outer && outer.scope == ls
    modifies lc, nodes
    ensures TreeOk(lc.scopeStorage, ScopesOf(nodes)) && old(lc.scopeStorage) <= lc.scopeStorage
    ensures ScopesKept(old(ScopesOf(nodes)), ScopesOf(nodes), mine) && node.scope == s
    ensures forall s :: s in ScopeSet(nodes) ==> s in old(ScopeSet(nodes)) || fresh(s)
    ensures TablesOf(nodes) == old(TablesOf(nodes))
  {
    hide TreeOk;
    ghost var m := ScopesOf(nodes);
    s := EnterScope(lc, node, ls, nodes);
    assert forall n :: n in nodes ==> ScopesOf(nodes)[n] == n.scope;
  }

  // The default traversal of an expression opens the scopes of the blocks in it.

  method EnterExpr(e: Expr, ls: Scope, lc: LexicalContext<Decl>, ghost outer: ScopedASTNode,
                   ghost nodes: set<ScopedASTNode>, ghost mine: set<ScopedASTNode>,
                    ghost owner: Owner)
    requires TreeOk(lc.scopeStorage, ScopesOf(nodes))
    requires ExprPlaced(e, outer, mine, owner) && mine <= nodes && outer in nodes && outer.scope == ls
    modifies lc, nodes
    ensures TreeOk(lc.scopeStorage, ScopesOf(nodes)) && old(lc.scopeStorage) <= lc.scopeStorage
    ensures ScopesKept(old(ScopesOf(nodes)), ScopesOf(nodes), mine)
    ensures forall s :: s in ScopeSet(nodes) ==> s in old(ScopeSet(nodes)) || fresh(s)
    ensures TablesOf(nodes) == old(TablesOf(nodes))
    decreases e
  {
    hide TreeOk, TablesOf, BlockPlaced, ScopeSet;
    for i := 0 to |e.blocks|
      invariant TreeOk(lc.scopeStorage, ScopesOf(nodes)) && old(lc.scopeStorage) <= lc.scopeStorage
      invariant ScopesKept(old(ScopesOf(nodes)), ScopesOf(nodes), mine)
      invariant forall s :: s in ScopeSet(nodes) ==> s in old(ScopeSet(nodes)) || fresh(s)
      invariant TablesOf(nodes) == old(TablesOf(nodes))
    {
      assert ScopesOf(nodes)[outer] == old(ScopesOf(nodes))[outer];
      EnterBlock(e.blocks[i], ls, lc, outer, nodes, mine, owner);
    }
  }

  method EnterBlock(b: BlockStmt, ls: Scope, lc: LexicalContext<Decl>, ghost outer: ScopedASTNode,
                    ghost nodes: set<ScopedASTNode>, ghost mine: set<ScopedASTNode>,
                    ghost owner: Owner)
    requires TreeOk(lc.scopeStorage, ScopesOf(nodes))
    requires BlockPlaced(b, outer, mine, owner) && mine <= nodes && outer in nodes && outer.scope == ls
    modifies lc, nodes
    ensures TreeOk(lc.scopeStorage, ScopesOf(nodes)) && old(lc.scopeStorage) <= lc.scopeStorage
    ensures ScopesKept(old(ScopesOf(nodes)), ScopesOf(nodes), mine)
    ensures forall s :: s in ScopeSet(nodes) ==> s in old(ScopeSet(nodes)) || fresh(s)
    ensures TablesOf(nodes) == old(TablesOf(nodes))
    decreases b
  {
    hide TreeOk, TablesOf, StmtPlaced, ScopeSet;
    var inner := Enter(b.node, ls, lc, outer, nodes, mine);
    ghost var m := ScopesOf(nodes);
    for i := 0 to |b.stmts|
      invariant TreeOk(lc.scopeStorage, ScopesOf(nodes)) && old(lc.scopeStorage) <= lc.scopeStorage
      invariant ScopesKept(old(ScopesOf(nodes)), ScopesOf(nodes), mine) && ScopesKept(m, ScopesOf(nodes), mine)
      invariant forall s :: s in ScopeSet(nodes) ==> s in old(ScopeSet(nodes)) || fresh(s)
      invariant TablesOf(nodes) == old(TablesOf(nodes))
    {
      assert ScopesOf(nodes)[b.node] == m[b.node];
      EnterStmt(b.stmts[i], inner, lc, b.node, nodes, mine, owner);
    }
  }

  method EnterStmt(s: Stmt, ls: Scope, lc: LexicalContext<Decl>, ghost outer: ScopedASTNode,
                   ghost nodes: set<ScopedASTNode>, ghost mine: set<ScopedASTNode>,
                    ghost owner: Owner)
    requires TreeOk(lc.scopeStorage, ScopesOf(nodes))
    requires StmtPlaced(s, outer, mine, owner) && mine <= nodes && outer in nodes && outer.scope == ls
    modifies lc, nodes
    ensures TreeOk(lc.scopeStorage, ScopesOf(nodes)) && old(lc.scopeStorage) <= lc.scopeStorage
    ensures ScopesKept(old(ScopesOf(nodes)), ScopesOf(nodes), mine)
    ensures forall s :: s in ScopeSet(nodes) ==> s in old(ScopeSet(nodes)) || fresh(s)
    ensures TablesOf(nodes) == old(TablesOf(nodes))
    decreases s
  {
    hide TreeOk, TablesOf, ExprPlaced, BlockPlaced, ScopeSet;
    match s {
      case VarStmt(v) => if v.initializer.Some? { EnterExpr(v.initializer.value, ls, lc, outer, nodes, mine, owner); }
      case TypeStmt(_) =>
      case ExprStmt(e) => EnterExpr(e, ls, lc, outer, nodes, mine, owner);
      case NestedBlock(b) => EnterBlock(b, ls, lc, outer, nodes, mine, owner);
    }
  }
}
