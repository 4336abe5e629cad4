/** The scope effect of the type-checking pass: variables and parameters are entered where they are declared.
    What expressions are typed as plays no part in it. */
module TypeChecks {
  import opened QualTypes
  import opened LexicalScopes
  import opened AST
  import opened NormalForms
  import opened Programs
  import opened SymbolTables
  import opened Diagnostics
  import opened MaterializeTypes
  import opened Overloads

  /** What variables and parameters have in common. */
  datatype Var = Var(name: string, declaredType: Option<ASTType>, value: Option<Expr>, decl: Decl)

  function OfVarDecl(v: VarDecl): Var {
    Var(v.name, v.declaredType, v.initializer, VarD(v))
  }

  function OfParam(p: FuncParamDecl): Var {
    Var(p.name, Some(p.declaredType), p.defaultValue, ParamD(p))
  }

  /** The tables, and the reports so far. */
  datatype Checked = Checked(tables: Tables, reports: seq<Diagnostic>)

  ghost predicate Untyped(m: Typing, e: ASTType) {
    e.slot in m ==> m[e.slot].IsUnknown()
  }

  /** Why a variable is not entered, as what is reported about it. */
  ghost function Refusal(m: Typing, t: Table, v: Var): Option<seq<Diagnostic>> {
    if Entry(t, v.name) != [] then Some([Redefinition(v.name), PreviouslyDeclared])
    else if v.value.None? && v.declaredType.None? then Some([CannotDefaultInitialize])
    else if v.declaredType.Some? && Untyped(m, v.declaredType.value) then Some([])
    else None
  }

  ghost function CheckVar(m: Typing, c: Checked, v: Var, n: ScopedASTNode): Checked
    decreases v.value, 1
  {
    if n !in c.tables then c
    else
      match Refusal(m, c.tables[n], v)
      case Some(reports) => c.(reports := c.reports + reports)
      case None => Inserted(ValueChecked(m, c, v), v, n)
  }

  ghost function ValueChecked(m: Typing, c: Checked, v: Var): Checked
    decreases v.value, 0
  {
    if v.value.None? then c else CheckBlocks(m, c, v.value.value.blocks)
  }

  ghost function Inserted(c: Checked, v: Var, n: ScopedASTNode): Checked {
    if n in c.tables then
      c.(tables := c.tables[n := c.tables[n][v.name := Entry(c.tables[n], v.name) + [v.decl]]])
    else c
  }

  ghost function CheckBlocks(m: Typing, c: Checked, bs: seq<BlockStmt>): Checked
    decreases bs
  {
    if bs == [] then c else CheckBlock(m, CheckBlocks(m, c, bs[..|bs| - 1]), bs[|bs| - 1])
  }

  ghost function CheckBlock(m: Typing, c: Checked, b: BlockStmt): Checked
    decreases b
  {
    CheckStmts(m, c, b.stmts, b.node)
  }

  ghost function CheckStmts(m: Typing, c: Checked, ss: seq<Stmt>, n: ScopedASTNode): Checked
    decreases ss
  {
    if ss == [] then c else CheckStmt(m, CheckStmts(m, c, ss[..|ss| - 1], n), ss[|ss| - 1], n)
  }

  ghost function CheckStmt(m: Typing, c: Checked, s: Stmt, n: ScopedASTNode): Checked
    decreases s
  {
    match s
    case VarStmt(v) => CheckVar(m, c, OfVarDecl(v), n)
    case TypeStmt(_) => c
    case ExprStmt(e) => CheckBlocks(m, c, e.blocks)
    case NestedBlock(b) => CheckBlock(m, c, b)
  }

  // A visit changes only the tables of the nodes inside what is visited, besides the one it declares in.

  ghost predicate SameExcept(c: Checked, c': Checked, ns: set<ScopedASTNode>) {
    c'.tables.Keys == c.tables.Keys && forall n :: n in c.tables && n !in ns ==> c'.tables[n] == c.tables[n]
  }

  lemma {:induction false} CheckVarLocal(m: Typing, c: Checked, v: Var, n: ScopedASTNode)
    ensures SameExcept(c, CheckVar(m, c, v, n), {n} + ValueUnder(v.value))
    decreases v.value
  {
    if v.value.Some? {
      CheckBlocksLocal(m, c, v.value.value.blocks);
    }
  }

  lemma {:induction false} CheckBlocksLocal(m: Typing, c: Checked, bs: seq<BlockStmt>)
    ensures SameExcept(c, CheckBlocks(m, c, bs), BlocksUnder(bs))
    decreases bs
  {
    if bs != [] {
      CheckBlocksLocal(m, c, bs[..|bs| - 1]);
      CheckBlockLocal(m, CheckBlocks(m, c, bs[..|bs| - 1]), bs[|bs| - 1]);
    }
  }

  lemma {:induction false} CheckBlockLocal(m: Typing, c: Checked, b: BlockStmt)
    ensures SameExcept(c, CheckBlock(m, c, b), BlockUnder(b))
    decreases b
  {
    CheckStmtsLocal(m, c, b.stmts, b.node);
  }

  lemma {:induction false} CheckStmtsLocal(m: Typing, c: Checked, ss: seq<Stmt>, n: ScopedASTNode)
    ensures SameExcept(c, CheckStmts(m, c, ss, n), {n} + StmtsUnder(ss))
    decreases ss
  {
    if ss != [] {
      CheckStmtsLocal(m, c, ss[..|ss| - 1], n);
      CheckStmtLocal(m, CheckStmts(m, c, ss[..|ss| - 1], n), ss[|ss| - 1], n);
    }
  }

  lemma {:induction false} CheckStmtLocal(m: Typing, c: Checked, s: Stmt, n: ScopedASTNode)
    ensures SameExcept(c, CheckStmt(m, c, s, n), {n} + StmtUnder(s))
    decreases s
  {
    match s {
      case VarStmt(v) => CheckVarLocal(m, c, OfVarDecl(v), n);
      case TypeStmt(_) =>
      case ExprStmt(e) => CheckBlocksLocal(m, c, e.blocks);
      case NestedBlock(b) => CheckBlockLocal(m, c, b);
    }
  }

  // What a scope ends up holding, whatever is nested in it.

  /** A variable that is entered if its name is free: it has a known type, or no type but a value. */
  ghost predicate Usable(m: Typing, v: Var) {
    if v.declaredType.Some? then !Untyped(m, v.declaredType.value) else v.value.Some?
  }

  /** A variable whose declared type is known, or that has no declared type but a value. */
  ghost predicate Typable(env: Env, v: Var) {
    if v.declaredType.Some? then NormalForm(env, v.declaredType.value).Known? else v.value.Some?
  }

  /** The nodes of these variables' types know what the types mean. */
  ghost predicate VarsResolved(env: Env, m: Typing, vs: seq<Var>) {
    forall i :: 0 <= i < |vs| ==> (Usable(m, vs[i]) <==> Typable(env, vs[i]))
  }

  ghost function OwnVars(ss: seq<Stmt>): seq<Var> {
    if ss == [] then [] else
      OwnVars(ss[..|ss| - 1]) + if ss[|ss| - 1].VarStmt? then [OfVarDecl(ss[|ss| - 1].decl)] else []
  }

  /** The first usable variable of a name. */
  ghost predicate FirstUsable(m: Typing, vs: seq<Var>, name: string, i: nat)
    requires i < |vs|
  {
    && vs[i].name == name && Usable(m, vs[i])
    && forall j :: 0 <= j < i && vs[j].name == name ==> !Usable(m, vs[j])
  }

  /** A name already taken keeps its declarations; another gets the first usable variable of that name, if any. */
  ghost predicate NameEntered(m: Typing, t: Table, t': Table, vs: seq<Var>, name: string) {
    if Entry(t, name) != [] then Entry(t', name) == Entry(t, name)
    else if forall i :: 0 <= i < |vs| && vs[i].name == name ==> !Usable(m, vs[i]) then Entry(t', name) == []
    else exists i :: 0 <= i < |vs| && FirstUsable(m, vs, name, i) && Entry(t', name) == [vs[i].decl]
  }

  ghost predicate VarsEntered(m: Typing, t: Table, t': Table, vs: seq<Var>) {
    forall name :: NameEntered(m, t, t', vs, name)
  }

  lemma NoVars(m: Typing, t: Table)
    ensures VarsEntered(m, t, t, [])
  {
  }

  lemma ValueKeepsTable(m: Typing, c: Checked, v: Var, n: ScopedASTNode)
    requires n in c.tables && n !in ValueUnder(v.value)
    ensures n in ValueChecked(m, c, v).tables && ValueChecked(m, c, v).tables[n] == c.tables[n]
  {
    if v.value.Some? {
      CheckBlocksLocal(m, c, v.value.value.blocks);
    }
  }

  /** One more variable, given the table before its value is visited. */
  lemma {:induction false} OneMoreVar(m: Typing, c: Checked, t: Table, vs: seq<Var>, v: Var, n: ScopedASTNode)
    requires n in c.tables && VarsEntered(m, t, c.tables[n], vs) && n !in ValueUnder(v.value)
    ensures n in CheckVar(m, c, v, n).tables && VarsEntered(m, t, CheckVar(m, c, v, n).tables[n], vs + [v])
  {
    hide Untyped, ValueChecked, ValueUnder;
    ValueKeepsTable(m, c, v, n);
    assert [] + [v.decl] == [v.decl];
    var t0, t1 := c.tables[n], CheckVar(m, c, v, n).tables[n];
    assert t1 == if Entry(t0, v.name) == [] && Usable(m, v) then t0[v.name := [v.decl]] else t0;
    EnteredWithOneMore(m, t, t0, t1, vs, v);
  }

  lemma EnteredWithOneMore(m: Typing, t: Table, t0: Table, t1: Table, vs: seq<Var>, v: Var)
    requires VarsEntered(m, t, t0, vs)
    requires t1 == if Entry(t0, v.name) == [] && Usable(m, v) then t0[v.name := [v.decl]] else t0
    ensures VarsEntered(m, t, t1, vs + [v])
  {
    hide Usable;
    var vs' := vs + [v];
    assert vs'[|vs|] == v && forall i :: 0 <= i < |vs| ==> vs'[i] == vs[i];
    forall name
      ensures NameEntered(m, t, t1, vs', name)
    {
      assert NameEntered(m, t, t0, vs, name);
      if Entry(t, name) == [] {
        if i :| 0 <= i < |vs| && FirstUsable(m, vs, name, i) && Entry(t0, name) == [vs[i].decl] {
          assert FirstUsable(m, vs', name, i);
        } else if v.name == name && Usable(m, v) {
          assert FirstUsable(m, vs', name, |vs|);
        }
      }
    }
  }

  /** The scope of a block: its own variables are entered in order, undisturbed by what is nested in their values. */
  lemma {:induction false} StmtsTable(m: Typing, c: Checked, ss: seq<Stmt>, n: ScopedASTNode)
    requires n in c.tables && n !in StmtsUnder(ss)
    ensures n in CheckStmts(m, c, ss, n).tables
    ensures VarsEntered(m, c.tables[n], CheckStmts(m, c, ss, n).tables[n], OwnVars(ss))
  {
    hide VarsEntered, CheckVar, CheckBlock, CheckBlocks, BlocksUnder, BlockUnder;
    if ss == [] {
      NoVars(m, c.tables[n]);
    } else {
      var before, s := ss[..|ss| - 1], ss[|ss| - 1];
      var c1 := CheckStmts(m, c, before, n);
      StmtsTable(m, c, before, n);
      match s {
        case VarStmt(v) => OneMoreVar(m, c1, c.tables[n], OwnVars(before), OfVarDecl(v), n);
        case TypeStmt(_) =>
        case ExprStmt(e) => CheckBlocksLocal(m, c1, e.blocks);
        case NestedBlock(b) => CheckBlockLocal(m, c1, b);
      }
      assert s.VarStmt? || OwnVars(ss) == OwnVars(before);
    }
  }

  // Functions, `impl` blocks and the unit.

  ghost function CheckParams(m: Typing, c: Checked, ps: seq<FuncParamDecl>, n: ScopedASTNode): Checked {
    if ps == [] then c else CheckVar(m, CheckParams(m, c, ps[..|ps| - 1], n), OfParam(ps[|ps| - 1]), n)
  }

  ghost function CheckFunc(m: Typing, c: Checked, f: FuncDecl): Checked {
    var c1 := CheckParams(m, c, f.params, f.node);
    if f.body.None? then c1 else CheckBlock(m, c1, f.body.value)
  }

  ghost function CheckFuncs(m: Typing, c: Checked, fs: seq<FuncDecl>): Checked {
    if fs == [] then c else CheckFunc(m, CheckFuncs(m, c, fs[..|fs| - 1]), fs[|fs| - 1])
  }

  ghost function CheckDecl(m: Typing, c: Checked, d: Decl, root: ScopedASTNode): Checked {
    match d
    case VarD(v) => CheckVar(m, c, OfVarDecl(v), root)
    case FuncD(f) => CheckFunc(m, c, f)
    case ImplD(i) => CheckFuncs(m, c, i.impls)
    case _ => c
  }

  ghost function CheckDecls(m: Typing, c: Checked, ds: seq<Decl>, root: ScopedASTNode): Checked {
    if ds == [] then c else CheckDecl(m, CheckDecls(m, c, ds[..|ds| - 1], root), ds[|ds| - 1], root)
  }

  lemma {:induction false} CheckParamsLocal(m: Typing, c: Checked, ps: seq<FuncParamDecl>, n: ScopedASTNode)
    ensures SameExcept(c, CheckParams(m, c, ps, n), {n} + ParamsUnder(ps))
  {
    hide CheckVar, ValueUnder;
    if ps != [] {
      CheckParamsLocal(m, c, ps[..|ps| - 1], n);
      CheckVarLocal(m, CheckParams(m, c, ps[..|ps| - 1], n), OfParam(ps[|ps| - 1]), n);
    }
  }

  lemma {:induction false} CheckFuncLocal(m: Typing, c: Checked, f: FuncDecl)
    ensures SameExcept(c, CheckFunc(m, c, f), FuncUnder(f))
  {
    hide CheckBlock, CheckParams, BlockUnder, ParamsUnder;
    CheckParamsLocal(m, c, f.params, f.node);
    if f.body.Some? {
      CheckBlockLocal(m, CheckParams(m, c, f.params, f.node), f.body.value);
    }
  }

  lemma {:induction false} CheckFuncsLocal(m: Typing, c: Checked, fs: seq<FuncDecl>)
    ensures SameExcept(c, CheckFuncs(m, c, fs), FuncsUnder(fs))
  {
    hide CheckFunc, FuncUnder;
    if fs != [] {
      CheckFuncsLocal(m, c, fs[..|fs| - 1]);
      CheckFuncLocal(m, CheckFuncs(m, c, fs[..|fs| - 1]), fs[|fs| - 1]);
    }
  }

  lemma {:induction false} CheckDeclLocal(m: Typing, c: Checked, d: Decl, root: ScopedASTNode)
    ensures SameExcept(c, CheckDecl(m, c, d, root), DeclUnder(d) + if d.VarD? then {root} else {})
  {
    hide CheckFunc, CheckFuncs, CheckVar, FuncUnder, FuncsUnder, ValueUnder;
    match d {
      case VarD(v) => CheckVarLocal(m, c, OfVarDecl(v), root);
      case FuncD(f) => CheckFuncLocal(m, c, f);
      case ImplD(i) => CheckFuncsLocal(m, c, i.impls);
      case _ =>
    }
  }

  /** The pass touches only the tables of the unit's own nodes. */
  lemma {:induction false} CheckDeclsLocal(m: Typing, c: Checked, ds: seq<Decl>, root: ScopedASTNode)
    ensures SameExcept(c, CheckDecls(m, c, ds, root), {root} + DeclsUnder(ds))
  {
    hide CheckDecl, DeclUnder;
    if ds != [] {
      CheckDeclsLocal(m, c, ds[..|ds| - 1], root);
      CheckDeclLocal(m, CheckDecls(m, c, ds[..|ds| - 1], root), ds[|ds| - 1], root);
    }
  }

  ghost function ParamVars(ps: seq<FuncParamDecl>): seq<Var> {
    if ps == [] then [] else ParamVars(ps[..|ps| - 1]) + [OfParam(ps[|ps| - 1])]
  }

  /** The scope of a function: its parameters are entered in order. */
  lemma {:induction false} ParamsTable(m: Typing, c: Checked, ps: seq<FuncParamDecl>, n: ScopedASTNode)
    requires n in c.tables && n !in ParamsUnder(ps)
    ensures n in CheckParams(m, c, ps, n).tables
    ensures VarsEntered(m, c.tables[n], CheckParams(m, c, ps, n).tables[n], ParamVars(ps))
  {
    hide VarsEntered, CheckVar, ValueUnder;
    if ps == [] {
      NoVars(m, c.tables[n]);
    } else {
      var before, p := ps[..|ps| - 1], ps[|ps| - 1];
      ParamsTable(m, c, before, n);
      OneMoreVar(m, CheckParams(m, c, before, n), c.tables[n], ParamVars(before), OfParam(p), n);
    }
  }

  ghost function FileVars(ds: seq<Decl>): seq<Var> {
    if ds == [] then [] else
      FileVars(ds[..|ds| - 1]) + if ds[|ds| - 1].VarD? then [OfVarDecl(ds[|ds| - 1].v)] else []
  }

  /** The scope of the file: its variables are entered in order, where no type or function has the name. */
  lemma {:induction false} FileTable(m: Typing, c: Checked, ds: seq<Decl>, root: ScopedASTNode)
    requires root in c.tables && root !in DeclsUnder(ds)
    ensures root in CheckDecls(m, c, ds, root).tables
    ensures VarsEntered(m, c.tables[root], CheckDecls(m, c, ds, root).tables[root], FileVars(ds))
  {
    hide VarsEntered, CheckVar, CheckFunc, CheckFuncs, ValueUnder, FuncUnder, FuncsUnder;
    if ds == [] {
      NoVars(m, c.tables[root]);
    } else {
      var before, d := ds[..|ds| - 1], ds[|ds| - 1];
      var c1 := CheckDecls(m, c, before, root);
      FileTable(m, c, before, root);
      match d {
        case VarD(v) => OneMoreVar(m, c1, c.tables[root], FileVars(before), OfVarDecl(v), root);
        case _ => CheckDeclLocal(m, c1, d, root);
      }
      assert d.VarD? || FileVars(ds) == FileVars(before);
    }
  }

  // Every step keeps the tables in order.

  lemma {:induction false} InsertedOk(env: Env, c: Checked, v: Var, n: ScopedASTNode, ns: set<ScopedASTNode>)
    requires TablesOk(env, c.tables, ns) && (n in c.tables ==> Entry(c.tables[n], v.name) == [])
    ensures TablesOk(env, Inserted(c, v, n).tables, ns)
  {
    hide Sig;
    assert |[] + [v.decl]| == 1;
  }

  lemma {:induction false} CheckVarOk(env: Env, m: Typing, c: Checked, v: Var, n: ScopedASTNode,
                                      nodes: set<ScopedASTNode>, owner: Owner, ns: set<ScopedASTNode>)
    requires TablesOk(env, c.tables, ns) && n !in ValueUnder(v.value)
    requires v.value.Some? ==> ExprPlaced(v.value.value, n, nodes, owner)
    ensures TablesOk(env, CheckVar(m, c, v, n).tables, ns)
    decreases v.value, 1
  {
    hide Untyped, TablesOk, Inserted, ValueUnder, CheckBlocks;
    if n in c.tables && Refusal(m, c.tables[n], v).None? {
      if v.value.Some? {
        CheckBlocksOk(env, m, c, v.value.value.blocks, n, nodes, owner, ns);
      }
      ValueKeepsTable(m, c, v, n);
      InsertedOk(env, ValueChecked(m, c, v), v, n, ns);
    }
  }

  lemma {:induction false} CheckBlocksOk(env: Env, m: Typing, c: Checked, bs: seq<BlockStmt>, outer: ScopedASTNode,
                                         nodes: set<ScopedASTNode>, owner: Owner, ns: set<ScopedASTNode>)
    requires TablesOk(env, c.tables, ns) && forall b :: b in bs ==> BlockPlaced(b, outer, nodes, owner)
    ensures TablesOk(env, CheckBlocks(m, c, bs).tables, ns)
    decreases bs
  {
    hide TablesOk, BlockPlaced, CheckBlock;
    if bs != [] {
      CheckBlocksOk(env, m, c, bs[..|bs| - 1], outer, nodes, owner, ns);
      CheckBlockOk(env, m, CheckBlocks(m, c, bs[..|bs| - 1]), bs[|bs| - 1], outer, nodes, owner, ns);
    }
  }

  lemma {:induction false} CheckBlockOk(env: Env, m: Typing, c: Checked, b: BlockStmt, outer: ScopedASTNode,
                                        nodes: set<ScopedASTNode>, owner: Owner, ns: set<ScopedASTNode>)
    requires TablesOk(env, c.tables, ns) && BlockPlaced(b, outer, nodes, owner)
    ensures TablesOk(env, CheckBlock(m, c, b).tables, ns)
    decreases b
  {
    hide TablesOk, StmtPlaced, CheckStmts;
    CheckStmtsOk(env, m, c, b.stmts, b.node, nodes, owner, ns);
  }

  lemma {:induction false} CheckStmtsOk(env: Env, m: Typing, c: Checked, ss: seq<Stmt>, n: ScopedASTNode,
                                        nodes: set<ScopedASTNode>, owner: Owner, ns: set<ScopedASTNode>)
    requires TablesOk(env, c.tables, ns) && n !in StmtsUnder(ss)
             && forall s :: s in ss ==> StmtPlaced(s, n, nodes, owner)
    ensures TablesOk(env, CheckStmts(m, c, ss, n).tables, ns)
    decreases ss
  {
    hide TablesOk, StmtPlaced, StmtUnder, CheckStmt;
    if ss != [] {
      CheckStmtsOk(env, m, c, ss[..|ss| - 1], n, nodes, owner, ns);
      CheckStmtOk(env, m, CheckStmts(m, c, ss[..|ss| - 1], n), ss[|ss| - 1], n, nodes, owner, ns);
    }
  }

  lemma {:induction false} CheckStmtOk(env: Env, m: Typing, c: Checked, s: Stmt, n: ScopedASTNode,
                                       nodes: set<ScopedASTNode>, owner: Owner, ns: set<ScopedASTNode>)
    requires TablesOk(env, c.tables, ns) && n !in StmtUnder(s) && StmtPlaced(s, n, nodes, owner)
    ensures TablesOk(env, CheckStmt(m, c, s, n).tables, ns)
    decreases s
  {
    hide TablesOk, BlockPlaced, CheckVar, CheckBlocks, CheckBlock, BlocksUnder, BlockUnder;
    match s {
      case VarStmt(v) => CheckVarOk(env, m, c, OfVarDecl(v), n, nodes, owner, ns);
      case TypeStmt(_) =>
      case ExprStmt(e) => CheckBlocksOk(env, m, c, e.blocks, n, nodes, owner, ns);
      case NestedBlock(b) => CheckBlockOk(env, m, c, b, n, nodes, owner, ns);
    }
  }

  lemma {:induction false} CheckParamsOk(env: Env, m: Typing, c: Checked, ps: seq<FuncParamDecl>, n: ScopedASTNode,
                                         nodes: set<ScopedASTNode>, owner: Owner, ns: set<ScopedASTNode>)
    requires TablesOk(env, c.tables, ns) && n !in ParamsUnder(ps)
    requires forall p :: p in ps && p.defaultValue.Some? ==> ExprPlaced(p.defaultValue.value, n, nodes, owner)
    ensures TablesOk(env, CheckParams(m, c, ps, n).tables, ns)
  {
    hide TablesOk, ExprPlaced, CheckVar, ValueUnder;
    if ps != [] {
      CheckParamsOk(env, m, c, ps[..|ps| - 1], n, nodes, owner, ns);
      CheckVarOk(env, m, CheckParams(m, c, ps[..|ps| - 1], n), OfParam(ps[|ps| - 1]), n, nodes, owner, ns);
    }
  }

  lemma {:induction false} CheckFuncOk(env: Env, m: Typing, c: Checked, f: FuncDecl, nodes: set<ScopedASTNode>,
                                       owner: Owner,
                                       ns: set<ScopedASTNode>)
    requires TablesOk(env, c.tables, ns) && FuncDeep(f, nodes, owner)
    ensures TablesOk(env, CheckFunc(m, c, f).tables, ns)
  {
    hide TablesOk, ExprPlaced, BlockPlaced, CheckParams, CheckBlock, ParamsUnder;
    FuncIsInner(f, nodes, owner);
    CheckParamsOk(env, m, c, f.params, f.node, nodes, owner, ns);
    if f.body.Some? {
      CheckBlockOk(env, m, CheckParams(m, c, f.params, f.node), f.body.value, f.node, nodes, owner, ns);
    }
  }

  lemma {:induction false} CheckFuncsOk(env: Env, m: Typing, c: Checked, fs: seq<FuncDecl>, nodes: set<ScopedASTNode>,
                                        owner: Owner, ns: set<ScopedASTNode>)
    requires TablesOk(env, c.tables, ns) && forall f :: f in fs ==> FuncDeep(f, nodes, owner)
    ensures TablesOk(env, CheckFuncs(m, c, fs).tables, ns)
  {
    hide TablesOk, FuncDeep, CheckFunc;
    if fs != [] {
      CheckFuncsOk(env, m, c, fs[..|fs| - 1], nodes, owner, ns);
      CheckFuncOk(env, m, CheckFuncs(m, c, fs[..|fs| - 1]), fs[|fs| - 1], nodes, owner, ns);
    }
  }

  lemma {:induction false} CheckDeclOk(env: Env, m: Typing, c: Checked, d: Decl, root: ScopedASTNode,
                                       nodes: set<ScopedASTNode>, owner: Owner, ns: set<ScopedASTNode>)
    requires TablesOk(env, c.tables, ns) && DeclDeep(d, root, nodes, owner) && root.kind == File
    requires d.ImplD? ==> d.i.node.kind == Impl
    ensures TablesOk(env, CheckDecl(m, c, d, root).tables, ns)
  {
    hide TablesOk, FuncDeep, ExprPlaced, CheckVar, CheckFunc, CheckFuncs, ValueUnder, FuncUnder, FuncsUnder;
    DeclIsInner(d, root, nodes, owner);
    match d {
      case VarD(v) => CheckVarOk(env, m, c, OfVarDecl(v), root, nodes, owner, ns);
      case FuncD(f) => CheckFuncOk(env, m, c, f, nodes, owner, ns);
      case ImplD(i) => CheckFuncsOk(env, m, c, i.impls, nodes, owner, ns);
      case _ =>
    }
  }

  lemma {:induction false} CheckDeclsOk(env: Env, m: Typing, c: Checked, ds: seq<Decl>, root: ScopedASTNode,
                                        nodes: set<ScopedASTNode>, owner: Owner, ns: set<ScopedASTNode>)
    requires TablesOk(env, c.tables, ns) && root.kind == File
    requires forall d :: d in ds ==> DeclDeep(d, root, nodes, owner) && (d.ImplD? ==> d.i.node.kind == Impl)
    ensures TablesOk(env, CheckDecls(m, c, ds, root).tables, ns)
  {
    hide TablesOk, DeclDeep, CheckDecl;
    if ds != [] {
      CheckDeclsOk(env, m, c, ds[..|ds| - 1], root, nodes, owner, ns);
      CheckDeclOk(env, m, CheckDecls(m, c, ds[..|ds| - 1], root), ds[|ds| - 1], root, nodes, owner, ns);
    }
  }
}
