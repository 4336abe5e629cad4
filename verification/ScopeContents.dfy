/** What every scope inside a unit holds once the last pass is over, function and block scopes included. */
module ScopeContents {
  import opened QualTypes
  import opened AST
  import opened NormalForms
  import opened Programs
  import opened SymbolTables
  import opened MaterializeTypes
  import opened Overloads
  import opened FunctionPass
  import opened TypeChecks

  // Every scoped node is a node of its own: no two places of the tree share one.

  ghost predicate BlocksDistinct(bs: seq<BlockStmt>) {
    bs == [] ||
    var before, b := bs[..|bs| - 1], bs[|bs| - 1];
    BlocksDistinct(before) && BlockDistinct(b) && BlocksUnder(before) !! BlockUnder(b)
  }

  ghost predicate BlockDistinct(b: BlockStmt) {
    StmtsDistinct(b.stmts) && b.node !in StmtsUnder(b.stmts)
  }

  ghost predicate StmtsDistinct(ss: seq<Stmt>) {
    ss == [] ||
    var before, s := ss[..|ss| - 1], ss[|ss| - 1];
    StmtsDistinct(before) && StmtDistinct(s) && StmtsUnder(before) !! StmtUnder(s)
  }

  ghost predicate StmtDistinct(s: Stmt) {
    match s
    case VarStmt(v) => ValueDistinct(v.initializer)
    case TypeStmt(_) => true
    case ExprStmt(e) => BlocksDistinct(e.blocks)
    case NestedBlock(b) => BlockDistinct(b)
  }

  ghost predicate ValueDistinct(e: Option<Expr>) {
    e.Some? ==> BlocksDistinct(e.value.blocks)
  }

  ghost predicate ParamsDistinct(ps: seq<FuncParamDecl>) {
    ps == [] ||
    var before, p := ps[..|ps| - 1], ps[|ps| - 1];
    ParamsDistinct(before) && ValueDistinct(p.defaultValue) && ParamsUnder(before) !! ValueUnder(p.defaultValue)
  }

  ghost predicate FuncDistinct(f: FuncDecl) {
    && ParamsDistinct(f.params) && f.node !in ParamsUnder(f.params)
    && (f.body.Some? ==>
          BlockDistinct(f.body.value) && {f.node} + ParamsUnder(f.params) !! BlockUnder(f.body.value))
  }

  ghost predicate FuncsDistinct(fs: seq<FuncDecl>) {
    fs == [] ||
    var before, f := fs[..|fs| - 1], fs[|fs| - 1];
    FuncsDistinct(before) && FuncDistinct(f) && FuncsUnder(before) !! FuncUnder(f)
  }

  ghost predicate DeclDistinct(d: Decl) {
    match d
    case VarD(v) => ValueDistinct(v.initializer)
    case FuncD(f) => FuncDistinct(f)
    case ImplD(i) => FuncsDistinct(i.impls) && i.node !in FuncsUnder(i.impls)
    case _ => true
  }

  ghost predicate DeclsDistinct(ds: seq<Decl>) {
    ds == [] ||
    var before, d := ds[..|ds| - 1], ds[|ds| - 1];
    DeclsDistinct(before) && DeclDistinct(d) && DeclsUnder(before) !! DeclUnder(d)
  }

  /** All scoped nodes of a unit are different nodes. */
  ghost predicate UnitDistinct(p: ProgramDecl) {
    DeclsDistinct(p.decls) && p.node !in DeclsUnder(p.decls)
  }

  lemma {:induction false} DeclIsUnder(ds: seq<Decl>, k: nat)
    requires k < |ds|
    ensures DeclUnder(ds[k]) <= DeclsUnder(ds)
  {
    if k < |ds| - 1 {
      DeclIsUnder(ds[..|ds| - 1], k);
    }
  }

  lemma {:induction false} DistinctDecls(ds: seq<Decl>, a: nat, b: nat)
    requires DeclsDistinct(ds) && a < b < |ds|
    ensures DeclUnder(ds[a]) !! DeclUnder(ds[b])
  {
    hide DeclUnder, DeclDistinct;
    var before := ds[..|ds| - 1];
    if b < |ds| - 1 {
      DistinctDecls(before, a, b);
    } else {
      DeclIsUnder(before, a);
    }
  }

  lemma {:induction false} DistinctImpls(p: ProgramDecl)
    requires UnitDistinct(p)
    ensures ImplsApart(p.decls, p.node)
  {
    var ds := p.decls;
    forall a, b | 0 <= a < b < |ds| && ds[a].ImplD? && ds[b].ImplD?
      ensures ds[a].i.node != ds[b].i.node
    {
      DistinctDecls(ds, a, b);
      assert ds[a].i.node in DeclUnder(ds[a]);
    }
    forall a | 0 <= a < |ds| && ds[a].ImplD?
      ensures ds[a].i.node != p.node
    {
      DeclIsUnder(ds, a);
      assert ds[a].i.node in DeclUnder(ds[a]);
    }
  }

  // What the scopes hold, in terms of the syntax tree and of what its types mean.

  /** Where a variable is declared. The types written inside blocks are never resolved. */
  datatype Place = InBlock | OutsideBlocks(env: Env)

  /** The variable is entered if its name is free: in a block, if it has no declared type but a value; elsewhere, if its
      declared type is known, or it has none but a value. */
  ghost predicate Enterable(place: Place, v: Var) {
    match place
    case InBlock => v.declaredType.None? && v.value.Some?
    case OutsideBlocks(env) => Typable(env, v)
  }

  ghost predicate FirstEnterable(place: Place, vs: seq<Var>, name: string, i: nat)
    requires i < |vs|
  {
    && vs[i].name == name && Enterable(place, vs[i])
    && forall j :: 0 <= j < i && vs[j].name == name ==> !Enterable(place, vs[j])
  }

  /** The name stands for the first enterable variable of that name, or for nothing if there is none. */
  ghost predicate NameHolds(place: Place, t: Table, vs: seq<Var>, name: string) {
    if forall i :: 0 <= i < |vs| && vs[i].name == name ==> !Enterable(place, vs[i]) then Entry(t, name) == []
    else exists i :: 0 <= i < |vs| && FirstEnterable(place, vs, name, i) && Entry(t, name) == [vs[i].decl]
  }

  ghost predicate VarsHold(place: Place, t: Table, vs: seq<Var>) {
    forall name :: NameHolds(place, t, vs, name)
  }

  /** The variable is the first enterable one of its name: it is entered, after its value has been visited. */
  ghost predicate Enters(place: Place, earlier: seq<Var>, v: Var) {
    Enterable(place, v) && forall w :: w in earlier && w.name == v.name ==> !Enterable(place, w)
  }

  /** The blocks in the value of a variable. The value of a variable that is not entered is never visited. */
  ghost predicate ValueHolds(ts: Tables, e: Option<Expr>, entered: bool)
    decreases e
  {
    if entered then e.Some? ==> BlocksHold(ts, e.value.blocks) else TablesEmpty(ts, ValueUnder(e))
  }

  ghost predicate BlocksHold(ts: Tables, bs: seq<BlockStmt>)
    decreases bs
  {
    forall b :: b in bs ==> BlockHolds(ts, b)
  }

  /** A block's scope holds its first enterable variable of each name, and so on inside it. */
  ghost predicate BlockHolds(ts: Tables, b: BlockStmt)
    decreases b
  {
    b.node in ts && VarsHold(InBlock, ts[b.node], OwnVars(b.stmts)) && StmtsHold(ts, b.stmts)
  }

  ghost predicate StmtsHold(ts: Tables, ss: seq<Stmt>)
    decreases ss
  {
    ss == [] ||
    var before, s := ss[..|ss| - 1], ss[|ss| - 1];
    StmtsHold(ts, before) && StmtHolds(ts, OwnVars(before), s)
  }

  ghost predicate StmtHolds(ts: Tables, earlier: seq<Var>, s: Stmt)
    decreases s
  {
    match s
    case VarStmt(v) => ValueHolds(ts, v.initializer, Enters(InBlock, earlier, OfVarDecl(v)))
    case TypeStmt(_) => true
    case ExprStmt(e) => BlocksHold(ts, e.blocks)
    case NestedBlock(b) => BlockHolds(ts, b)
  }

  ghost predicate ParamsHold(env: Env, ts: Tables, ps: seq<FuncParamDecl>) {
    ps == [] ||
    var before, p := ps[..|ps| - 1], ps[|ps| - 1];
    && ParamsHold(env, ts, before)
    && ValueHolds(ts, p.defaultValue, Enters(OutsideBlocks(env), ParamVars(before), OfParam(p)))
  }

  /** A function's scope holds its first parameter of each name whose type is known. */
  ghost predicate FuncHolds(env: Env, ts: Tables, f: FuncDecl) {
    && f.node in ts && VarsHold(OutsideBlocks(env), ts[f.node], ParamVars(f.params)) && ParamsHold(env, ts, f.params)
    && (f.body.Some? ==> BlockHolds(ts, f.body.value))
  }

  ghost predicate FuncsHold(env: Env, ts: Tables, fs: seq<FuncDecl>) {
    forall f :: f in fs ==> FuncHolds(env, ts, f)
  }

  /** No type and no function of the unit has the name. */
  ghost predicate NameFree(env: Env, unit: seq<Decl>, name: string) {
    Stored(env, FirstTypes(unit), FuncsOf(unit), name) == []
  }

  /** An `impl` block's scope holds its overload sets. */
  ghost predicate DeclHolds(env: Env, unit: seq<Decl>, ts: Tables, earlier: seq<Var>, d: Decl) {
    match d
    case VarD(v) =>
      ValueHolds(ts, v.initializer, NameFree(env, unit, v.name) && Enters(OutsideBlocks(env), earlier, OfVarDecl(v)))
    case FuncD(f) => FuncHolds(env, ts, f)
    case ImplD(i) => i.node in ts && TableIs(env, map[], ImplFuncs(env, i), ts[i.node]) && FuncsHold(env, ts, i.impls)
    case _ => true
  }

  ghost predicate DeclsHold(env: Env, unit: seq<Decl>, ts: Tables, ds: seq<Decl>) {
    ds == [] ||
    var before, d := ds[..|ds| - 1], ds[|ds| - 1];
    DeclsHold(env, unit, ts, before) && DeclHolds(env, unit, ts, FileVars(before), d)
  }

  // Scopes that hold what they should go on doing so while their tables stay.

  ghost predicate SameOn(ts: Tables, ts': Tables, ns: set<ScopedASTNode>) {
    forall n :: n in ns && n in ts ==> n in ts' && ts'[n] == ts[n]
  }

  lemma {:induction false} ValueStays(ts: Tables, ts': Tables, e: Option<Expr>, entered: bool)
    requires ValueHolds(ts, e, entered) && SameOn(ts, ts', ValueUnder(e))
    ensures ValueHolds(ts', e, entered)
    decreases e
  {
    hide BlocksHold, BlocksUnder;
    if entered && e.Some? {
      BlocksStay(ts, ts', e.value.blocks);
    }
  }

  lemma {:induction false} BlockInBlocks(bs: seq<BlockStmt>, b: BlockStmt)
    requires b in bs
    ensures BlockUnder(b) <= BlocksUnder(bs)
    decreases bs
  {
    if b != bs[|bs| - 1] {
      BlockInBlocks(bs[..|bs| - 1], b);
    }
  }

  lemma {:induction false} BlocksStay(ts: Tables, ts': Tables, bs: seq<BlockStmt>)
    requires BlocksHold(ts, bs) && SameOn(ts, ts', BlocksUnder(bs))
    ensures BlocksHold(ts', bs)
    decreases bs
  {
    hide BlockHolds, BlocksUnder, BlockUnder;
    forall b | b in bs
      ensures BlockHolds(ts', b)
    {
      BlockInBlocks(bs, b);
      BlockStays(ts, ts', b);
    }
  }

  lemma {:induction false} BlockStays(ts: Tables, ts': Tables, b: BlockStmt)
    requires BlockHolds(ts, b) && SameOn(ts, ts', BlockUnder(b))
    ensures BlockHolds(ts', b)
    decreases b
  {
    hide VarsHold, StmtsHold, StmtsUnder;
    StmtsStay(ts, ts', b.stmts);
  }

  lemma {:induction false} StmtsStay(ts: Tables, ts': Tables, ss: seq<Stmt>)
    requires StmtsHold(ts, ss) && SameOn(ts, ts', StmtsUnder(ss))
    ensures StmtsHold(ts', ss)
    decreases ss
  {
    hide StmtHolds, StmtUnder;
    if ss != [] {
      var before, s := ss[..|ss| - 1], ss[|ss| - 1];
      StmtsStay(ts, ts', before);
      StmtStays(ts, ts', OwnVars(before), s);
    }
  }

  lemma {:induction false} StmtStays(ts: Tables, ts': Tables, earlier: seq<Var>, s: Stmt)
    requires StmtHolds(ts, earlier, s) && SameOn(ts, ts', StmtUnder(s))
    ensures StmtHolds(ts', earlier, s)
    decreases s
  {
    hide ValueHolds, BlocksHold, BlockHolds, BlocksUnder, BlockUnder, Enters;
    match s {
      case VarStmt(v) => ValueStays(ts, ts', v.initializer, Enters(InBlock, earlier, OfVarDecl(v)));
      case TypeStmt(_) =>
      case ExprStmt(e) => BlocksStay(ts, ts', e.blocks);
      case NestedBlock(b) => BlockStays(ts, ts', b);
    }
  }

  lemma {:induction false} ParamsStay(env: Env, ts: Tables, ts': Tables, ps: seq<FuncParamDecl>)
    requires ParamsHold(env, ts, ps) && SameOn(ts, ts', ParamsUnder(ps))
    ensures ParamsHold(env, ts', ps)
  {
    hide ValueHolds, ValueUnder, Enters;
    if ps != [] {
      var before, p := ps[..|ps| - 1], ps[|ps| - 1];
      ParamsStay(env, ts, ts', before);
      ValueStays(ts, ts', p.defaultValue, Enters(OutsideBlocks(env), ParamVars(before), OfParam(p)));
    }
  }

  lemma {:induction false} FuncStays(env: Env, ts: Tables, ts': Tables, f: FuncDecl)
    requires FuncHolds(env, ts, f) && SameOn(ts, ts', FuncUnder(f))
    ensures FuncHolds(env, ts', f)
  {
    hide VarsHold, ParamsHold, BlockHolds, ParamsUnder, BlockUnder;
    ParamsStay(env, ts, ts', f.params);
    if f.body.Some? {
      BlockStays(ts, ts', f.body.value);
    }
  }

  lemma {:induction false} FuncInFuncs(fs: seq<FuncDecl>, f: FuncDecl)
    requires f in fs
    ensures FuncUnder(f) <= FuncsUnder(fs) && FuncLocals(f) <= FuncsLocals(fs)
  {
    hide FuncUnder, FuncLocals;
    if f != fs[|fs| - 1] {
      FuncInFuncs(fs[..|fs| - 1], f);
    }
  }

  lemma {:induction false} FuncsStay(env: Env, ts: Tables, ts': Tables, fs: seq<FuncDecl>)
    requires FuncsHold(env, ts, fs) && SameOn(ts, ts', FuncsUnder(fs))
    ensures FuncsHold(env, ts', fs)
  {
    hide FuncHolds, FuncUnder, FuncsUnder, FuncLocals, FuncsLocals;
    forall f | f in fs
      ensures FuncHolds(env, ts', f)
    {
      FuncInFuncs(fs, f);
      FuncStays(env, ts, ts', f);
    }
  }

  lemma {:induction false} DeclStays(env: Env, unit: seq<Decl>, ts: Tables, ts': Tables, earlier: seq<Var>, d: Decl)
    requires DeclHolds(env, unit, ts, earlier, d) && SameOn(ts, ts', DeclUnder(d))
    ensures DeclHolds(env, unit, ts', earlier, d)
  {
    hide ValueHolds, FuncHolds, FuncsHold, TableIs, FuncUnder, FuncsUnder, ValueUnder, NameFree, Enters, ImplFuncs;
    match d {
      case VarD(v) =>
        ValueStays(ts, ts', v.initializer,
                   NameFree(env, unit, v.name) && Enters(OutsideBlocks(env), earlier, OfVarDecl(v)));
      case FuncD(f) => FuncStays(env, ts, ts', f);
      case ImplD(i) => FuncsStay(env, ts, ts', i.impls);
      case _ =>
    }
  }

  lemma {:induction false} DeclsStay(env: Env, unit: seq<Decl>, ts: Tables, ts': Tables, ds: seq<Decl>)
    requires DeclsHold(env, unit, ts, ds) && SameOn(ts, ts', DeclsUnder(ds))
    ensures DeclsHold(env, unit, ts', ds)
  {
    hide DeclHolds, DeclUnder;
    if ds != [] {
      var before, d := ds[..|ds| - 1], ds[|ds| - 1];
      DeclsStay(env, unit, ts, ts', before);
      DeclStays(env, unit, ts, ts', FileVars(before), d);
    }
  }

  // Variables declared with a type inside blocks are nowhere.

  ghost predicate NoneTyped(t: Table) {
    forall name, d :: d in Entry(t, name) && d.VarD? ==> d.v.declaredType.None?
  }

  ghost predicate NoneTypedIn(ts: Tables, ns: set<ScopedASTNode>) {
    forall n :: n in ns ==> n in ts && NoneTyped(ts[n])
  }

  lemma {:induction false} EmptyHasNoneTyped(ts: Tables, ns: set<ScopedASTNode>)
    requires TablesEmpty(ts, ns)
    ensures NoneTypedIn(ts, ns)
  {
  }

  lemma {:induction false} VarsHoldNoneTyped(place: Place, t: Table, vs: seq<Var>)
    requires VarsHold(place, t, vs)
    requires forall v :: v in vs && Enterable(place, v) && v.decl.VarD? ==> v.decl.v.declaredType.None?
    ensures NoneTyped(t)
  {
    hide Enterable;
    forall name, d | d in Entry(t, name) && d.VarD?
      ensures d.v.declaredType.None?
    {
      assert NameHolds(place, t, vs, name);
      var i :| 0 <= i < |vs| && FirstEnterable(place, vs, name, i) && Entry(t, name) == [vs[i].decl];
      assert vs[i] in vs;
    }
  }

  lemma {:induction false} OwnVarsAreVars(ss: seq<Stmt>)
    ensures forall v :: v in OwnVars(ss) ==> v.decl.VarD? && v == OfVarDecl(v.decl.v)
  {
    if ss != [] {
      OwnVarsAreVars(ss[..|ss| - 1]);
    }
  }

  lemma {:induction false} ParamVarsAreNoVars(ps: seq<FuncParamDecl>)
    ensures forall v :: v in ParamVars(ps) ==> v.decl.ParamD?
  {
    if ps != [] {
      ParamVarsAreNoVars(ps[..|ps| - 1]);
    }
  }

  lemma {:induction false} ValueHasNoneTyped(ts: Tables, e: Option<Expr>, entered: bool)
    requires ValueHolds(ts, e, entered)
    ensures NoneTypedIn(ts, ValueUnder(e))
    decreases e
  {
    hide BlocksHold, BlocksUnder, NoneTyped;
    if !entered {
      EmptyHasNoneTyped(ts, ValueUnder(e));
    } else if e.Some? {
      BlocksHaveNoneTyped(ts, e.value.blocks);
    }
  }

  lemma {:induction false} BlocksHaveNoneTyped(ts: Tables, bs: seq<BlockStmt>)
    requires BlocksHold(ts, bs)
    ensures NoneTypedIn(ts, BlocksUnder(bs))
    decreases bs
  {
    hide BlockHolds, BlockUnder, NoneTyped;
    if bs != [] {
      BlocksHaveNoneTyped(ts, bs[..|bs| - 1]);
      BlockHasNoneTyped(ts, bs[|bs| - 1]);
    }
  }

  lemma {:induction false} BlockHasNoneTyped(ts: Tables, b: BlockStmt)
    requires BlockHolds(ts, b)
    ensures NoneTypedIn(ts, BlockUnder(b))
    decreases b
  {
    hide VarsHold, StmtsHold, StmtsUnder, NoneTyped;
    OwnVarsAreVars(b.stmts);
    VarsHoldNoneTyped(InBlock, ts[b.node], OwnVars(b.stmts));
    StmtsHaveNoneTyped(ts, b.stmts);
  }

  lemma {:induction false} StmtsHaveNoneTyped(ts: Tables, ss: seq<Stmt>)
    requires StmtsHold(ts, ss)
    ensures NoneTypedIn(ts, StmtsUnder(ss))
    decreases ss
  {
    hide StmtHolds, StmtUnder, NoneTyped;
    if ss != [] {
      StmtsHaveNoneTyped(ts, ss[..|ss| - 1]);
      StmtHasNoneTyped(ts, OwnVars(ss[..|ss| - 1]), ss[|ss| - 1]);
    }
  }

  lemma {:induction false} StmtHasNoneTyped(ts: Tables, earlier: seq<Var>, s: Stmt)
    requires StmtHolds(ts, earlier, s)
    ensures NoneTypedIn(ts, StmtUnder(s))
    decreases s
  {
    hide ValueHolds, BlocksHold, BlockHolds, BlocksUnder, BlockUnder, NoneTyped, Enters;
    match s {
      case VarStmt(v) => ValueHasNoneTyped(ts, v.initializer, Enters(InBlock, earlier, OfVarDecl(v)));
      case TypeStmt(_) =>
      case ExprStmt(e) => BlocksHaveNoneTyped(ts, e.blocks);
      case NestedBlock(b) => BlockHasNoneTyped(ts, b);
    }
  }

  lemma {:induction false} ParamsHaveNoneTyped(env: Env, ts: Tables, ps: seq<FuncParamDecl>)
    requires ParamsHold(env, ts, ps)
    ensures NoneTypedIn(ts, ParamsUnder(ps))
  {
    hide ValueHolds, ValueUnder, NoneTyped, Enters;
    if ps != [] {
      var before, p := ps[..|ps| - 1], ps[|ps| - 1];
      ParamsHaveNoneTyped(env, ts, before);
      ValueHasNoneTyped(ts, p.defaultValue, Enters(OutsideBlocks(env), ParamVars(before), OfParam(p)));
    }
  }

  lemma {:induction false} FuncsHaveNoneTyped(env: Env, ts: Tables, fs: seq<FuncDecl>)
    requires FuncsHold(env, ts, fs)
    ensures NoneTypedIn(ts, FuncsUnder(fs))
  {
    hide VarsHold, ParamsHold, BlockHolds, ParamsUnder, BlockUnder, NoneTyped, Enterable;
    if fs != [] {
      var f := fs[|fs| - 1];
      FuncsHaveNoneTyped(env, ts, fs[..|fs| - 1]);
      assert FuncHolds(env, ts, f);
      ParamVarsAreNoVars(f.params);
      VarsHoldNoneTyped(OutsideBlocks(env), ts[f.node], ParamVars(f.params));
      ParamsHaveNoneTyped(env, ts, f.params);
      if f.body.Some? {
        BlockHasNoneTyped(ts, f.body.value);
      }
    }
  }

  lemma {:induction false} DeclHasNoneTyped(env: Env, unit: seq<Decl>, ts: Tables, earlier: seq<Var>, d: Decl)
    requires DeclHolds(env, unit, ts, earlier, d)
    ensures NoneTypedIn(ts, DeclUnder(d))
  {
    hide ValueHolds, FuncHolds, TableIs, FuncUnder, ValueUnder, NameFree, Enters, ImplFuncs, NoneTyped;
    match d {
      case VarD(v) =>
        ValueHasNoneTyped(ts, v.initializer,
                          NameFree(env, unit, v.name) && Enters(OutsideBlocks(env), earlier, OfVarDecl(v)));
      case FuncD(f) =>
        FuncsHaveNoneTyped(env, ts, [f]);
        assert FuncsUnder([f]) == FuncsUnder([]) + FuncUnder(f);
      case ImplD(i) =>
        OverloadsHaveNoneTyped(env, ImplFuncs(env, i), ts[i.node]);
        FuncsHaveNoneTyped(env, ts, i.impls);
      case _ =>
    }
  }

  lemma {:induction false} OverloadsHaveNoneTyped(env: Env, fs: seq<FuncDecl>, t: Table)
    requires TableIs(env, map[], fs, t)
    ensures NoneTyped(t)
  {
    hide OverloadSet;
    forall name, d | d in Entry(t, name)
      ensures d.FuncD?
    {
      assert Entry(t, name) == Stored(env, map[], fs, name);
    }
  }

  /** In no scope inside the file is there a variable with a declared type: as types inside blocks are never resolved, such
      a variable is refused there. */
  lemma {:induction false} TypedLocalsAreInNoScope(env: Env, unit: seq<Decl>, ts: Tables, ds: seq<Decl>)
    requires DeclsHold(env, unit, ts, ds)
    ensures NoneTypedIn(ts, DeclsUnder(ds))
  {
    hide DeclHolds, DeclUnder, NoneTyped;
    if ds != [] {
      TypedLocalsAreInNoScope(env, unit, ts, ds[..|ds| - 1]);
      DeclHasNoneTyped(env, unit, ts, FileVars(ds[..|ds| - 1]), ds[|ds| - 1]);
    }
  }

  /** `let x: i32 = 1`, alone in a block. */
  lemma {:induction false} LoneTypedLocal(ts: Tables, b: BlockStmt, v: VarDecl)
    requires BlockHolds(ts, b) && b.stmts == [VarStmt(v)] && v.declaredType.Some?
    ensures forall name :: Entry(ts[b.node], name) == []
    ensures TablesEmpty(ts, ValueUnder(v.initializer))
  {
    var vs := OwnVars(b.stmts);
    assert b.stmts[..0] == [] && OwnVars([]) == [] && vs == [OfVarDecl(v)];
    forall name
      ensures Entry(ts[b.node], name) == []
    {
      assert NameHolds(InBlock, ts[b.node], vs, name);
    }
    assert b.stmts[..|b.stmts| - 1] == [] && b.stmts[|b.stmts| - 1] == VarStmt(v);
    assert StmtHolds(ts, [], VarStmt(v));
    assert !Enters(InBlock, [], OfVarDecl(v)) && ValueHolds(ts, v.initializer, false);
  }

  // The last pass makes them hold it, wherever nothing is declared before.

  /** None of these type nodes knows a type. */
  ghost predicate AllUnknown(m: Typing, slots: set<TypeSlot>) {
    forall s :: s in slots ==> s in m && m[s] == UNKNOWN
  }

  /** The type nodes of these variables know what the pass needs of them. */
  ghost predicate Agrees(place: Place, m: Typing, vs: seq<Var>) {
    forall v :: v in vs ==> (Usable(m, v) <==> Enterable(place, v))
  }

  lemma {:induction false} UnknownInBlock(m: Typing, ss: seq<Stmt>)
    requires AllUnknown(m, StmtsLocals(ss))
    ensures Agrees(InBlock, m, OwnVars(ss))
  {
    hide BlocksLocals, BlockLocals;
    if ss != [] {
      UnknownInBlock(m, ss[..|ss| - 1]);
      if ss[|ss| - 1].VarStmt? {
        UnknownHere(m, ss[|ss| - 1].decl);
      }
    }
  }

  lemma {:induction false} UnknownHere(m: Typing, v: VarDecl)
    requires AllUnknown(m, StmtLocals(VarStmt(v)))
    ensures Usable(m, OfVarDecl(v)) <==> Enterable(InBlock, OfVarDecl(v))
  {
    hide BlocksLocals;
  }

  lemma {:induction false} ResolvedOutside(env: Env, m: Typing, vs: seq<Var>)
    requires VarsResolved(env, m, vs)
    ensures Agrees(OutsideBlocks(env), m, vs)
  {
    hide Usable, Typable;
  }

  lemma {:induction false} EnteredHold(place: Place, m: Typing, t: Table, vs: seq<Var>)
    requires VarsEntered(m, map[], t, vs) && Agrees(place, m, vs)
    ensures VarsHold(place, t, vs)
  {
    hide NameEntered, NameHolds, Agrees;
    forall name
      ensures NameHolds(place, t, vs, name)
    {
      assert NameEntered(m, map[], t, vs, name);
      NameEnteredHolds(place, m, t, vs, name);
    }
  }

  lemma {:induction false} NameEnteredHolds(place: Place, m: Typing, t: Table, vs: seq<Var>, name: string)
    requires NameEntered(m, map[], t, vs, name) && Agrees(place, m, vs)
    ensures NameHolds(place, t, vs, name)
  {
    hide Usable, Enterable;
    assert forall i :: 0 <= i < |vs| ==> (Usable(m, vs[i]) <==> Enterable(place, vs[i])) by {
      assert forall i :: 0 <= i < |vs| ==> vs[i] in vs;
    }
    if i :| 0 <= i < |vs| && FirstUsable(m, vs, name, i) && Entry(t, name) == [vs[i].decl] {
      assert FirstEnterable(place, vs, name, i);
    }
  }

  lemma {:induction false} ElsewhereSame(c: Checked, c': Checked, ns: set<ScopedASTNode>, elsewhere: set<ScopedASTNode>)
    requires SameExcept(c, c', ns) && ns !! elsewhere
    ensures SameOn(c.tables, c'.tables, elsewhere)
    ensures TablesEmpty(c.tables, elsewhere) ==> TablesEmpty(c'.tables, elsewhere)
  {
  }

  /** A variable is refused, or its value visited, just as the variables before it say. */
  lemma {:induction false} EntersExactly(place: Place, m: Typing, t: Table, t': Table, earlier: seq<Var>, v: Var)
    requires VarsEntered(m, t, t', earlier) && Agrees(place, m, earlier) && (Usable(m, v) <==> Enterable(place, v))
    ensures Refusal(m, t', v).None? <==> Entry(t, v.name) == [] && Enters(place, earlier, v)
  {
    hide Untyped, Enterable;
    assert NameEntered(m, t, t', earlier, v.name);
    assert forall i :: 0 <= i < |earlier| ==> earlier[i] in earlier;
    if i :| 0 <= i < |earlier| && FirstUsable(m, earlier, v.name, i) && Entry(t', v.name) == [earlier[i].decl] {
      assert earlier[i] in earlier;
    }
  }

  lemma {:induction false} CheckVarHolds(place: Place, m: Typing, c: Checked, t: Table, earlier: seq<Var>, v: Var,
                                         n: ScopedASTNode)
    requires n in c.tables && VarsEntered(m, t, c.tables[n], earlier)
    requires Agrees(place, m, earlier) && (Usable(m, v) <==> Enterable(place, v))
    requires n !in ValueUnder(v.value) && TablesEmpty(c.tables, ValueUnder(v.value)) && ValueDistinct(v.value)
    requires AllUnknown(m, ValueLocals(v.value))
    ensures ValueHolds(CheckVar(m, c, v, n).tables, v.value, Entry(t, v.name) == [] && Enters(place, earlier, v))
    decreases v.value
  {
    hide VarsEntered, Refusal, Enters, Usable, Enterable, BlocksHold, BlocksUnder, BlocksLocals, CheckBlocks,
         BlocksDistinct;
    EntersExactly(place, m, t, c.tables[n], earlier, v);
    if Refusal(m, c.tables[n], v).None? && v.value.Some? {
      CheckBlocksHold(m, c, v.value.value.blocks);
      BlocksStay(ValueChecked(m, c, v).tables, CheckVar(m, c, v, n).tables, v.value.value.blocks);
    }
  }

  lemma {:induction false} CheckBlocksHold(m: Typing, c: Checked, bs: seq<BlockStmt>)
    requires BlocksDistinct(bs) && TablesEmpty(c.tables, BlocksUnder(bs)) && AllUnknown(m, BlocksLocals(bs))
    ensures BlocksHold(CheckBlocks(m, c, bs).tables, bs)
    decreases bs
  {
    hide BlockHolds, BlockUnder, BlockLocals, CheckBlock, BlockDistinct, SameExcept, SameOn;
    if bs != [] {
      var before, b := bs[..|bs| - 1], bs[|bs| - 1];
      var c1 := CheckBlocks(m, c, before);
      CheckBlocksHold(m, c, before);
      CheckBlocksLocal(m, c, before);
      ElsewhereSame(c, c1, BlocksUnder(before), BlockUnder(b));
      CheckBlockHolds(m, c1, b);
      CheckBlockLocal(m, c1, b);
      ElsewhereSame(c1, CheckBlock(m, c1, b), BlockUnder(b), BlocksUnder(before));
      BlocksStay(c1.tables, CheckBlock(m, c1, b).tables, before);
      assert forall x :: x in bs ==> x in before || x == b;
    }
  }

  lemma {:induction false} CheckBlockHolds(m: Typing, c: Checked, b: BlockStmt)
    requires BlockDistinct(b) && TablesEmpty(c.tables, BlockUnder(b)) && AllUnknown(m, BlockLocals(b))
    ensures BlockHolds(CheckBlock(m, c, b).tables, b)
    decreases b
  {
    hide VarsEntered, VarsHold, StmtsHold, StmtsUnder, StmtsLocals, CheckStmts, StmtsDistinct, Agrees;
    StmtsTable(m, c, b.stmts, b.node);
    UnknownInBlock(m, b.stmts);
    EnteredHold(InBlock, m, CheckBlock(m, c, b).tables[b.node], OwnVars(b.stmts));
    CheckStmtsHold(m, c, b.stmts, b.node);
  }

  lemma {:induction false} CheckStmtsHold(m: Typing, c: Checked, ss: seq<Stmt>, n: ScopedASTNode)
    requires n in c.tables && c.tables[n] == map[] && n !in StmtsUnder(ss)
    requires StmtsDistinct(ss) && TablesEmpty(c.tables, StmtsUnder(ss)) && AllUnknown(m, StmtsLocals(ss))
    ensures StmtsHold(CheckStmts(m, c, ss, n).tables, ss)
    decreases ss
  {
    hide StmtHolds, StmtUnder, StmtLocals, CheckStmt, StmtDistinct, SameExcept, SameOn, VarsEntered, Agrees;
    if ss != [] {
      var before, s := ss[..|ss| - 1], ss[|ss| - 1];
      var c1 := CheckStmts(m, c, before, n);
      CheckStmtsHold(m, c, before, n);
      CheckStmtsLocal(m, c, before, n);
      ElsewhereSame(c, c1, {n} + StmtsUnder(before), StmtUnder(s));
      StmtsTable(m, c, before, n);
      UnknownInBlock(m, before);
      CheckStmtHolds(m, c1, OwnVars(before), s, n);
      CheckStmtLocal(m, c1, s, n);
      ElsewhereSame(c1, CheckStmt(m, c1, s, n), {n} + StmtUnder(s), StmtsUnder(before));
      StmtsStay(c1.tables, CheckStmt(m, c1, s, n).tables, before);
    }
  }

  lemma {:induction false} CheckStmtHolds(m: Typing, c: Checked, earlier: seq<Var>, s: Stmt, n: ScopedASTNode)
    requires n in c.tables && VarsEntered(m, map[], c.tables[n], earlier) && Agrees(InBlock, m, earlier)
    requires n !in StmtUnder(s) && StmtDistinct(s) && TablesEmpty(c.tables, StmtUnder(s)) && AllUnknown(m, StmtLocals(s))
    ensures StmtHolds(CheckStmt(m, c, s, n).tables, earlier, s)
    decreases s
  {
    hide VarsEntered, ValueHolds, BlocksHold, BlockHolds, Enters, Usable, Enterable, Agrees, BlocksUnder, BlockUnder,
         BlocksLocals, BlockLocals, CheckVar, CheckBlocks, CheckBlock, BlocksDistinct, BlockDistinct;
    match s {
      case VarStmt(v) =>
        UnknownHere(m, v);
        CheckVarHolds(InBlock, m, c, map[], earlier, OfVarDecl(v), n);
      case TypeStmt(_) =>
      case ExprStmt(e) => CheckBlocksHold(m, c, e.blocks);
      case NestedBlock(b) => CheckBlockHolds(m, c, b);
    }
  }

  lemma {:induction false} CheckParamsHold(env: Env, m: Typing, c: Checked, ps: seq<FuncParamDecl>, n: ScopedASTNode)
    requires n in c.tables && c.tables[n] == map[] && n !in ParamsUnder(ps)
    requires ParamsDistinct(ps) && TablesEmpty(c.tables, ParamsUnder(ps))
    requires AllUnknown(m, ParamsLocals(ps)) && Agrees(OutsideBlocks(env), m, ParamVars(ps))
    ensures ParamsHold(env, CheckParams(m, c, ps, n).tables, ps)
  {
    hide ValueHolds, ValueUnder, ValueLocals, CheckVar, ValueDistinct, SameExcept, SameOn, VarsEntered, Enters, Usable,
         Enterable;
    if ps != [] {
      var before, p := ps[..|ps| - 1], ps[|ps| - 1];
      var c1 := CheckParams(m, c, before, n);
      assert forall v :: v in ParamVars(before) ==> v in ParamVars(ps);
      CheckParamsHold(env, m, c, before, n);
      CheckParamsLocal(m, c, before, n);
      ElsewhereSame(c, c1, {n} + ParamsUnder(before), ValueUnder(p.defaultValue));
      ParamsTable(m, c, before, n);
      CheckVarHolds(OutsideBlocks(env), m, c1, map[], ParamVars(before), OfParam(p), n);
      CheckVarLocal(m, c1, OfParam(p), n);
      ElsewhereSame(c1, CheckVar(m, c1, OfParam(p), n), {n} + ValueUnder(p.defaultValue), ParamsUnder(before));
      ParamsStay(env, c1.tables, CheckVar(m, c1, OfParam(p), n).tables, before);
    }
  }

  lemma {:induction false} CheckFuncHolds(env: Env, m: Typing, c: Checked, f: FuncDecl)
    requires FuncDistinct(f) && TablesEmpty(c.tables, FuncUnder(f))
    requires AllUnknown(m, FuncLocals(f)) && VarsResolved(env, m, ParamVars(f.params))
    ensures FuncHolds(env, CheckFunc(m, c, f).tables, f)
  {
    hide VarsEntered, VarsHold, ParamsHold, BlockHolds, ParamsUnder, BlockUnder, ParamsLocals, BlockLocals, CheckParams,
         CheckBlock, ParamsDistinct, BlockDistinct, SameExcept, Agrees, VarsResolved;
    var c1 := CheckParams(m, c, f.params, f.node);
    ResolvedOutside(env, m, ParamVars(f.params));
    CheckParamsHold(env, m, c, f.params, f.node);
    ParamsTable(m, c, f.params, f.node);
    EnteredHold(OutsideBlocks(env), m, c1.tables[f.node], ParamVars(f.params));
    CheckParamsLocal(m, c, f.params, f.node);
    if f.body.Some? {
      var b, mine := f.body.value, {f.node} + ParamsUnder(f.params);
      ElsewhereSame(c, c1, mine, BlockUnder(b));
      CheckBlockHolds(m, c1, b);
      CheckBlockLocal(m, c1, b);
      ElsewhereSame(c1, CheckBlock(m, c1, b), BlockUnder(b), mine);
      ParamsStay(env, c1.tables, CheckBlock(m, c1, b).tables, f.params);
    }
  }

  lemma {:induction false} CheckFuncsHold(env: Env, m: Typing, c: Checked, fs: seq<FuncDecl>)
    requires FuncsDistinct(fs) && TablesEmpty(c.tables, FuncsUnder(fs))
    requires AllUnknown(m, FuncsLocals(fs)) && forall f :: f in fs ==> VarsResolved(env, m, ParamVars(f.params))
    ensures FuncsHold(env, CheckFuncs(m, c, fs).tables, fs)
  {
    hide FuncHolds, FuncUnder, FuncLocals, CheckFunc, FuncDistinct, SameExcept, SameOn, VarsResolved;
    if fs != [] {
      var before, f := fs[..|fs| - 1], fs[|fs| - 1];
      var c1 := CheckFuncs(m, c, before);
      CheckFuncsHold(env, m, c, before);
      CheckFuncsLocal(m, c, before);
      ElsewhereSame(c, c1, FuncsUnder(before), FuncUnder(f));
      CheckFuncHolds(env, m, c1, f);
      CheckFuncLocal(m, c1, f);
      ElsewhereSame(c1, CheckFunc(m, c1, f), FuncUnder(f), FuncsUnder(before));
      FuncsStay(env, c1.tables, CheckFunc(m, c1, f).tables, before);
      assert forall x :: x in fs ==> x in before || x == f;
    }
  }

  /** What the last pass finds in the scopes inside a declaration: overload sets in `impl` blocks, and else nothing. */
  ghost predicate DeclReady(env: Env, ts: Tables, d: Decl) {
    match d
    case ImplD(i) =>
      i.node in ts && TableIs(env, map[], ImplFuncs(env, i), ts[i.node]) && TablesEmpty(ts, FuncsUnder(i.impls))
    case _ => TablesEmpty(ts, DeclUnder(d))
  }

  /** The parameters' type nodes know what the types mean. */
  ghost predicate SignaturesResolved(env: Env, m: Typing, d: Decl) {
    match d
    case FuncD(f) => VarsResolved(env, m, ParamVars(f.params))
    case ImplD(i) => forall f :: f in i.impls ==> VarsResolved(env, m, ParamVars(f.params))
    case _ => true
  }

  lemma {:induction false} CheckDeclHolds(env: Env, unit: seq<Decl>, m: Typing, c: Checked, t: Table, earlier: seq<Var>,
                                          d: Decl, root: ScopedASTNode)
    requires root in c.tables && VarsEntered(m, t, c.tables[root], earlier) && root !in DeclUnder(d)
    requires TableIs(env, FirstTypes(unit), FuncsOf(unit), t) && Agrees(OutsideBlocks(env), m, earlier)
    requires d.VarD? ==> (Usable(m, OfVarDecl(d.v)) <==> Enterable(OutsideBlocks(env), OfVarDecl(d.v)))
    requires DeclDistinct(d) && DeclReady(env, c.tables, d)
    requires AllUnknown(m, DeclLocals(d)) && SignaturesResolved(env, m, d)
    ensures DeclHolds(env, unit, CheckDecl(m, c, d, root).tables, earlier, d)
  {
    hide VarsEntered, ValueHolds, FuncHolds, FuncsHold, Enters, Usable, Enterable, Agrees, FuncUnder, FuncsUnder,
         ValueUnder, FuncLocals, FuncsLocals, ValueLocals, CheckVar, CheckFunc, CheckFuncs, ValueDistinct, FuncDistinct,
         FuncsDistinct, Stored, ImplFuncs, FirstTypes, FuncsOf, VarsResolved;
    match d {
      case VarD(v) =>
        assert Entry(t, v.name) == Stored(env, FirstTypes(unit), FuncsOf(unit), v.name);
        CheckVarHolds(OutsideBlocks(env), m, c, t, earlier, OfVarDecl(v), root);
      case FuncD(f) => CheckFuncHolds(env, m, c, f);
      case ImplD(i) =>
        CheckFuncsHold(env, m, c, i.impls);
        CheckFuncsLocal(m, c, i.impls);
      case _ =>
    }
  }

  lemma {:induction false} ReadyStays(env: Env, ts: Tables, ts': Tables, d: Decl)
    requires DeclReady(env, ts, d) && SameOn(ts, ts', DeclUnder(d))
    ensures DeclReady(env, ts', d)
  {
    hide TableIs, ImplFuncs, FuncsUnder, FuncUnder, ValueUnder;
  }

  /** From scopes as the second pass leaves them the last pass makes every scope of the unit hold what it should. */
  lemma {:induction false} CheckDeclsHold(env: Env, unit: seq<Decl>, m: Typing, c: Checked, ds: seq<Decl>,
                                          root: ScopedASTNode)
    requires root in c.tables && TableIs(env, FirstTypes(unit), FuncsOf(unit), c.tables[root]) && root !in DeclsUnder(ds)
    requires DeclsDistinct(ds) && AllUnknown(m, DeclsLocals(ds)) && Agrees(OutsideBlocks(env), m, FileVars(ds))
    requires forall d :: d in ds ==> DeclReady(env, c.tables, d) && SignaturesResolved(env, m, d)
    ensures DeclsHold(env, unit, CheckDecls(m, c, ds, root).tables, ds)
  {
    hide DeclHolds, DeclReady, DeclUnder, DeclLocals, CheckDecl, DeclDistinct, SameExcept, SameOn, VarsEntered, TableIs,
         Usable, Enterable, SignaturesResolved;
    if ds != [] {
      var before, d := ds[..|ds| - 1], ds[|ds| - 1];
      var c1 := CheckDecls(m, c, before, root);
      assert d in ds && forall v :: v in FileVars(before) ==> v in FileVars(ds);
      assert d.VarD? ==> OfVarDecl(d.v) in FileVars(ds);
      CheckDeclsHold(env, unit, m, c, before, root);
      CheckDeclsLocal(m, c, before, root);
      ElsewhereSame(c, c1, {root} + DeclsUnder(before), DeclUnder(d));
      ReadyStays(env, c.tables, c1.tables, d);
      FileTable(m, c, before, root);
      CheckDeclHolds(env, unit, m, c1, c.tables[root], FileVars(before), d, root);
      CheckDeclLocal(m, c1, d, root);
      ElsewhereSame(c1, CheckDecl(m, c1, d, root), DeclUnder(d) + if d.VarD? then {root} else {}, DeclsUnder(before));
      DeclsStay(env, unit, c1.tables, CheckDecl(m, c1, d, root).tables, before);
    }
  }
}
