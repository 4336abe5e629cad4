/** What the passes report, in terms of the source: which mistakes are reported, how often, and in which order. */
module Reports {
  import opened QualTypes
  import opened AST
  import opened NormalForms
  import opened AliasExpansion
  import opened Programs
  import opened SymbolTables
  import opened Diagnostics
  import opened ResolveTypeSymbols
  import opened MaterializeTypes
  import opened ForwardDeclareTypes
  import opened ResolveGlobalTypes
  import opened Overloads
  import opened ForwardDeclareFunctions
  import opened FunctionPass
  import opened TypeChecks

  /** These are the positions that satisfy a condition, from left to right. */
  ghost predicate Ascending(positions: seq<nat>, bound: nat) {
    && (forall k :: 0 <= k < |positions| ==> positions[k] < bound)
    && (forall j, k :: 0 <= j < k < |positions| ==> positions[j] < positions[k])
  }

  // Undefined names.

  /** The leaves of an expression from left to right. */
  ghost function LeafSeq(e: ASTType): seq<ASTType>
    decreases e, 1
  {
    match e
    case ASTBuiltinType(_, _) => [e]
    case ASTDeclTypeRef(_, _) => [e]
    case ASTQualType(t, _) => LeafSeq(t)
    case ASTPointerType(t, _, _) => LeafSeq(t)
    case ASTArrayType(t, _) => LeafSeq(t)
    case ASTFunctionType(ps, r, _) => LeavesOfAll(ps) + LeafSeq(r)
    case ASTObjectType(fs, _) => LeavesOfFields(fs)
    case ASTEnumType(fs, _) => LeavesOfFields(fs)
  }

  ghost function LeavesOfAll(ps: seq<ASTType>): seq<ASTType>
    decreases ps, 0
  {
    if ps == [] then [] else LeafSeq(ps[0]) + LeavesOfAll(ps[1..])
  }

  ghost function LeavesOfFields(fs: seq<Field>): seq<ASTType>
    decreases fs, 0
  {
    if fs == [] then [] else LeafSeq(fs[0].ty) + LeavesOfFields(fs[1..])
  }

  lemma {:induction false} LeavesInOrder(e: ASTType)
    ensures forall l :: l in LeafSeq(e) <==> l in Leaves(e)
    decreases e, 1
  {
    match e {
      case ASTQualType(t, _) => LeavesInOrder(t);
      case ASTPointerType(t, _, _) => LeavesInOrder(t);
      case ASTArrayType(t, _) => LeavesInOrder(t);
      case ASTFunctionType(ps, r, _) =>
        LeavesOfAllInOrder(ps);
        LeavesInOrder(r);
      case ASTObjectType(fs, _) => LeavesOfFieldsInOrder(fs);
      case ASTEnumType(fs, _) => LeavesOfFieldsInOrder(fs);
      case _ =>
    }
  }

  lemma {:induction false} LeavesOfAllInOrder(ps: seq<ASTType>)
    ensures forall l :: l in LeavesOfAll(ps) <==> LeafAmong(ps, l)
    decreases ps, 0
  {
    if ps != [] {
      LeavesInOrder(ps[0]);
      LeavesOfAllInOrder(ps[1..]);
      forall l
        ensures LeafAmong(ps, l) <==> l in Leaves(ps[0]) || LeafAmong(ps[1..], l)
      {
        FirstOrLater(ps, l);
      }
    }
  }

  ghost predicate LeafAmong(ps: seq<ASTType>, l: ASTType) {
    exists p :: p in ps && l in Leaves(p)
  }

  lemma {:induction false} FirstOrLater(ps: seq<ASTType>, l: ASTType)
    requires ps != []
    ensures LeafAmong(ps, l) <==> l in Leaves(ps[0]) || LeafAmong(ps[1..], l)
  {
    hide Leaves;
    assert forall p :: p in ps <==> p == ps[0] || p in ps[1..];
  }

  lemma {:induction false} LeavesOfFieldsInOrder(fs: seq<Field>)
    ensures forall l :: l in LeavesOfFields(fs) <==> exists f :: f in fs && l in Leaves(f.ty)
    decreases fs, 0
  {
    if fs != [] {
      LeavesInOrder(fs[0].ty);
      LeavesOfFieldsInOrder(fs[1..]);
      assert forall f :: f in fs <==> f == fs[0] || f in fs[1..];
    }
  }

  predicate Undefined(env: Env, leaf: ASTType) {
    leaf.ASTDeclTypeRef? && leaf.symbol !in env
  }

  /** These reports are for the undefined references among the leaves, one for each, in order. */
  ghost predicate ReportsUndefined(env: Env, leaves: seq<ASTType>, reports: seq<Diagnostic>, positions: seq<nat>) {
    && Ascending(positions, |leaves|) && |reports| == |positions|
    && (forall i :: 0 <= i < |leaves| ==> (i in positions <==> Undefined(env, leaves[i])))
    && (forall k :: 0 <= k < |positions| ==>
          && positions[k] < |leaves| && Undefined(env, leaves[positions[k]])
          && reports[k] == UndefinedTypeReference(leaves[positions[k]].symbol))
  }

  ghost function Shifted(positions: seq<nat>, n: nat): seq<nat> {
    seq(|positions|, k requires 0 <= k < |positions| => positions[k] + n)
  }

  lemma {:induction false} AscendingTogether(pa: seq<nat>, n: nat, pb: seq<nat>, m: nat)
    requires Ascending(pa, n) && Ascending(pb, m)
    ensures Ascending(pa + Shifted(pb, n), n + m)
    ensures forall i :: 0 <= i < n ==> (i in pa + Shifted(pb, n) <==> i in pa)
    ensures forall i :: 0 <= i < m ==> (n + i in pa + Shifted(pb, n) <==> i in pb)
  {
    var shifted := Shifted(pb, n);
    forall i | 0 <= i < m
      ensures i in pb <==> n + i in pa + shifted
    {
      assert n + i !in pa;
      if i in pb {
        var k :| 0 <= k < |pb| && pb[k] == i;
        assert shifted[k] == n + i;
      }
    }
    assert forall i :: 0 <= i < n ==> i !in shifted;
  }

  lemma {:induction false} ReportsTogether(env: Env, a: seq<ASTType>, b: seq<ASTType>, ra: seq<Diagnostic>,
                                           rb: seq<Diagnostic>, pa: seq<nat>, pb: seq<nat>) returns (p: seq<nat>)
    requires ReportsUndefined(env, a, ra, pa) && ReportsUndefined(env, b, rb, pb)
    ensures ReportsUndefined(env, a + b, ra + rb, p)
  {
    hide Ascending, Undefined, Shifted;
    var shifted := Shifted(pb, |a|);
    p := pa + shifted;
    AscendingTogether(pa, |a|, pb, |b|);
    var both := a + b;
    forall i | 0 <= i < |both|
      ensures i in p <==> Undefined(env, both[i])
    {
      if i >= |a| {
        assert |a| + (i - |a|) in p <==> i - |a| in pb;
      }
    }
    ReportsOfBoth(env, a, b, ra, rb, pa, pb);
  }

  lemma {:induction false} ReportsOfBoth(env: Env, a: seq<ASTType>, b: seq<ASTType>, ra: seq<Diagnostic>,
                                         rb: seq<Diagnostic>, pa: seq<nat>, pb: seq<nat>)
    requires ReportsUndefined(env, a, ra, pa) && ReportsUndefined(env, b, rb, pb)
    ensures var p := pa + Shifted(pb, |a|);
            && |ra + rb| == |p|
            && forall k :: 0 <= k < |p| ==>
                 && p[k] < |a + b| && Undefined(env, (a + b)[p[k]])
                 && (ra + rb)[k] == UndefinedTypeReference((a + b)[p[k]].symbol)
  {
    var p := pa + Shifted(pb, |a|);
    forall k | 0 <= k < |p|
      ensures p[k] < |a + b| && Undefined(env, (a + b)[p[k]])
              && (ra + rb)[k] == UndefinedTypeReference((a + b)[p[k]].symbol)
    {
      if k < |pa| {
        assert p[k] == pa[k] && (a + b)[p[k]] == a[pa[k]];
      } else {
        assert p[k] == pb[k - |pa|] + |a| && (a + b)[p[k]] == b[pb[k - |pa|]];
      }
    }
  }

  /** One report for each undefined reference, from left to right, and no other. */
  lemma {:induction false} UndefinedInOrder(env: Env, e: ASTType) returns (positions: seq<nat>)
    ensures ReportsUndefined(env, LeafSeq(e), Unresolved(env, e), positions)
    decreases e, 1
  {
    match e {
      case ASTBuiltinType(_, _) => positions := [];
      case ASTDeclTypeRef(s, _) => positions := if s in env then [] else [0];
      case ASTQualType(t, _) => positions := UndefinedInOrder(env, t);
      case ASTPointerType(t, _, _) => positions := UndefinedInOrder(env, t);
      case ASTArrayType(t, _) => positions := UndefinedInOrder(env, t);
      case ASTFunctionType(ps, r, _) =>
        var before := UndefinedAmong(env, ps);
        var last := UndefinedInOrder(env, r);
        positions := ReportsTogether(env, LeavesOfAll(ps), LeafSeq(r), UnresolvedAll(env, ps), Unresolved(env, r), before, last);
      case ASTObjectType(fs, _) => positions := UndefinedInFields(env, fs);
      case ASTEnumType(fs, _) => positions := UndefinedInFields(env, fs);
    }
  }

  lemma {:induction false} UndefinedAmong(env: Env, ps: seq<ASTType>) returns (positions: seq<nat>)
    ensures ReportsUndefined(env, LeavesOfAll(ps), UnresolvedAll(env, ps), positions)
    decreases ps, 0
  {
    positions := [];
    if ps != [] {
      var first := UndefinedInOrder(env, ps[0]);
      var rest := UndefinedAmong(env, ps[1..]);
      positions := ReportsTogether(env, LeafSeq(ps[0]), LeavesOfAll(ps[1..]), Unresolved(env, ps[0]),
                                   UnresolvedAll(env, ps[1..]), first, rest);
    }
  }

  lemma {:induction false} UndefinedInFields(env: Env, fs: seq<Field>) returns (positions: seq<nat>)
    ensures ReportsUndefined(env, LeavesOfFields(fs), UnresolvedFields(env, fs), positions)
    decreases fs, 0
  {
    positions := [];
    if fs != [] {
      var first := UndefinedInOrder(env, fs[0].ty);
      var rest := UndefinedInFields(env, fs[1..]);
      positions := ReportsTogether(env, LeafSeq(fs[0].ty), LeavesOfFields(fs[1..]), Unresolved(env, fs[0].ty),
                                   UnresolvedFields(env, fs[1..]), first, rest);
    }
  }

  /** The expression refers to a name that means nothing. */
  ghost predicate RefersToUndefined(env: Env, e: ASTType, name: string) {
    NamedUndefined(env, Leaves(e), name)
  }

  ghost predicate NamedUndefined(env: Env, leaves: set<ASTType>, name: string) {
    exists l :: l in leaves && Undefined(env, l) && l.symbol == name
  }

  lemma {:induction false} ReportedExactly(env: Env, leaves: seq<ASTType>, among: set<ASTType>, reports: seq<Diagnostic>,
                                           positions: seq<nat>, name: string)
    requires ReportsUndefined(env, leaves, reports, positions) && forall l :: l in leaves <==> l in among
    ensures UndefinedTypeReference(name) in reports <==> NamedUndefined(env, among, name)
  {
    if UndefinedTypeReference(name) in reports {
      var k :| 0 <= k < |reports| && reports[k] == UndefinedTypeReference(name);
      var l := leaves[positions[k]];
      assert l in leaves && Undefined(env, l) && l.symbol == name;
    }
    if NamedUndefined(env, among, name) {
      var l :| l in among && Undefined(env, l) && l.symbol == name;
      var i :| 0 <= i < |leaves| && leaves[i] == l;
      var k :| 0 <= k < |positions| && positions[k] == i;
      assert reports[k] == UndefinedTypeReference(name);
    }
  }

  /** A name is reported for an expression exactly if the expression refers to it and it means nothing. */
  lemma {:induction false} UndefinedExactly(env: Env, e: ASTType)
    ensures forall name :: UndefinedTypeReference(name) in Unresolved(env, e) <==> RefersToUndefined(env, e, name)
    ensures forall r :: r in Unresolved(env, e) ==> r.UndefinedTypeReference?
  {
    hide Unresolved, NamedUndefined;
    var positions := UndefinedInOrder(env, e);
    LeavesInOrder(e);
    var reports := Unresolved(env, e);
    forall name
      ensures UndefinedTypeReference(name) in reports <==> RefersToUndefined(env, e, name)
    {
      ReportedExactly(env, LeafSeq(e), Leaves(e), reports, positions, name);
    }
    forall r | r in reports
      ensures r.UndefinedTypeReference?
    {
      var k :| 0 <= k < |reports| && reports[k] == r;
    }
  }

  /** A type written in the function's parameters, or its own, refers to a name that means nothing. */
  ghost predicate FuncRefersToUndefined(env: Env, f: FuncDecl, name: string) {
    || RefersToUndefined(env, f.declaredType, name)
    || exists p :: p in f.params && RefersToUndefined(env, p.declaredType, name)
  }

  ghost predicate DeclRefersToUndefined(env: Env, d: Decl, name: string) {
    match d
    case TypeD(t) => RefersToUndefined(env, t.declaredType, name)
    case VarD(v) => v.declaredType.Some? && RefersToUndefined(env, v.declaredType.value, name)
    case FuncD(f) => FuncRefersToUndefined(env, f, name)
    case ImplD(i) =>
      RefersToUndefined(env, i.declaredType, name) || exists f :: f in i.impls && FuncRefersToUndefined(env, f, name)
    case ParamD(_) => false
  }

  lemma {:induction false} UndefinedInRoots(env: Env, rs: seq<TypeRoot>, name: string)
    ensures UndefinedTypeReference(name) in UnresolvedRoots(env, rs) <==>
            exists r :: r in rs && RefersToUndefined(env, r.ty, name)
  {
    hide Unresolved, RefersToUndefined;
    if rs != [] {
      UndefinedExactly(env, rs[0].ty);
      UndefinedInRoots(env, rs[1..], name);
      assert forall r :: r in rs <==> r == rs[0] || r in rs[1..];
    }
  }

  lemma {:induction false} RootsOfFuncOnly(f: FuncDecl, r: TypeRoot)
    requires r in FuncRoots(f)
    ensures r.ty == f.declaredType || exists p :: p in f.params && p.declaredType == r.ty
  {
    if r in ParamRoots(f.params, f.node) {
      var i :| 0 <= i < |f.params| && ParamRoots(f.params, f.node)[i] == r;
      assert f.params[i] in f.params;
    }
  }

  lemma {:induction false} FuncUndefinedExactly(env: Env, f: FuncDecl, name: string)
    ensures (exists r :: r in FuncRoots(f) && RefersToUndefined(env, r.ty, name)) <==> FuncRefersToUndefined(env, f, name)
  {
    hide RefersToUndefined, FuncRoots;
    RootsOfFunc(f);
    if r :| r in FuncRoots(f) && RefersToUndefined(env, r.ty, name) {
      RootsOfFuncOnly(f, r);
    }
    if p :| p in f.params && RefersToUndefined(env, p.declaredType, name) {
      assert TypeRoot(p.declaredType, f.node) in FuncRoots(f);
    }
  }

  lemma {:induction false} DeclUndefinedExactly(env: Env, d: Decl, node: ScopedASTNode, name: string)
    ensures (exists r :: r in DeclRoots(d, node) && RefersToUndefined(env, r.ty, name)) <==> DeclRefersToUndefined(env, d, name)
  {
    hide RefersToUndefined, FuncRoots, FuncsRoots, FuncRefersToUndefined;
    match d {
      case TypeD(t) => assert DeclRoots(d, node) == [TypeRoot(t.declaredType, node)];
      case VarD(v) => assert v.declaredType.Some? ==> DeclRoots(d, node) == [TypeRoot(v.declaredType.value, node)];
      case FuncD(f) => FuncUndefinedExactly(env, f, name);
      case ImplD(i) =>
        if r :| r in FuncsRoots(i.impls) && RefersToUndefined(env, r.ty, name) {
          var f := RootIsOfFunc(i.impls, r);
          FuncUndefinedExactly(env, f, name);
        }
        if f :| f in i.impls && FuncRefersToUndefined(env, f, name) {
          FuncUndefinedExactly(env, f, name);
          FuncRootsAreRoots(i.impls, f);
        }
        assert TypeRoot(i.declaredType, i.node) in DeclRoots(d, node);
      case ParamD(_) =>
    }
  }

  /** A unit's undefined names are those reported: every name a type outside blocks refers to in vain, and no other. */
  lemma {:induction false} UnitUndefinedExactly(env: Env, p: ProgramDecl, name: string)
    ensures UndefinedTypeReference(name) in UnresolvedRoots(env, Roots(p)) <==>
            exists d :: d in p.decls && DeclRefersToUndefined(env, d, name)
  {
    hide RefersToUndefined, DeclRoots, DeclRefersToUndefined;
    UndefinedInRoots(env, Roots(p), name);
    if r :| r in Roots(p) && RefersToUndefined(env, r.ty, name) {
      var d := RootIsOfDecl(p.decls, p.node, r);
      DeclUndefinedExactly(env, d, p.node, name);
    }
    if d :| d in p.decls && DeclRefersToUndefined(env, d, name) {
      DeclUndefinedExactly(env, d, p.node, name);
      DeclRootsAreRoots(p.decls, p.node, d);
    }
  }

  // Type names declared twice.

  ghost predicate DeclaredBefore(ds: seq<Decl>, j: nat, name: string)
    requires j < |ds|
  {
    ds[j].TypeD? && ds[j].t.name == name && exists i :: 0 <= i < j && ds[i].TypeD? && ds[i].t.name == name
  }

  /** A name is reported exactly if it is declared as a type at two positions. */
  lemma {:induction false} RedefinitionsExactly(ds: seq<Decl>, name: string)
    ensures TypeRedefinition(name) in TypeClashes(ds) <==> exists j :: 0 <= j < |ds| && DeclaredBefore(ds, j, name)
  {
    if ds != [] {
      var init, n := ds[..|ds| - 1], |ds| - 1;
      RedefinitionsExactly(init, name);
      BoundIffDeclared(init, name);
      assert forall j :: 0 <= j < n ==> (DeclaredBefore(ds, j, name) <==> DeclaredBefore(init, j, name));
      assert DeclaredBefore(ds, n, name) <==> TypeRedefinition(name) in TypeClash(FirstTypes(init), ds[n]);
    }
  }

  lemma {:induction false} BoundIffDeclared(ds: seq<Decl>, name: string)
    ensures name in FirstTypes(ds) <==> exists i :: 0 <= i < |ds| && ds[i].TypeD? && ds[i].t.name == name
  {
    if ds == [] {
      assert name !in FirstTypes(ds);
    } else {
      var init, d := ds[..|ds| - 1], ds[|ds| - 1];
      BoundIffDeclared(init, name);
      assert name in FirstTypes(ds) <==> name in FirstTypes(init) || (d.TypeD? && d.t.name == name);
      assert forall i :: 0 <= i < |init| ==> ds[i] == init[i];
    }
  }

  // Functions that are not declared.

  /** The function has a known parameter list, and an earlier one of its name has the same. */
  ghost predicate RepeatsEarlier(env: Env, earlier: seq<FuncDecl>, f: FuncDecl) {
    Sig(env, f).Some? && exists g :: g in earlier && g.name == f.name && Sig(env, g) == Sig(env, f)
  }

  /** What is said about each function in turn: its name belongs to a type, or its parameter list is taken. */
  ghost function RefusedFuncs(env: Env, types: Env, fs: seq<FuncDecl>): seq<Diagnostic> {
    if fs == [] then [] else
      var before, f := fs[..|fs| - 1], fs[|fs| - 1];
      RefusedFuncs(env, types, before) +
      if f.name in types then [FunctionNameTaken(f.name), PreviouslyDeclared]
      else if RepeatsEarlier(env, before, f) then [OverloadClash(f.name), PreviouslyDeclared]
      else []
  }

  /** The reports about the functions of a scope, in order. A function that is not kept and whose type is known is reported. */
  lemma {:induction false} FuncReportsExactly(env: Env, types: Env, fs: seq<FuncDecl>)
    requires !Unjudgeables(env, types, fs)
    ensures FuncsReports(env, TypeTable(types), fs) == RefusedFuncs(env, types, fs)
  {
    hide Sig, Judge, Fits, Unjudgeables, Unjudgeable, TypeTable, TableIs, AddFails, AddFuncs;
    if fs != [] {
      var before, f := fs[..|fs| - 1], fs[|fs| - 1];
      FewerAreJudgeable(env, types, fs);
      FuncReportsExactly(env, types, before);
      FunctionTableIsExact(env, types, before);
      JudgedExactly(env, types, before, f);
      EntryIsStored(env, types, before, AddFuncs(env, TypeTable(types), before), f.name);
      KeptOrReported(env, before, f);
    }
  }

  lemma {:induction false} EntryIsStored(env: Env, types: Env, fs: seq<FuncDecl>, t: Table, name: string)
    requires TableIs(env, types, fs, t)
    ensures Entry(t, name) == Stored(env, types, fs, name)
  {
  }

  /** A function with a known type that does not fit repeats the parameter list of an earlier one. */
  lemma {:induction false} KeptOrReported(env: Env, earlier: seq<FuncDecl>, f: FuncDecl)
    ensures RepeatsEarlier(env, earlier, f) <==> !Fits(env, earlier, f) && Sig(env, f).Some?
  {
    hide Sig;
  }

  /** The reports about a block: those about its functions if it is for a named type; if its type is another known one, that. */
  ghost function BlockReports(env: Env, i: ImplDecl): seq<Diagnostic> {
    match NormalForm(env, i.declaredType)
    case Known(SNamed(_)) => RefusedFuncs(env, map[], i.impls)
    case Known(_) => [ImplOnNonType]
    case _ => []
  }

  /** Something is reported by the pass exactly if it is reported about the file's own functions or about some block. */
  lemma {:induction false} UnitFuncReportsExactly(env: Env, ts: Tables, ds: seq<Decl>, root: ScopedASTNode, r: Diagnostic)
    requires ImplsApart(ds, root) && Untouched(FirstTypes(ds), ts, ds, root) && !UnitUnjudgeable(env, ds)
    requires forall d :: d in ds && d.ImplD? ==> NormalForm(env, d.i.declaredType) != Diverges
    ensures r in DeclsReports(env, ts, ds, root) <==>
            r in RefusedFuncs(env, FirstTypes(ds), FuncsOf(ds))
            || exists d :: d in ds && d.ImplD? && r in BlockReports(env, d.i)
  {
    hide NormalForm, FuncsReports, RefusedFuncs, DeclsReports, ImplsApart, FuncsOf, FirstTypes, ImplUnjudgeable, Unjudgeables;
    ReportedSomewhere(env, ts, ds, root, r);
    FuncReportsExactly(env, FirstTypes(ds), FuncsOf(ds));
    forall d | d in ds && d.ImplD?
      ensures r in TableReports(env, ts, d.i) <==> r in BlockReports(env, d.i)
    {
      BlockReportsExactly(env, ts, d);
    }
  }

  lemma {:induction false} BlockReportsExactly(env: Env, ts: Tables, d: Decl)
    requires d.ImplD? && d.i.node in ts && ts[d.i.node] == map[] && !ImplUnjudgeable(env, d)
             && NormalForm(env, d.i.declaredType) != Diverges
    ensures TableReports(env, ts, d.i) == BlockReports(env, d.i)
  {
    hide NormalForm, FuncsReports, RefusedFuncs, Unjudgeables;
    assert TypeTable(map[]) == map[];
    if ImplTarget(env, d.i).Some? {
      FuncReportsExactly(env, map[], d.i.impls);
    }
  }

  /** The reports about a block, from the tables before the pass. */
  ghost function TableReports(env: Env, ts: Tables, i: ImplDecl): seq<Diagnostic> {
    DeclReports(env, ts, ImplD(i), i.node)
  }

  lemma {:induction false} ReportedSomewhere(env: Env, ts: Tables, ds: seq<Decl>, root: ScopedASTNode, r: Diagnostic)
    requires ImplsApart(ds, root) && root in ts && forall d :: d in ds && d.ImplD? ==> d.i.node in ts
    ensures r in DeclsReports(env, ts, ds, root) <==>
            r in FuncsReports(env, ts[root], FuncsOf(ds))
            || exists d :: d in ds && d.ImplD? && r in TableReports(env, ts, d.i)
  {
    hide ImplsApart, TablesAre, DeclReports, DeclTables, FuncsReports, TableReports;
    if ds == [] {
      assert FuncsReports(env, ts[root], []) == [] by { NoReportsYet(env, ts[root]); }
    } else {
      var before, d := ds[..|ds| - 1], ds[|ds| - 1];
      assert before + [d] == ds;
      FewerApart(before, d, root);
      ReportedSomewhere(env, ts, before, root, r);
      TablesAfterDecls(env, ts, before, root);
      ReportedAtLast(env, ts, DeclsTables(env, ts, before, root), before, d, root);
      assert forall x :: x in ds <==> x in before || x == d;
    }
  }

  lemma {:induction false} NoReportsYet(env: Env, t: Table)
    ensures FuncsReports(env, t, []) == []
  {
  }

  lemma {:induction false} ReportedAtLast(env: Env, ts: Tables, ts': Tables, ds: seq<Decl>, d: Decl, root: ScopedASTNode)
    requires TablesAre(env, ts, ts', ds, root) && ImplsApart(ds + [d], root) && (d.ImplD? ==> d.i.node in ts)
    ensures d.ImplD? ==> DeclReports(env, ts', d, root) == TableReports(env, ts, d.i)
                         && FuncsReports(env, ts[root], FuncsOf(ds + [d])) == FuncsReports(env, ts[root], FuncsOf(ds))
    ensures !d.ImplD? ==> FuncsReports(env, ts[root], FuncsOf(ds + [d])) ==
                          FuncsReports(env, ts[root], FuncsOf(ds)) + DeclReports(env, ts', d, root)
  {
    hide AddFunc, AddFuncs, ImplTarget, Judge, FuncsOf, NormalForm, ImplFuncs, FuncReport;
    OneMoreMember(ds, d);
    assert FuncsOf(ds) + [] == FuncsOf(ds);
    match d {
      case FuncD(f) =>
        var fs := FuncsOf(ds);
        assert (fs + [f])[..|fs|] == fs && (fs + [f])[|fs|] == f;
      case ImplD(i) => ItsOwnImpl(ds, d, root);
      case _ => assert FuncsReports(env, ts[root], FuncsOf(ds)) + [] == FuncsReports(env, ts[root], FuncsOf(ds));
    }
  }

  // Variables that are not entered.

  /** What is said about a variable: that its name is taken, by what the scope held before or by a variable entered before
      it; else that it has neither a type nor a value; and nothing if only its type is unknown. */
  lemma {:induction false} RefusedExactly(m: Typing, t: Table, t': Table, earlier: seq<Var>, v: Var)
    requires VarsEntered(m, t, t', earlier)
    ensures var taken := Entry(t, v.name) != [] || exists w :: w in earlier && w.name == v.name && Usable(m, w);
            && (taken ==> Refusal(m, t', v) == Some([Redefinition(v.name), PreviouslyDeclared]))
            && (!taken && v.declaredType.None? && v.value.None? ==> Refusal(m, t', v) == Some([CannotDefaultInitialize]))
            && (!taken && v.declaredType.Some? && !Usable(m, v) ==> Refusal(m, t', v) == Some([]))
            && (!taken && Usable(m, v) ==> Refusal(m, t', v) == None)
  {
    hide Untyped;
    assert NameEntered(m, t, t', earlier, v.name);
    assert forall i :: 0 <= i < |earlier| ==> earlier[i] in earlier;
  }
}
