/** The front end's semantic analysis: builtins first, then the three passes over one unit after the other. */
module Pipeline {
  import opened QualTypes
  import opened LexicalScopes
  import opened AST
  import opened TypeStorage
  import opened TypeContexts
  import opened NormalForms
  import opened Materialisation
  import opened Programs
  import opened ScopeTrees
  import opened SymbolTables
  import opened Diagnostics
  import opened ResolveTypeSymbols
  import opened MaterializeTypes
  import opened ResolveGlobalTypes
  import opened Overloads
  import opened ForwardDeclareFunctions
  import opened FunctionPass
  import opened TypeChecks
  import opened ScopeContents
  import opened TypeCheckPass
  import opened PipelineSpecs

  /** The type nodes outside blocks. */
  ghost function Outer(owner: Owner, p: ProgramDecl): Owner {
    owner - DeclsLocals(p.decls)
  }

  /** A unit as the parser delivers it, with aliases whose expansion ends. No type node inside a block is one outside. */
  ghost predicate UnitShaped(builtins: Env, p: ProgramDecl, owner: Owner) {
    && Placed(p) && UnitDistinct(p) && Shaped(p.decls)
    && (forall d :: d in p.decls ==> Located(d, p.node, UnitNodes(p), owner))
    && Owns(Outer(owner, p), builtins, p) && AllEnd(EnvOf(builtins, p), Roots(p))
  }

  lemma {:induction false} OwnsMore(owner: Owner, builtins: Env, p: ProgramDecl)
    requires Owns(Outer(owner, p), builtins, p)
    ensures Owns(owner, builtins, p)
  {
    hide Roots, DeclsLocals, Owned;
    var outer := Outer(owner, p);
    var locals := owner - outer.Keys;
    assert outer + locals == owner;
    forall r | r in Roots(p) ensures Owned(owner, r.ty) { OwnedMore(outer, locals, r.ty); }
    forall n | n in builtins ensures Owned(owner, builtins[n].declaredType) {
      OwnedMore(outer, locals, builtins[n].declaredType);
    }
  }

  lemma {:induction false} LocalsAreOwned(builtins: Env, p: ProgramDecl, owner: Owner)
    requires forall d :: d in p.decls ==> Located(d, p.node, UnitNodes(p), owner)
    ensures DeclsLocals(p.decls) <= owner.Keys
  {
    hide DeclDeep, DeclsUnder;
    DeclsLocalsOwned(p.decls, p.node, UnitNodes(p), owner);
  }

  ghost predicate NotEntered(p: ProgramDecl)
    reads UnitNodes(p)
  {
    forall n :: n in UnitNodes(p) ==> n.scope == null
  }

  // The first pass looks at type nodes outside blocks only, so those inside stay as they are.

  lemma {:induction false} Snapshots(owner: Owner, p: ProgramDecl)
    ensures BindingOf(Outer(owner, p)) == BindingOf(owner) - DeclsLocals(p.decls) && BindingOf(owner).Keys == owner.Keys
    ensures TypingOf(Outer(owner, p)) == TypingOf(owner) - DeclsLocals(p.decls) && TypingOf(owner).Keys == owner.Keys
  {
  }

  lemma {:induction false} NotAmongOuter(owner: Owner, p: ProgramDecl)
    requires AllUnknown(TypingOf(owner), DeclsLocals(p.decls))
    ensures Outer(owner, p).Keys <= owner.Keys
    ensures forall s :: s in DeclsLocals(p.decls) ==> s in owner && s !in Outer(owner, p) && s.ty == UNKNOWN
  {
  }

  lemma {:induction false} StillUnknown(owner: Owner, p: ProgramDecl)
    requires forall s :: s in DeclsLocals(p.decls) ==> s in owner && s.ty == UNKNOWN
    ensures AllUnknown(TypingOf(owner), DeclsLocals(p.decls))
  {
  }

  lemma {:induction false} ShapedParts(builtins: Env, p: ProgramDecl, owner: Owner)
    requires UnitShaped(builtins, p, owner)
    ensures Placed(p) && Owns(Outer(owner, p), builtins, p) && AllEnd(EnvOf(builtins, p), Roots(p))
    ensures forall r :: r in Roots(p) ==> Owned(Outer(owner, p), r.ty)
  {
    hide UnitDistinct, Shaped, Located, AllEnd, Owned, Placed, Roots, Outer;
  }

  lemma {:induction false} Narrow(env: Env, p: ProgramDecl, owner: Owner, b: Binding, st: Storage, m: Typing)
    requires WellFormed(st) && NoneMisbound(env, owner, b) && Sound(env, owner, st, m)
    ensures NoneMisbound(env, Outer(owner, p), b - DeclsLocals(p.decls))
    ensures Sound(env, Outer(owner, p), st, m - DeclsLocals(p.decls))
  {
    hide WellFormed, Means, Normal, DeclsLocals;
  }

  lemma {:induction false} Widen(env: Env, p: ProgramDecl, owner: Owner, b: Binding, st: Storage, m0: Typing, m: Typing)
    requires WellFormed(st) && m.Keys == owner.Keys && m0.Keys == owner.Keys && b.Keys == owner.Keys
    requires Sound(env, Outer(owner, p), st, m - DeclsLocals(p.decls))
    requires AllUnknown(m0, DeclsLocals(p.decls)) && AllUnknown(m, DeclsLocals(p.decls))
    requires TypesKept(m0 - DeclsLocals(p.decls), m - DeclsLocals(p.decls))
    requires Resolved(env, Roots(p), st, m - DeclsLocals(p.decls))
    requires AllBound(env, Roots(p), b - DeclsLocals(p.decls))
    requires forall r :: r in Roots(p) ==> Owned(Outer(owner, p), r.ty)
    ensures Sound(env, owner, st, m) && TypesKept(m0, m) && Resolved(env, Roots(p), st, m) && AllBound(env, Roots(p), b)
  {
    hide WellFormed, Means, Normal, DeclsLocals, Roots, BoundIn, Owned;
    forall s | s in owner && m[s] != UNKNOWN ensures s in Outer(owner, p) && s in m - DeclsLocals(p.decls) {
      assert s !in DeclsLocals(p.decls);
    }
    forall s | s in m0 && m0[s] != UNKNOWN ensures s in m0 - DeclsLocals(p.decls) {
      assert s !in DeclsLocals(p.decls);
    }
    forall r | r in Roots(p) ensures BoundIn(env, b, r.ty) {
      BoundElsewhere(env, Outer(owner, p), b - DeclsLocals(p.decls), b, r.ty);
    }
  }

  /** The first pass leaves the file's types in its scope and touches no other table, and no type node inside a block. */
  method ResolveUnit(p: ProgramDecl, lc: LexicalContext<Decl>, tc: TypeContext, dc: DiagnosticConsumer,
                     ghost builtins: Env, ghost owner: Owner, ghost nodes: set<ScopedASTNode>)
    requires TreeOk(lc.scopeStorage, ScopesOf(nodes)) && lc.scopeStorage[0].symbolTable == TypeTable(builtins)
    requires UnitShaped(builtins, p, owner) && UnitNodes(p) <= nodes && NotEntered(p)
    requires tc.Valid() && NoneMisbound(EnvOf(builtins, p), owner, BindingOf(owner))
    requires Sound(EnvOf(builtins, p), owner, tc.storage, TypingOf(owner))
    requires AllUnknown(TypingOf(owner), DeclsLocals(p.decls))
    modifies lc, nodes, tc, owner.Keys`declNode, owner.Keys`ty, dc
    ensures TreeOk(lc.scopeStorage, ScopesOf(nodes)) && old(lc.scopeStorage) <= lc.scopeStorage
    ensures ScopesKept(old(ScopesOf(nodes)), ScopesOf(nodes), UnitNodes(p))
    ensures forall s :: s in ScopeSet(nodes) ==> s in old(ScopeSet(nodes)) || fresh(s)
    ensures p.node in nodes && p.node.scope != null && ScopesOf(nodes)[p.node] == p.node.scope
    ensures {p.node} + Among(DeclsNodes(p.decls)) <= nodes && UnitSees(p, builtins, lc.scopeStorage, ScopesOf(nodes))
    ensures lc.scopeStorage[0].symbolTable == old(lc.scopeStorage[0].symbolTable)
    ensures TablesOf(nodes) == old(TablesOf(nodes))[p.node := TypeTable(FirstTypes(p.decls))]
    ensures TablesEmpty(old(TablesOf(nodes)), UnitNodes(p))
    ensures tc.Valid() && ImplsKept(old(tc.impls), tc.impls)
    ensures Sound(EnvOf(builtins, p), owner, tc.storage, TypingOf(owner))
    ensures TypesKept(old(TypingOf(owner)), TypingOf(owner))
    ensures Resolved(EnvOf(builtins, p), Roots(p), tc.storage, TypingOf(owner))
    ensures AllUnknown(TypingOf(owner), DeclsLocals(p.decls))
    ensures tc.storage == MatRoots(EnvOf(builtins, p), old(tc.storage), Roots(p))
    ensures AllBound(EnvOf(builtins, p), Roots(p), BindingOf(owner))
  {
    hide *;
    ghost var env, outer, m0 := EnvOf(builtins, p), Outer(owner, p), TypingOf(owner);
    ShapedParts(builtins, p, owner);
    ValidIsWellFormed(tc);
    Snapshots(owner, p);
    Narrow(env, p, owner, BindingOf(owner), tc.storage, m0);
    NotAmongOuter(owner, p);
    ResolveOuter(p, lc, tc, dc, builtins, outer, nodes);
    ValidIsWellFormed(tc);
    Snapshots(owner, p);
    StillUnknown(owner, p);
    Widen(env, p, owner, BindingOf(owner), tc.storage, m0, TypingOf(owner));
  }

  /** The pass as far as it looks. */
  method ResolveOuter(p: ProgramDecl, lc: LexicalContext<Decl>, tc: TypeContext, dc: DiagnosticConsumer,
                     ghost builtins: Env, ghost owner: Owner, ghost nodes: set<ScopedASTNode>)
    requires TreeOk(lc.scopeStorage, ScopesOf(nodes)) && lc.scopeStorage[0].symbolTable == TypeTable(builtins)
    requires Placed(p) && Owns(owner, builtins, p) && AllEnd(EnvOf(builtins, p), Roots(p))
    requires UnitNodes(p) <= nodes && NotEntered(p)
    requires tc.Valid() && NoneMisbound(EnvOf(builtins, p), owner, BindingOf(owner))
    requires Sound(EnvOf(builtins, p), owner, tc.storage, TypingOf(owner))
    modifies lc, nodes, tc, owner.Keys`declNode, owner.Keys`ty, dc
    ensures TreeOk(lc.scopeStorage, ScopesOf(nodes)) && old(lc.scopeStorage) <= lc.scopeStorage
    ensures ScopesKept(old(ScopesOf(nodes)), ScopesOf(nodes), UnitNodes(p))
    ensures forall s :: s in ScopeSet(nodes) ==> s in old(ScopeSet(nodes)) || fresh(s)
    ensures p.node in nodes && p.node.scope != null && ScopesOf(nodes)[p.node] == p.node.scope
    ensures {p.node} + Among(DeclsNodes(p.decls)) <= nodes && UnitSees(p, builtins, lc.scopeStorage, ScopesOf(nodes))
    ensures lc.scopeStorage[0].symbolTable == old(lc.scopeStorage[0].symbolTable)
    ensures TablesOf(nodes) == old(TablesOf(nodes))[p.node := TypeTable(FirstTypes(p.decls))]
    ensures TablesEmpty(old(TablesOf(nodes)), UnitNodes(p))
    ensures tc.Valid() && ImplsKept(old(tc.impls), tc.impls)
    ensures Sound(EnvOf(builtins, p), owner, tc.storage, TypingOf(owner))
    ensures TypesKept(old(TypingOf(owner)), TypingOf(owner))
    ensures Resolved(EnvOf(builtins, p), Roots(p), tc.storage, TypingOf(owner))
    ensures tc.storage == MatRoots(EnvOf(builtins, p), old(tc.storage), Roots(p))
    ensures AllBound(EnvOf(builtins, p), Roots(p), BindingOf(owner))
  {
    hide TreeOk, EnvOf, Roots, DeclsNodes, DeclsUnder, NoneMisbound, Sound, Resolved, AllEnd, Owns, Placed,
         UnitDistinct, Shaped, BoundIn,
         Located, TypeTable, FirstTypes, WellFormed, Consistent, MatRoots, BindingOf, TypingOf, Among, TypesKept, ImplsKept;
    NodesAreUnder(p.decls);
    ghost var entered := {p.node} + Among(DeclsNodes(p.decls));
    AmongMembers(DeclsNodes(p.decls));
    ResolveGlobalTypes.Run(p, lc, tc, dc, builtins, owner, nodes);
  }

  lemma {:induction false} AmongMembers(ns: seq<ScopedASTNode>)
    ensures forall n :: n in ns <==> n in Among(ns)
  {
  }

  ghost predicate SameOutside(ts: Tables, ts': Tables, ns: set<ScopedASTNode>) {
    ts'.Keys == ts.Keys && forall n :: n in ts && n !in ns ==> ts'[n] == ts[n]
  }

  /** What the last pass finds in the scopes of a unit. */
  ghost predicate UnitReady(env: Env, p: ProgramDecl, ts: Tables) {
    && p.node in ts && TableIs(env, FirstTypes(p.decls), FuncsOf(p.decls), ts[p.node])
    && forall d :: d in p.decls ==> DeclReady(env, ts, d)
  }

  /** What the pass finds in the type nodes of variables and parameters. */
  ghost predicate UnitTyped(env: Env, p: ProgramDecl, m: Typing) {
    && VarsResolved(env, m, FileVars(p.decls)) && AllUnknown(m, DeclsLocals(p.decls))
    && forall d :: d in p.decls ==> SignaturesResolved(env, m, d)
  }

  lemma {:induction false} CheckedUnit(env: Env, p: ProgramDecl, m: Typing, c: Checked, owner: Owner)
    requires p.node.kind == File && UnitDistinct(p) && UnitReady(env, p, c.tables)
    requires forall d :: d in p.decls ==> Located(d, p.node, UnitNodes(p), owner)
    requires TablesOk(env, c.tables, UnitNodes(p)) && UnitTyped(env, p, m)
    ensures UnitDone(env, p, CheckDecls(m, c, p.decls, p.node).tables)
    ensures SameOutside(c.tables, CheckDecls(m, c, p.decls, p.node).tables, UnitNodes(p))
  {
    hide TableIs, TablesOk, VarsEntered, VarsResolved, FileScopeIs, DeclDeep, CheckDecls, DeclsUnder, DeclReady, DeclsHold,
         DeclsDistinct, FirstTypes, FuncsOf, FileVars, SignaturesResolved, DeclsLocals, Agrees;
    DeclsAreInner(p.decls, p.node, UnitNodes(p), owner);
    CheckDeclsLocal(m, c, p.decls, p.node);
    CheckDeclsOk(env, m, c, p.decls, p.node, UnitNodes(p), owner, UnitNodes(p));
    FileTable(m, c, p.decls, p.node);
    ResolvedOutside(env, m, FileVars(p.decls));
    CheckDeclsHold(env, p.decls, m, c, p.decls, p.node);
    FileScopeExactly(env, p.decls, m, c.tables[p.node], CheckDecls(m, c, p.decls, p.node).tables[p.node]);
  }

  lemma {:induction false} UnitIsTyped(env: Env, p: ProgramDecl, st: Storage, m: Typing)
    requires WellFormed(st) && Resolved(env, Roots(p), st, m) && AllUnknown(m, DeclsLocals(p.decls))
    ensures UnitTyped(env, p, m)
  {
    hide *;
    FileVarsAreResolved(env, p, st, m);
    SignaturesAreResolved(env, p, st, m);
    assert UnitTyped(env, p, m) by { TypedParts(env, p, m); }
  }

  lemma {:induction false} TypedParts(env: Env, p: ProgramDecl, m: Typing)
    requires VarsResolved(env, m, FileVars(p.decls)) && AllUnknown(m, DeclsLocals(p.decls))
    requires forall d :: d in p.decls ==> SignaturesResolved(env, m, d)
    ensures UnitTyped(env, p, m)
  {
  }

  /** The last pass completes every scope of the unit and keeps every table in order. */
  method CheckUnit(p: ProgramDecl, lc: LexicalContext<Decl>, dc: DiagnosticConsumer, ghost env: Env, ghost owner: Owner,
                   ghost nodes: set<ScopedASTNode>)
    requires TreeOk(lc.scopeStorage, ScopesOf(nodes)) && UnitNodes(p) <= nodes && p.node.kind == File
             && p.node.scope != null
    requires forall d :: d in p.decls ==> Located(d, p.node, UnitNodes(p), owner)
    requires UnitDistinct(p) && UnitReady(env, p, TablesOf(nodes))
    requires TablesOk(env, TablesOf(nodes), UnitNodes(p)) && UnitTyped(env, p, TypingOf(owner))
    modifies lc, nodes, ScopeSet(nodes), dc
    ensures TreeOk(lc.scopeStorage, ScopesOf(nodes)) && old(lc.scopeStorage) <= lc.scopeStorage
    ensures ScopesKept(old(ScopesOf(nodes)), ScopesOf(nodes), UnitNodes(p))
    ensures forall s :: s in ScopeSet(nodes) ==> s in old(ScopeSet(nodes)) || fresh(s)
    ensures lc.scopeStorage[0].symbolTable == old(lc.scopeStorage[0].symbolTable)
    ensures SameOutside(old(TablesOf(nodes)), TablesOf(nodes), UnitNodes(p))
    ensures UnitDone(env, p, TablesOf(nodes))
  {
    hide TreeOk, TablesOf, ScopeSet, ScopesOf, ScopesKept, TypingOf, Located, UnitReady, UnitDistinct, TablesOk, UnitTyped,
         CheckDecls, UnitDone,
         SameOutside, DeclsUnder;
    GlobalApart(lc.scopeStorage, nodes);
    assert State(nodes, dc).tables == TablesOf(nodes);
    CheckedUnit(env, p, TypingOf(owner), State(nodes, dc), owner);
    TypeCheckPass.Run(p, lc, dc, nodes, UnitNodes(p), owner);
  }

  /** Every list has gained what the unit attaches, counting types that had no list before. */
  lemma {:induction false} ListsThroughUnit(env: Env, lists: map<TypeDecl, seq<FuncDecl>>, lists1: map<TypeDecl,
                                            seq<FuncDecl>>,
                                            lists2: map<TypeDecl, seq<FuncDecl>>, ds: seq<Decl>)
    requires ImplsKept(lists, lists1) && ListsGained(env, lists1, lists2, ds)
    ensures ListsGained(env, lists, lists2, ds)
  {
    hide ImplTarget, AttachedBy;
  }

  lemma {:induction false} DeclaredUnit(env: Env, ts: Tables, ts1: Tables, p: ProgramDecl)
    requires UnitDeclared(env, ts[p.node := TypeTable(FirstTypes(p.decls))], ts1, p.decls, p.node)
    requires TablesEmpty(ts, UnitNodes(p)) && UnitDistinct(p)
    ensures UnitReady(env, p, ts1) && SameOutside(ts, ts1, UnitNodes(p))
  {
    hide TableIs, TypeTable, FirstTypes, FuncsOf, DeclsUnder, ImplFuncs, DeclReady, DeclUnder, DeclsDistinct;
    var ds := p.decls;
    ImplNodesAreUnder(ds);
    forall d | d in ds
      ensures DeclReady(env, ts1, d)
    {
      var k :| 0 <= k < |ds| && ds[k] == d;
      DeclIsUnder(ds, k);
      OwnImplOnly(p, k);
      OneDeclReady(env, ts, ts1, p, d);
    }
  }

  /** A declaration contains no `impl` block's node but its own. */
  lemma {:induction false} OwnImplOnly(p: ProgramDecl, k: nat)
    requires UnitDistinct(p) && k < |p.decls|
    ensures DeclDistinct(p.decls[k])
    ensures forall n :: n in DeclUnder(p.decls[k]) && n in ImplNodes(p.decls) ==>
              p.decls[k].ImplD? && n == p.decls[k].i.node
    ensures p.node !in DeclUnder(p.decls[k])
  {
    hide FuncsUnder, FuncUnder, ValueUnder, DeclDistinct;
    var ds := p.decls;
    DistinctOne(ds, k);
    DeclIsUnder(ds, k);
    forall n | n in DeclUnder(ds[k]) && n in ImplNodes(ds)
      ensures ds[k].ImplD? && n == ds[k].i.node
    {
      var d :| d in ds && d.ImplD? && d.i.node == n;
      var a :| 0 <= a < |ds| && ds[a] == d;
      if a < k {
        DistinctDecls(ds, a, k);
      } else if k < a {
        DistinctDecls(ds, k, a);
      }
    }
  }

  lemma {:induction false} DistinctOne(ds: seq<Decl>, k: nat)
    requires DeclsDistinct(ds) && k < |ds|
    ensures DeclDistinct(ds[k])
  {
    hide DeclDistinct, DeclUnder;
    if k < |ds| - 1 {
      DistinctOne(ds[..|ds| - 1], k);
    }
  }

  lemma {:induction false} OneDeclReady(env: Env, ts: Tables, ts1: Tables, p: ProgramDecl, d: Decl)
    requires UnitDeclared(env, ts[p.node := TypeTable(FirstTypes(p.decls))], ts1, p.decls, p.node)
    requires TablesEmpty(ts, UnitNodes(p)) && d in p.decls && DeclUnder(d) <= UnitNodes(p) && p.node !in DeclUnder(d)
    requires DeclDistinct(d)
             && forall n :: n in DeclUnder(d) && n in ImplNodes(p.decls) ==> d.ImplD? && n == d.i.node
    ensures DeclReady(env, ts1, d)
  {
    hide TableIs, TypeTable, FirstTypes, FuncsOf, DeclsUnder, ImplFuncs, FuncUnder, FuncsUnder, ValueUnder, FuncDistinct,
         FuncsDistinct, ValueDistinct;
  }

  lemma {:induction false} ImplNodesAreUnder(ds: seq<Decl>)
    ensures forall d :: d in ds && d.ImplD? ==> d.i.node in DeclsUnder(ds)
  {
    hide FuncsUnder, FuncUnder;
    if ds != [] {
      ImplNodesAreUnder(ds[..|ds| - 1]);
    }
  }

  lemma {:induction false} FreshTablesOk(env: Env, ts: Tables, p: ProgramDecl)
    requires TablesEmpty(ts, UnitNodes(p))
    ensures TablesOk(env, ts[p.node := TypeTable(FirstTypes(p.decls))], UnitNodes(p))
  {
    hide TableOk, TypeTable, DeclsUnder;
    TypesAreOk(env, FirstTypes(p.decls));
  }

  /** The three passes over one unit. They go through exactly if no typed function follows an untyped first one of its name;
      then the unit is done, and every named type has gained the functions attached to it. */
  method RunUnit(p: ProgramDecl, lc: LexicalContext<Decl>, tc: TypeContext, dc: DiagnosticConsumer,
                 ghost builtins: Env, ghost owner: Owner, ghost nodes: set<ScopedASTNode>)
    returns (ok: bool)
    requires TreeOk(lc.scopeStorage, ScopesOf(nodes)) && lc.scopeStorage[0].symbolTable == TypeTable(builtins)
    requires UnitShaped(builtins, p, owner) && UnitNodes(p) <= nodes && NotEntered(p)
    requires tc.Valid() && NoneMisbound(EnvOf(builtins, p), owner, BindingOf(owner))
    requires Sound(EnvOf(builtins, p), owner, tc.storage, TypingOf(owner))
    requires AllUnknown(TypingOf(owner), DeclsLocals(p.decls))
    modifies lc, nodes, ScopeSet(nodes), tc, owner.Keys`declNode, owner.Keys`ty, dc
    ensures TreeOk(lc.scopeStorage, ScopesOf(nodes)) && old(lc.scopeStorage) <= lc.scopeStorage
    ensures ScopesKept(old(ScopesOf(nodes)), ScopesOf(nodes), UnitNodes(p))
    ensures forall s :: s in ScopeSet(nodes) ==> s in old(ScopeSet(nodes)) || fresh(s)
    ensures lc.scopeStorage[0].symbolTable == TypeTable(builtins)
    ensures tc.Valid() && tc.storage == MatRoots(EnvOf(builtins, p), old(tc.storage), Roots(p))
    ensures Sound(EnvOf(builtins, p), owner, tc.storage, TypingOf(owner))
    ensures Resolved(EnvOf(builtins, p), Roots(p), tc.storage, TypingOf(owner))
    ensures ok <==> !UnitUnjudgeable(EnvOf(builtins, p), p.decls)
    ensures AllBound(EnvOf(builtins, p), Roots(p), BindingOf(owner))
    ensures AllUnknown(TypingOf(owner), DeclsLocals(p.decls))
    ensures ok ==> SameOutside(old(TablesOf(nodes)), TablesOf(nodes), UnitNodes(p))
    ensures ok ==> UnitDone(EnvOf(builtins, p), p, TablesOf(nodes))
    ensures ok ==> ListsGained(EnvOf(builtins, p), old(tc.impls), tc.impls, p.decls)
  {
    hide *;
    ghost var env, ts, lists, scopes := EnvOf(builtins, p), TablesOf(nodes), tc.impls, ScopesOf(nodes);
    NodeHasTable(p.node, nodes);
    ResolveUnit(p, lc, tc, dc, builtins, owner, nodes);
    ghost var scopes1, lists1 := ScopesOf(nodes), tc.impls;
    ok := FinishUnit(p, lc, tc, dc, builtins, owner, nodes, ts);
    KeptThrough(scopes, scopes1, ScopesOf(nodes), UnitNodes(p));
    if ok {
      ListsThroughUnit(env, lists, lists1, tc.impls, p.decls);
    }
  }

  /** The last two passes over a unit whose types are resolved; `ts` are the tables before the first. */
  method FinishUnit(p: ProgramDecl, lc: LexicalContext<Decl>, tc: TypeContext, dc: DiagnosticConsumer,
                    ghost builtins: Env, ghost owner: Owner, ghost nodes: set<ScopedASTNode>, ghost ts: Tables)
    returns (ok: bool)
    requires TreeOk(lc.scopeStorage, ScopesOf(nodes)) && lc.scopeStorage[0].symbolTable == TypeTable(builtins)
    requires UnitShaped(builtins, p, owner) && UnitNodes(p) <= nodes
    requires p.node in nodes && p.node.scope != null && ScopesOf(nodes)[p.node] == p.node.scope
    requires {p.node} + Among(DeclsNodes(p.decls)) <= nodes && UnitSees(p, builtins, lc.scopeStorage, ScopesOf(nodes))
    requires TablesEmpty(ts, UnitNodes(p)) && TablesOf(nodes) == ts[p.node := TypeTable(FirstTypes(p.decls))]
    requires tc.Valid() && Resolved(EnvOf(builtins, p), Roots(p), tc.storage, TypingOf(owner))
    requires AllUnknown(TypingOf(owner), DeclsLocals(p.decls))
    modifies lc, nodes, ScopeSet(nodes), tc`impls, dc
    ensures TreeOk(lc.scopeStorage, ScopesOf(nodes)) && old(lc.scopeStorage) <= lc.scopeStorage
    ensures ScopesKept(old(ScopesOf(nodes)), ScopesOf(nodes), UnitNodes(p))
    ensures forall s :: s in ScopeSet(nodes) ==> s in old(ScopeSet(nodes)) || fresh(s)
    ensures lc.scopeStorage[0].symbolTable == TypeTable(builtins) && tc.Valid()
    ensures ok <==> !UnitUnjudgeable(EnvOf(builtins, p), p.decls)
    ensures ok ==> SameOutside(ts, TablesOf(nodes), UnitNodes(p)) && UnitDone(EnvOf(builtins, p), p, TablesOf(nodes))
    ensures ok ==> ListsGained(EnvOf(builtins, p), old(tc.impls), tc.impls, p.decls)
  {
    hide *;
    ghost var env, scopes := EnvOf(builtins, p), ScopesOf(nodes);
    UnitParts(builtins, p, owner);
    FreshTablesOk(env, ts, p);
    ok := FunctionPass.Run(p, lc, tc, dc, builtins, owner, nodes, UnitNodes(p));
    if ok {
      ghost var scopes1, ts1 := ScopesOf(nodes), TablesOf(nodes);
      DeclaredUnit(env, ts, ts1, p);
      ValidIsWellFormed(tc);
      UnitIsTyped(env, p, tc.storage, TypingOf(owner));
      FileScopeIsOpen(p, scopes, scopes1, nodes);
      CheckUnit(p, lc, dc, env, owner, nodes);
      KeptThrough(scopes, scopes1, ScopesOf(nodes), UnitNodes(p));
      SameThrough(ts, ts1, TablesOf(nodes), UnitNodes(p));
    }
  }

  lemma {:induction false} UnitParts(builtins: Env, p: ProgramDecl, owner: Owner)
    requires UnitShaped(builtins, p, owner)
    ensures Placed(p) && ImplsApart(p.decls, p.node) && Shaped(p.decls) && DeepPlaced(p, UnitNodes(p), owner)
    ensures UnitDistinct(p)
    ensures p.node.kind == File && p.node in UnitNodes(p)
    ensures forall d :: d in p.decls ==> Located(d, p.node, UnitNodes(p), owner)
    ensures forall d :: d in p.decls && d.ImplD? ==> d.i.node in UnitNodes(p)
  {
    hide ImplsApart, Shaped, DeclPlaced, DeclDeep, Owns, AllEnd, DeclsUnder, UnitDistinct, Outer;
    DistinctImpls(p);
    ImplNodesAreUnder(p.decls);
  }

  lemma {:induction false} KeptThrough(m: ScopeMap, m': ScopeMap, m'': ScopeMap, ns: set<ScopedASTNode>)
    requires ScopesKept(m, m', ns) && ScopesKept(m', m'', ns)
    ensures ScopesKept(m, m'', ns)
  {
  }

  lemma {:induction false} SameThrough(ts: Tables, ts': Tables, ts'': Tables, ns: set<ScopedASTNode>)
    requires SameOutside(ts, ts', ns) && SameOutside(ts', ts'', ns)
    ensures SameOutside(ts, ts'', ns)
  {
  }

  lemma {:induction false} NodeHasTable(n: ScopedASTNode, nodes: set<ScopedASTNode>)
    ensures n in nodes <==> n in TablesOf(nodes)
  {
  }

  lemma {:induction false} FileScopeIsOpen(p: ProgramDecl, scopes: ScopeMap, scopes': ScopeMap,
                                           nodes: set<ScopedASTNode>)
    requires p.node in scopes && scopes[p.node] != null && ScopesKept(scopes, scopes', UnitNodes(p))
             && scopes' == ScopesOf(nodes)
    ensures p.node.scope != null
  {
  }
}
