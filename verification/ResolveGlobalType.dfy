/** The pass that runs the three sub-passes in sequence over one unit. */
module ResolveGlobalTypes {
  import opened QualTypes
  import opened LexicalScopes
  import opened AST
  import opened TypeStorage
  import opened TypeContexts
  import opened NormalForms
  import opened Materialisation
  import opened Programs
  import opened ScopeTrees
  import opened Diagnostics
  import opened ResolveTypeSymbols
  import opened MaterializeTypes
  import opened ForwardDeclareTypes

  /** The scopes around a place where a type expression is visited: perhaps some that declare nothing yet,
      then the file's, then the global one. */
  lemma UnitChain(p: ProgramDecl, storage: seq<Scope>, m: ScopeMap, n: ScopedASTNode) returns (chain: seq<Scope>)
    requires TreeOk(storage, m) && Placed(p) && VisitedAt(p, n)
    requires p.node in m && m[p.node] != null && forall x :: x in DeclsNodes(p.decls) ==> x in m && m[x] != null
    ensures |chain| >= 2 && chain[|chain| - 2] == m[p.node] && chain[|chain| - 1] == storage[0]
    ensures IsChain(m[n], chain)
    ensures forall k :: 0 <= k < |chain| - 2 ==> exists x :: x in DeclsNodes(p.decls) && m[x] == chain[k]
    ensures forall s :: s in chain ==> s in storage
  {
    chain := [m[p.node], storage[0]];
    if n != p.node {
      if n.enclosing != p.node {
        chain := [m[n.enclosing]] + chain;
        assert m[n.enclosing] == chain[0];
      }
      var inner := chain;
      chain := [m[n]] + chain;
      assert chain[1..] == inner;
    }
  }

  lemma {:induction false} ChainSees(chain: seq<Scope>, builtins: Env, types: Env)
    requires |chain| >= 2
    requires forall k :: 0 <= k < |chain| - 2 ==> chain[k].symbolTable == map[]
    requires chain[|chain| - 2].symbolTable == TypeTable(types) && chain[|chain| - 1].symbolTable == TypeTable(builtins)
    ensures Sees(chain, builtins + types)
  {
    if |chain| == 2 {
      var env := builtins + types;
      forall symbol: string
        ensures LookupIn(chain, symbol) == if symbol in env then Some([TypeD(env[symbol])]) else None
      {
        assert chain[1..][1..] == [];
        assert LookupIn(chain[1..], symbol) == if symbol in builtins then Some([TypeD(builtins[symbol])]) else None;
      }
    } else {
      assert forall k :: 0 <= k < |chain| - 3 ==> chain[1..][k] == chain[k + 1];
      ChainSees(chain[1..], builtins, types);
      assert forall symbol: string :: LookupIn(chain, symbol) == LookupIn(chain[1..], symbol);
    }
  }

  /** The environment of every place in the unit where a type is named. */
  ghost predicate UnitSees(p: ProgramDecl, builtins: Env, storage: seq<Scope>, m: ScopeMap)
    requires TreeOk(storage, m) && m.Keys >= {p.node} + Among(DeclsNodes(p.decls))
    reads storage
  {
    && m[p.node] != null && m[p.node] in storage && m[p.node].symbolTable == TypeTable(FirstTypes(p.decls))
    && (forall x :: x in DeclsNodes(p.decls) ==> m[x] != null && m[x] in storage && m[x].symbolTable == map[])
    && storage[0].symbolTable == TypeTable(builtins)
  }

  /** The second sub-pass over a unit. */
  method ResolveTypeSymbol(p: ProgramDecl, lc: LexicalContext<Decl>, dc: DiagnosticConsumer,
                           ghost builtins: Env, ghost owner: Owner, ghost nodes: set<ScopedASTNode>)
    requires TreeOk(lc.scopeStorage, ScopesOf(nodes)) && Placed(p)
    requires {p.node} + Among(DeclsNodes(p.decls)) <= nodes && UnitSees(p, builtins, lc.scopeStorage, ScopesOf(nodes))
    requires Owns(owner, builtins, p) && NoneMisbound(EnvOf(builtins, p), owner, BindingOf(owner))
    modifies owner.Keys`declNode, dc
    ensures NoneMisbound(EnvOf(builtins, p), owner, BindingOf(owner))
    ensures forall r :: r in Roots(p) ==> BoundIn(EnvOf(builtins, p), BindingOf(owner), r.ty)
    ensures dc.emitted == old(dc.emitted) + UnresolvedRoots(EnvOf(builtins, p), Roots(p))
  {
    hide TreeOk, NoneMisbound, BindingOf, Roots, EnvOf, Placed, UnitSees, BoundIn, Kept, ScopesOf, Owned, Unresolved,
         DeclsNodes, Among;
    ghost var env := EnvOf(builtins, p);
    var roots := Roots(p);
    for i := 0 to |roots|
      invariant NoneMisbound(env, owner, BindingOf(owner))
      invariant forall r :: r in roots[..i] ==> BoundIn(env, BindingOf(owner), r.ty)
      invariant dc.emitted + UnresolvedRoots(env, roots[i..]) == old(dc.emitted) + UnresolvedRoots(env, roots)
    {
      ghost var b := BindingOf(owner);
      ResolveRoot(p, roots[i], lc, dc, builtins, owner, nodes);
      forall r | r in roots[..i]
        ensures BoundIn(env, BindingOf(owner), r.ty)
      {
        BoundStays(env, owner, b, BindingOf(owner), r.ty);
      }
    }
  }

  method ResolveRoot(p: ProgramDecl, r: TypeRoot, lc: LexicalContext<Decl>, dc: DiagnosticConsumer,
                     ghost builtins: Env, ghost owner: Owner, ghost nodes: set<ScopedASTNode>)
    requires TreeOk(lc.scopeStorage, ScopesOf(nodes)) && Placed(p) && r in Roots(p)
    requires {p.node} + Among(DeclsNodes(p.decls)) <= nodes && UnitSees(p, builtins, lc.scopeStorage, ScopesOf(nodes))
    requires Owned(owner, r.ty) && NoneMisbound(EnvOf(builtins, p), owner, BindingOf(owner))
    modifies owner.Keys`declNode, dc
    ensures NoneMisbound(EnvOf(builtins, p), owner, BindingOf(owner)) && Kept(old(BindingOf(owner)), BindingOf(owner))
    ensures BoundIn(EnvOf(builtins, p), BindingOf(owner), r.ty)
    ensures dc.emitted == old(dc.emitted) + Unresolved(EnvOf(builtins, p), r.ty)
  {
    hide Nested, OneEach, Grown, NoneMisbound, BindingOf, Roots, Placed, Sees, LookupIn, BoundIn, VisitedAt;
    RootsAreVisitedAt(p, r);
    ghost var chain := UnitChain(p, lc.scopeStorage, ScopesOf(nodes), r.node);
    ChainSees(chain, builtins, FirstTypes(p.decls));
    var ls := r.node.scope;
    ResolveTypeSymbols.VisitType(r.ty, ls, chain, dc, EnvOf(builtins, p), owner);
  }

  /** The store after materialising these expressions in order. */
  ghost function MatRoots(env: Env, st: Storage, rs: seq<TypeRoot>): Storage
    decreases |rs|
  {
    if rs == [] then st else MatRoots(env, Mat(env, {}, st, rs[0].ty).0, rs[1..])
  }

  ghost predicate AllEnd(env: Env, rs: seq<TypeRoot>) {
    forall r :: r in rs ==> NormalForm(env, r.ty) != Diverges
  }

  /** The node of every such expression remembers its type: unknown, or one that unfolds to the normal form. */
  ghost predicate Resolved(env: Env, rs: seq<TypeRoot>, st: Storage, m: Typing)
    requires WellFormed(st)
  {
    forall r :: r in rs ==> r.ty.slot in m && Means(st, m[r.ty.slot], NormalForm(env, r.ty))
  }

  // The same, declaration by declaration.

  /** The references in the expression are bound, and its node knows what it means. */
  ghost predicate TypeResolved(env: Env, st: Storage, m: Typing, b: Binding, e: ASTType)
    requires WellFormed(st)
  {
    BoundIn(env, b, e) && e.slot in m && Means(st, m[e.slot], NormalForm(env, e))
  }

  /** A function's own type and the types of its parameters. */
  ghost predicate FuncResolved(env: Env, st: Storage, m: Typing, b: Binding, f: FuncDecl)
    requires WellFormed(st)
  {
    && TypeResolved(env, st, m, b, f.declaredType)
    && forall p :: p in f.params ==> TypeResolved(env, st, m, b, p.declaredType)
  }

  /** Every type written in a declaration of the unit, outside blocks: of `type` and `use` declarations, of variables, of
      functions and their parameters, and of `impl` blocks and their functions. */
  ghost predicate DeclsResolved(env: Env, st: Storage, m: Typing, b: Binding, ds: seq<Decl>)
    requires WellFormed(st)
  {
    forall d :: d in ds ==> DeclResolved(env, st, m, b, d)
  }

  ghost predicate DeclResolved(env: Env, st: Storage, m: Typing, b: Binding, d: Decl)
    requires WellFormed(st)
  {
    match d
    case TypeD(t) => TypeResolved(env, st, m, b, t.declaredType)
    case VarD(v) => v.declaredType.Some? ==> TypeResolved(env, st, m, b, v.declaredType.value)
    case FuncD(f) => FuncResolved(env, st, m, b, f)
    case ImplD(i) =>
      TypeResolved(env, st, m, b, i.declaredType) && forall f :: f in i.impls ==> FuncResolved(env, st, m, b, f)
    case ParamD(_) => true
  }

  /** Every reference outside blocks is bound to what its name means, or to nothing if it means nothing. */
  ghost predicate AllBound(env: Env, rs: seq<TypeRoot>, b: Binding) {
    forall r :: r in rs ==> BoundIn(env, b, r.ty)
  }

  lemma {:induction false} RootResolved(env: Env, p: ProgramDecl, st: Storage, m: Typing, b: Binding, d: Decl, r: TypeRoot)
    requires WellFormed(st) && Resolved(env, Roots(p), st, m) && AllBound(env, Roots(p), b)
    requires d in p.decls && r in DeclRoots(d, p.node)
    ensures TypeResolved(env, st, m, b, r.ty)
  {
    hide WellFormed, Means, Normal, BoundIn;
    DeclRootsAreRoots(p.decls, p.node, d);
  }

  lemma {:induction false} RootsOfFunc(f: FuncDecl)
    ensures TypeRoot(f.declaredType, f.node) in FuncRoots(f)
    ensures forall p :: p in f.params ==> TypeRoot(p.declaredType, f.node) in FuncRoots(f)
  {
    forall p | p in f.params
      ensures TypeRoot(p.declaredType, f.node) in FuncRoots(f)
    {
      var i :| 0 <= i < |f.params| && f.params[i] == p;
      assert ParamRoots(f.params, f.node)[i] == TypeRoot(p.declaredType, f.node);
    }
  }

  lemma {:induction false} FuncIsResolved(env: Env, p: ProgramDecl, st: Storage, m: Typing, b: Binding, d: Decl, f: FuncDecl)
    requires WellFormed(st) && Resolved(env, Roots(p), st, m) && AllBound(env, Roots(p), b)
    requires d in p.decls && forall r :: r in FuncRoots(f) ==> r in DeclRoots(d, p.node)
    ensures FuncResolved(env, st, m, b, f)
  {
    hide WellFormed, Resolved, AllBound, TypeResolved, DeclRoots, FuncRoots;
    RootsOfFunc(f);
    RootResolved(env, p, st, m, b, d, TypeRoot(f.declaredType, f.node));
    forall x | x in f.params
      ensures TypeResolved(env, st, m, b, x.declaredType)
    {
      RootResolved(env, p, st, m, b, d, TypeRoot(x.declaredType, f.node));
    }
  }

  /** The expressions visited are those written in the declarations. */
  lemma {:induction false} RootsAreTheDeclarations(env: Env, p: ProgramDecl, st: Storage, m: Typing, b: Binding)
    requires WellFormed(st) && Resolved(env, Roots(p), st, m) && AllBound(env, Roots(p), b)
    ensures DeclsResolved(env, st, m, b, p.decls)
  {
    hide WellFormed, Resolved, AllBound, TypeResolved, FuncResolved, FuncRoots, Roots;
    forall d | d in p.decls
      ensures DeclResolved(env, st, m, b, d)
    {
      match d {
        case TypeD(t) => RootResolved(env, p, st, m, b, d, TypeRoot(t.declaredType, p.node));
        case VarD(v) =>
          if v.declaredType.Some? {
            RootResolved(env, p, st, m, b, d, TypeRoot(v.declaredType.value, p.node));
          }
        case FuncD(f) => FuncIsResolved(env, p, st, m, b, d, f);
        case ImplD(i) =>
          RootResolved(env, p, st, m, b, d, TypeRoot(i.declaredType, i.node));
          forall f | f in i.impls
            ensures FuncResolved(env, st, m, b, f)
          {
            FuncRootsAreRoots(i.impls, f);
            FuncIsResolved(env, p, st, m, b, d, f);
          }
        case ParamD(_) =>
      }
    }
  }

  ghost function DuplicatesRoots(env: Env, rs: seq<TypeRoot>): seq<Diagnostic> {
    if rs == [] then [] else Duplicates(env, {}, rs[0].ty) + DuplicatesRoots(env, rs[1..])
  }

  /** The third sub-pass over a unit. */
  method MaterializeType(p: ProgramDecl, tc: TypeContext, dc: DiagnosticConsumer, ghost builtins: Env,
                         ghost owner: Owner)
    requires tc.Valid() && Owns(owner, builtins, p) && AllEnd(EnvOf(builtins, p), Roots(p))
    requires forall r :: r in Roots(p) ==> BoundIn(EnvOf(builtins, p), BindingOf(owner), r.ty)
    requires Sound(EnvOf(builtins, p), owner, tc.storage, TypingOf(owner))
    modifies tc, owner.Keys`ty, dc
    ensures tc.Valid() && ImplsKept(old(tc.impls), tc.impls)
    ensures Sound(EnvOf(builtins, p), owner, tc.storage, TypingOf(owner))
            && TypesKept(old(TypingOf(owner)), TypingOf(owner))
    ensures Resolved(EnvOf(builtins, p), Roots(p), tc.storage, TypingOf(owner))
    ensures tc.storage == MatRoots(EnvOf(builtins, p), old(tc.storage), Roots(p))
    ensures dc.emitted == old(dc.emitted) + DuplicatesRoots(EnvOf(builtins, p), Roots(p))
  {
    hide Consistent, WellFormed, Sound, BindingOf, Roots, EnvOf, BoundIn, AliasesBound, Mat, Normal, TypesKept,
         ImplsKept, Remembered, TypingOf,
         Owned, UnfoldQ;
    UnitAliasesBound(p, builtins, owner, BindingOf(owner));
    ghost var env, m0, impls0 := EnvOf(builtins, p), TypingOf(owner), tc.impls;
    var roots := Roots(p);
    NothingYet(env, m0, impls0);
    for i := 0 to |roots|
      invariant tc.Valid() && ImplsKept(impls0, tc.impls)
      invariant Sound(env, owner, tc.storage, TypingOf(owner)) && TypesKept(m0, TypingOf(owner))
      invariant Remembered(env, roots[..i], TypingOf(owner))
      invariant dc.emitted + DuplicatesRoots(env, roots[i..]) == old(dc.emitted) + DuplicatesRoots(env, roots)
      invariant MatRoots(env, tc.storage, roots[i..]) == MatRoots(env, old(tc.storage), roots)
    {
      ghost var m, impls := TypingOf(owner), tc.impls;
      MatMeansNormal(env, {}, tc.storage, roots[i].ty);
      var q := MaterializeTypes.VisitType(roots[i].ty, tc, dc, env, {}, owner);
      KeptTwice(m0, m, TypingOf(owner), impls0, impls, tc.impls);
      TypeIsRemembered(owner, roots[i].ty);
      RememberOne(env, roots, i, m, TypingOf(owner));
    }
    assert roots[..|roots|] == roots;
    RememberedIsResolved(env, roots, owner, tc.storage, TypingOf(owner));
  }

  /** Known types are there. */
  ghost predicate Remembered(env: Env, rs: seq<TypeRoot>, m: Typing) {
    forall r :: r in rs && NormalForm(env, r.ty).Known? ==> r.ty.slot in m && m[r.ty.slot] != UNKNOWN
  }

  lemma NothingYet(env: Env, m: Typing, impls: map<TypeDecl, seq<FuncDecl>>)
    ensures Remembered(env, [], m) && TypesKept(m, m) && ImplsKept(impls, impls)
  {
  }

  lemma TypeIsRemembered(owner: Owner, e: ASTType)
    requires Owned(owner, e)
    ensures e.slot in TypingOf(owner) && TypingOf(owner)[e.slot] == e.slot.ty
  {
  }

  lemma RememberOne(env: Env, rs: seq<TypeRoot>, i: nat, m: Typing, m': Typing)
    requires i < |rs| && Remembered(env, rs[..i], m) && TypesKept(m, m')
    requires NormalForm(env, rs[i].ty).Known? ==> rs[i].ty.slot in m' && m'[rs[i].ty.slot] != UNKNOWN
    ensures Remembered(env, rs[..i + 1], m')
  {
    assert rs[..i + 1] == rs[..i] + [rs[i]];
  }

  lemma RememberedIsResolved(env: Env, rs: seq<TypeRoot>, owner: Owner, st: Storage, m: Typing)
    requires WellFormed(st) && Sound(env, owner, st, m) && AllEnd(env, rs) && Remembered(env, rs, m)
    requires forall r :: r in rs ==> Owned(owner, r.ty)
    ensures Resolved(env, rs, st, m)
  {
  }

  lemma UnitAliasesBound(p: ProgramDecl, builtins: Env, owner: Owner, b: Binding)
    requires Owns(owner, builtins, p)
    requires forall r :: r in Roots(p) ==> BoundIn(EnvOf(builtins, p), b, r.ty)
    ensures AliasesBound(EnvOf(builtins, p), owner, b)
  {
    var env := EnvOf(builtins, p);
    forall d | d in Aliases(env)
      ensures Owned(owner, d.declaredType) && BoundIn(env, b, d.declaredType)
    {
      var n :| n in env && env[n] == d;
      if n in FirstTypes(p.decls) {
        FirstTypesAreDeclared(p.decls, n);
        DeclRootsAreRoots(p.decls, p.node, TypeD(d));
        assert TypeRoot(d.declaredType, p.node) in DeclRoots(TypeD(d), p.node);
      }
    }
  }

  /** The first sub-pass, and what it makes visible in the unit. */
  method DeclareUnit(p: ProgramDecl, lc: LexicalContext<Decl>, dc: DiagnosticConsumer,
                     ghost builtins: Env, ghost nodes: set<ScopedASTNode>)
    requires TreeOk(lc.scopeStorage, ScopesOf(nodes)) && lc.scopeStorage[0].symbolTable == TypeTable(builtins)
    requires Placed(p) && {p.node} + Among(DeclsNodes(p.decls)) <= nodes
    requires p.node.scope == null && forall n :: n in DeclsNodes(p.decls) ==> n.scope == null
    modifies lc, nodes, dc
    ensures TreeOk(lc.scopeStorage, ScopesOf(nodes)) && old(lc.scopeStorage) <= lc.scopeStorage
    ensures Entered(old(ScopesOf(nodes)), ScopesOf(nodes), {p.node} + Among(DeclsNodes(p.decls)))
    ensures UnitSees(p, builtins, lc.scopeStorage, ScopesOf(nodes))
    ensures fresh(p.node.scope) && forall n :: n in DeclsNodes(p.decls) ==> fresh(n.scope)
    ensures dc.emitted == old(dc.emitted) + TypeClashes(p.decls)
  {
    hide Nested, OneEach, Grown, Placed, TypeTable, FirstTypes, DeclsNodes, Entered;
    ghost var global := lc.scopeStorage[0];
    ForwardDeclareType(p, lc, dc, nodes);
    ScopesAreStored(lc.scopeStorage, ScopesOf(nodes));
  }

  /** The whole pass over a unit that has not been visited before. */
  method Run(p: ProgramDecl, lc: LexicalContext<Decl>, tc: TypeContext, dc: DiagnosticConsumer,
             ghost builtins: Env, ghost owner: Owner, ghost nodes: set<ScopedASTNode>)
    requires TreeOk(lc.scopeStorage, ScopesOf(nodes)) && lc.scopeStorage[0].symbolTable == TypeTable(builtins)
    requires Placed(p) && {p.node} + Among(DeclsNodes(p.decls)) <= nodes
    requires p.node.scope == null && forall n :: n in DeclsNodes(p.decls) ==> n.scope == null
    requires tc.Valid() && Owns(owner, builtins, p) && AllEnd(EnvOf(builtins, p), Roots(p))
    requires NoneMisbound(EnvOf(builtins, p), owner, BindingOf(owner))
    requires Sound(EnvOf(builtins, p), owner, tc.storage, TypingOf(owner))
    modifies lc, nodes, tc, owner.Keys`declNode, owner.Keys`ty, dc
    ensures TreeOk(lc.scopeStorage, ScopesOf(nodes)) && old(lc.scopeStorage) <= lc.scopeStorage
    ensures Entered(old(ScopesOf(nodes)), ScopesOf(nodes), {p.node} + Among(DeclsNodes(p.decls)))
    ensures UnitSees(p, builtins, lc.scopeStorage, ScopesOf(nodes))
    ensures fresh(p.node.scope) && forall n :: n in DeclsNodes(p.decls) && n in nodes ==> fresh(n.scope)
    ensures AllBound(EnvOf(builtins, p), Roots(p), BindingOf(owner))
    ensures tc.Valid() && ImplsKept(old(tc.impls), tc.impls)
    ensures Sound(EnvOf(builtins, p), owner, tc.storage, TypingOf(owner))
    ensures TypesKept(old(TypingOf(owner)), TypingOf(owner))
    ensures Resolved(EnvOf(builtins, p), Roots(p), tc.storage, TypingOf(owner))
    ensures DeclsResolved(EnvOf(builtins, p), tc.storage, TypingOf(owner), BindingOf(owner), p.decls)
    ensures tc.storage == MatRoots(EnvOf(builtins, p), old(tc.storage), Roots(p))
    ensures dc.emitted == old(dc.emitted) + TypeClashes(p.decls) + UnresolvedRoots(EnvOf(builtins, p), Roots(p))
                          + DuplicatesRoots(EnvOf(builtins, p), Roots(p))
  {
    hide *;
    DeclareUnit(p, lc, dc, builtins, nodes);
    ResolveTypeSymbol(p, lc, dc, builtins, owner, nodes);
    MaterializeType(p, tc, dc, builtins, owner);
    StorageIsWellFormed(tc);
    AllBoundIs(EnvOf(builtins, p), Roots(p), BindingOf(owner));
    RootsAreTheDeclarations(EnvOf(builtins, p), p, tc.storage, TypingOf(owner), BindingOf(owner));
  }

  lemma {:induction false} StorageIsWellFormed(tc: TypeContext)
    requires tc.Valid()
    ensures WellFormed(tc.storage)
  {
  }

  lemma {:induction false} AllBoundIs(env: Env, rs: seq<TypeRoot>, b: Binding)
    ensures AllBound(env, rs, b) <==> forall r :: r in rs ==> BoundIn(env, b, r.ty)
  {
  }

  /** Interned types decide alias equivalence: two expressions, from any two units, with known results,
      were given the same type exactly when they have the same normal form. */
  lemma EqualTypesAreEqualNormalForms(env: Env, rs: seq<TypeRoot>, m: Typing, env': Env, rs': seq<TypeRoot>, m': Typing,
                                      st: Storage, r: TypeRoot, r': TypeRoot)
    requires WellFormed(st) && Resolved(env, rs, st, m) && Resolved(env', rs', st, m')
    requires r in rs && r' in rs'
    ensures m[r.ty.slot].IsUnknown() <==> NormalForm(env, r.ty) == Unknown
    ensures !m[r.ty.slot].IsUnknown() && !m'[r'.ty.slot].IsUnknown() ==>
              (m[r.ty.slot] == m'[r'.ty.slot] <==> NormalForm(env, r.ty) == NormalForm(env', r'.ty))
  {
    QualTypesAreCanonical(st, m[r.ty.slot], m'[r'.ty.slot]);
  }

  /** Materialising the same expressions again adds nothing to the store. */
  lemma {:induction false} MatRootsAgain(env: Env, st: Storage, later: Storage, rs: seq<TypeRoot>)
    requires WellFormed(st) && WellFormed(later) && AllEnd(env, rs) && MatRoots(env, st, rs) <= later
    ensures MatRoots(env, later, rs) == later
    decreases |rs|
  {
    if rs != [] {
      MatMeansNormal(env, {}, st, rs[0].ty);
      MatRootsGrow(env, Mat(env, {}, st, rs[0].ty).0, rs[1..]);
      MatAgain(env, {}, st, later, rs[0].ty);
      MatRootsAgain(env, Mat(env, {}, st, rs[0].ty).0, later, rs[1..]);
    }
  }

  lemma {:induction false} MatRootsGrow(env: Env, st: Storage, rs: seq<TypeRoot>)
    requires WellFormed(st) && AllEnd(env, rs)
    ensures WellFormed(MatRoots(env, st, rs)) && st <= MatRoots(env, st, rs)
    decreases |rs|
  {
    if rs != [] {
      MatMeansNormal(env, {}, st, rs[0].ty);
      MatRootsGrow(env, Mat(env, {}, st, rs[0].ty).0, rs[1..]);
    }
  }

  /** A function's type lists exactly the types of its parameters, which share their nodes with it. */
  lemma FunctionTypeListsParameterTypes(env: Env, rs: seq<TypeRoot>, st: Storage, m: Typing, f: FuncDecl)
    requires WellFormed(st) && Resolved(env, rs, st, m) && forall r :: r in FuncRoots(f) ==> r in rs
    requires f.declaredType.ASTFunctionType? && |f.declaredType.params| == |f.params|
    requires forall i :: 0 <= i < |f.params| ==> f.declaredType.params[i] == f.params[i].declaredType
    requires !m[f.declaredType.slot].IsUnknown()
    ensures var p := m[f.declaredType.slot].ty.value;
            p < |st| && st[p].FuncType? && |st[p].params| == |f.params| &&
            forall i :: 0 <= i < |f.params| ==>
              f.params[i].declaredType.slot in m && st[p].params[i] == m[f.params[i].declaredType.slot]
  {
    var e := f.declaredType;
    assert TypeRoot(e, f.node) in FuncRoots(f);
    var p := m[e.slot].ty.value;
    NormalOfAll(env, e.params);
    assert Below(st[p], p) && Unfold(st, p) == NormalForm(env, e).value;
    forall i | 0 <= i < |f.params|
      ensures f.params[i].declaredType.slot in m && st[p].params[i] == m[f.params[i].declaredType.slot]
    {
      assert ParamRoots(f.params, f.node)[i] in FuncRoots(f);
      assert UnfoldAll(st, st[p].params, p)[i] == UnfoldQ(st, st[p].params[i], p);
      QualTypesAreCanonical(st, st[p].params[i], m[f.params[i].declaredType.slot]);
    }
  }

  lemma {:induction false} NormalOfAll(env: Env, ps: seq<ASTType>)
    ensures NormalAll(env, {}, ps).Known? ==>
              && |NormalAll(env, {}, ps).value| == |ps|
              && forall i :: 0 <= i < |ps| ==>
                   NormalForm(env, ps[i]).Known? && NormalAll(env, {}, ps).value[i] == Unqualified(NormalForm(env, ps[i]).value)
  {
    if ps != [] {
      NormalOfAll(env, ps[1..]);
    }
  }
}
