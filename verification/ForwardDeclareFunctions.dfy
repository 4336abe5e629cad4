/** The pass that declares functions in the scopes around them and attaches the functions of `impl` blocks. */
module ForwardDeclareFunctions {
  import opened QualTypes
  import opened LexicalScopes
  import opened AST
  import opened TypeStorage
  import opened TypeContexts
  import opened NormalForms
  import opened Materialisation
  import opened Programs
  import opened ScopeTrees
  import opened SymbolTables
  import opened Diagnostics
  import opened Overloads
  import opened MaterializeTypes

  /** The node of the function's type remembers what the type means. */
  ghost predicate Typed(env: Env, st: Storage, m: Typing, f: FuncDecl)
    requires WellFormed(st)
  {
    && f.declaredType.ASTFunctionType? && f.declaredType.slot in m
    && Means(st, m[f.declaredType.slot], NormalForm(env, f.declaredType))
  }

  ghost predicate AllTyped(env: Env, st: Storage, m: Typing, ds: seq<Decl>)
    requires WellFormed(st)
  {
    forall d :: d in ds && d.FuncD? ==> Typed(env, st, m, d.f)
  }

  function FuncReport(v: Verdict, name: string): seq<Diagnostic> {
    match v
    case NameTaken => [FunctionNameTaken(name), PreviouslyDeclared]
    case Clash => [OverloadClash(name), PreviouslyDeclared]
    case _ => []
  }

  /** A known function type is stored as one, and its parameter pointers stand for its signature. */
  lemma TypedIsFunction(env: Env, st: Storage, m: Typing, f: FuncDecl)
    requires WellFormed(st) && Typed(env, st, m, f)
    ensures f.declaredType.slot in m
    ensures var q := m[f.declaredType.slot];
            && (q.IsUnknown() <==> Sig(env, f).None?)
            && (!q.IsUnknown() ==> IsFuncWith(st, q, Sig(env, f)))
  {
    var q := m[f.declaredType.slot];
    FunctionTypesStayFunctions(env, f.declaredType);
    if !q.IsUnknown() {
      FuncPointer(st, q.ty.value, NormalForm(env, f.declaredType).value);
    }
  }

  ghost predicate IsFuncWith(st: Storage, q: QualType, sig: Option<seq<SemQual>>)
    requires WellFormed(st)
  {
    && q.ty.Some? && q.ty.value < |st| && st[q.ty.value].FuncType?
    && InRangeAll(st[q.ty.value].params, q.ty.value) && sig == Some(UnfoldAll(st, st[q.ty.value].params, q.ty.value))
  }

  lemma FunctionTypesStayFunctions(env: Env, e: ASTType)
    requires e.ASTFunctionType?
    ensures NormalForm(env, e).Known? ==> NormalForm(env, e).value.SFunc?
  {
  }

  lemma FuncPointer(st: Storage, p: Address, t: SemType)
    requires WellFormed(st) && p < |st| && Unfold(st, p) == t && t.SFunc?
    ensures IsFuncWith(st, At(p), Some(t.params))
  {
    assert Below(st[p], p);
  }

  /** Equal parameter pointers are equal signatures. */
  lemma SameParamsSameSig(st: Storage, q: QualType, sig: Option<seq<SemQual>>, q': QualType, sig': Option<seq<SemQual>>)
    requires WellFormed(st) && IsFuncWith(st, q, sig) && IsFuncWith(st, q', sig')
    ensures st[q.ty.value].params == st[q'.ty.value].params <==> sig == sig'
  {
    hide WellFormed, UnfoldAll;
    SameListsUnfoldAlike(st, st[q.ty.value].params, q.ty.value, st[q'.ty.value].params, q'.ty.value);
  }

  lemma SameListsUnfoldAlike(st: Storage, a: seq<QualType>, p: Address, b: seq<QualType>, q: Address)
    requires WellFormed(st) && p < |st| && q < |st| && InRangeAll(a, p) && InRangeAll(b, q)
    ensures a == b <==> UnfoldAll(st, a, p) == UnfoldAll(st, b, q)
  {
    hide WellFormed, Unfold;
    if UnfoldAll(st, a, p) == UnfoldAll(st, b, q) {
      forall i | 0 <= i < |a|
        ensures a[i] == b[i]
      {
        assert UnfoldAll(st, a, p)[i] == UnfoldAll(st, b, q)[i];
        QualTypesAreCanonical(st, a[i], b[i]);
      }
    }
  }

  lemma {:induction false} AcceptedIsNew(env: Env, existing: seq<Decl>, f: FuncDecl)
    requires Judge(env, existing, f).Accepted?
    ensures FuncD(f) !in existing
  {
    if existing != [] {
      AcceptedIsNew(env, existing[1..], f);
    }
  }

  /** The comparison with what is stored; none if the assertion fails. */
  method Compare(f: FuncDecl, existing: seq<Decl>, tc: TypeContext, dc: DiagnosticConsumer, ghost env: Env,
                 ghost owner: Owner)
    returns (r: Option<bool>)
    requires tc.Valid() && Typed(env, tc.storage, TypingOf(owner), f)
             && AllTyped(env, tc.storage, TypingOf(owner), existing)
    modifies dc
    ensures var v := Judge(env, existing, f);
            && r == (if v.Fatal? then None else Some(v.Accepted?))
            && dc.emitted == old(dc.emitted) + FuncReport(v, f.name)
  {
    hide Typed, Sig, WellFormed, Consistent, TypingOf;
    ghost var st, m := tc.storage, TypingOf(owner);
    TypedIsFunction(env, st, m, f);
    for i := 0 to |existing|
      invariant Judge(env, existing, f) == Judge(env, existing[i..], f)
      invariant dc.emitted == old(dc.emitted)
    {
      assert existing[i] in existing;
      if !existing[i].FuncD? {
        dc.Emit(FunctionNameTaken(f.name));
        dc.Emit(PreviouslyDeclared);
        return Some(false);
      }
      var ourFT := f.declaredType.slot.ty;
      SlotType(owner, f.declaredType.slot);
      if ourFT.IsUnknown() {
        return Some(false);
      }
      var g := existing[i].f;
      TypedIsFunction(env, st, m, g);
      var otherFT := g.declaredType.slot.ty;
      SlotType(owner, g.declaredType.slot);
      if otherFT.IsUnknown() {
        return None;
      }
      SameParamsSameSig(st, ourFT, Sig(env, f), otherFT, Sig(env, g));
      if tc.storage[otherFT.ty.value].params == tc.storage[ourFT.ty.value].params {
        dc.Emit(OverloadClash(f.name));
        dc.Emit(PreviouslyDeclared);
        return Some(false);
      }
    }
    return Some(true);
  }

  lemma SlotType(owner: Owner, s: TypeSlot)
    requires s in TypingOf(owner)
    ensures TypingOf(owner)[s] == s.ty
  {
  }

  /** One function; its own scope lies directly in the scope that declares it. */
  method VisitFunc(f: FuncDecl, tc: TypeContext, dc: DiagnosticConsumer, ghost env: Env, ghost owner: Owner,
                   ghost outer: ScopedASTNode, ghost storage: seq<Scope>, ghost nodes: set<ScopedASTNode>)
    returns (r: Option<bool>)
    requires TreeOk(storage, ScopesOf(nodes)) && f.node in nodes && outer in nodes && f.node.enclosing == outer
    requires f.node.scope != null
    requires tc.Valid() && Typed(env, tc.storage, TypingOf(owner), f)
    requires AllTyped(env, tc.storage, TypingOf(owner), Entry(TableOf(outer), f.name))
    modifies outer.scope, dc
    ensures var v := Judge(env, old(Entry(TableOf(outer), f.name)), f);
            && r == (if v.Fatal? then None else Some(v.Accepted?))
            && dc.emitted == old(dc.emitted) + FuncReport(v, f.name)
    ensures TablesOf(nodes) == old(TablesOf(nodes)[outer := AddFunc(env, TableOf(outer), f)])
  {
    hide Judge, Typed, AllTyped, WellFormed, Consistent, TreeOk, TypingOf, AddFunc, FuncReport, ScopesOf;
    var declaring := ParentScope(f.node, outer, storage, nodes);
    SameTables(outer, nodes);
    ScopeHasTable(outer);
    AddFuncIs(env, TableOf(outer), f);
    var existing := declaring.GetDecls(f.name);
    r := Compare(f, existing, tc, dc, env, owner);
    assert TablesOf(nodes) == old(TablesOf(nodes));
    if r == Some(true) {
      AcceptedIsNew(env, existing, f);
      InsertAt(declaring, f.name, FuncD(f), outer, storage, nodes);
    }
  }

  lemma {:induction false} ScopeHasTable(n: ScopedASTNode)
    requires n.scope != null
    ensures TableOf(n) == n.scope.symbolTable
    ensures forall name :: Entry(TableOf(n), name) == if name in n.scope.symbolTable then n.scope.symbolTable[name] else []
  {
  }

  lemma {:induction false} AddFuncIs(env: Env, t: Table, f: FuncDecl)
    ensures AddFunc(env, t, f) ==
            if Judge(env, Entry(t, f.name), f).Accepted? then t[f.name := Entry(t, f.name) + [FuncD(f)]] else t
  {
    hide Judge;
  }

  method ParentScope(node: ScopedASTNode, ghost outer: ScopedASTNode, ghost storage: seq<Scope>,
                     ghost nodes: set<ScopedASTNode>)
    returns (ls: Scope)
    requires TreeOk(storage, ScopesOf(nodes)) && node in nodes && node.enclosing == outer && node.scope != null
    ensures outer in nodes && outer.scope == ls
  {
    ghost var m := ScopesOf(nodes);
    assert NestedRight(storage[0], m, node, m[node]);
    ls := node.scope.parent;
  }

  lemma SameTables(outer: ScopedASTNode, nodes: set<ScopedASTNode>)
    requires outer in nodes
    ensures TablesOf(nodes) == TablesOf(nodes)[outer := TableOf(outer)]
  {
  }

  ghost predicate TableTyped(env: Env, st: Storage, m: Typing, t: Table)
    requires WellFormed(st)
  {
    forall name :: AllTyped(env, st, m, Entry(t, name))
  }

  lemma AddFuncKeepsTyped(env: Env, st: Storage, m: Typing, t: Table, f: FuncDecl)
    requires WellFormed(st) && TableTyped(env, st, m, t) && Typed(env, st, m, f)
    ensures TableTyped(env, st, m, AddFunc(env, t, f))
  {
    hide Typed, Judge, WellFormed;
    assert AllTyped(env, st, m, Entry(t, f.name));
    forall name: string
      ensures AllTyped(env, st, m, Entry(AddFunc(env, t, f), name))
    {
      assert AllTyped(env, st, m, Entry(t, name));
    }
  }

  ghost function FuncsReports(env: Env, t: Table, fs: seq<FuncDecl>): seq<Diagnostic> {
    if fs == [] then [] else
      var before, f := fs[..|fs| - 1], fs[|fs| - 1];
      FuncsReports(env, t, before) + FuncReport(Judge(env, Entry(AddFuncs(env, t, before), f.name), f), f.name)
  }

  lemma OneMoreFunc(env: Env, t: Table, fs: seq<FuncDecl>, k: nat)
    requires k < |fs|
    ensures var t' := AddFuncs(env, t, fs[..k]);
            var v := Judge(env, Entry(t', fs[k].name), fs[k]);
            && AddFuncs(env, t, fs[..k + 1]) == AddFunc(env, t', fs[k])
            && Added(env, t, fs[..k + 1]) == Added(env, t, fs[..k]) + (if v.Accepted? then [fs[k]] else [])
            && FuncsReports(env, t, fs[..k + 1]) == FuncsReports(env, t, fs[..k]) + FuncReport(v, fs[k].name)
            && (AddFails(env, t, fs[..k + 1]) <==> AddFails(env, t, fs[..k]) || v.Fatal?)
  {
    hide Judge, AddFunc, FuncReport;
    assert fs[..k + 1][..k] == fs[..k];
  }

  lemma {:induction false} FailsForGood(env: Env, t: Table, fs: seq<FuncDecl>, k: nat)
    requires k <= |fs| && AddFails(env, t, fs[..k])
    ensures AddFails(env, t, fs)
    decreases |fs| - k
  {
    if k == |fs| {
      assert fs[..k] == fs;
    } else {
      OneMoreFunc(env, t, fs, k);
      FailsForGood(env, t, fs, k + 1);
    }
  }

  ghost function ListOf(impls: map<TypeDecl, seq<FuncDecl>>, d: TypeDecl): seq<FuncDecl> {
    if d in impls then impls[d] else []
  }

  /** One function of an `impl` block: declared, and if that succeeds attached to the named type. */
  method VisitImplFunc(f: FuncDecl, d: TypeDecl, tc: TypeContext, dc: DiagnosticConsumer, ghost env: Env,
                       ghost owner: Owner,
                       ghost outer: ScopedASTNode, ghost storage: seq<Scope>, ghost nodes: set<ScopedASTNode>)
    returns (ok: bool)
    requires TreeOk(storage, ScopesOf(nodes)) && f.node in nodes && outer in nodes && f.node.enclosing == outer
    requires f.node.scope != null && tc.Valid() && d in tc.impls && Typed(env, tc.storage, TypingOf(owner), f)
    requires AllTyped(env, tc.storage, TypingOf(owner), Entry(TableOf(outer), f.name))
    modifies outer.scope, tc`impls, dc
    ensures tc.Valid()
    ensures var v := Judge(env, old(Entry(TableOf(outer), f.name)), f);
            && ok == !v.Fatal?
            && dc.emitted == old(dc.emitted) + FuncReport(v, f.name)
            && tc.impls == old(tc.impls[d := tc.impls[d] + if v.Accepted? then [f] else []])
    ensures TableOf(outer) == AddFunc(env, old(TableOf(outer)), f)
    ensures TablesOf(nodes) == old(TablesOf(nodes)[outer := AddFunc(env, TableOf(outer), f)])
  {
    hide Judge, Typed, AllTyped, Consistent, WellFormed, TreeOk, TypingOf, AddFunc, FuncReport;
    ghost var v := Judge(env, Entry(TableOf(outer), f.name), f);
    var r := VisitFunc(f, tc, dc, env, owner, outer, storage, nodes);
    ghost var tables := TablesOf(nodes);
    assert TableOf(outer) == tables[outer];
    assert tc.impls[d] + [] == tc.impls[d];
    if r.None? {
      return false;
    }
    if r.value {
      tc.AddImpl(d, f);
    }
    assert TablesOf(nodes) == tables;
    return true;
  }

  /** The functions of an `impl` block for the named type `d`, whose type object exists. */
  method VisitImpls(i: ImplDecl, d: TypeDecl, tc: TypeContext, dc: DiagnosticConsumer, ghost env: Env,
                    ghost owner: Owner,
                    ghost storage: seq<Scope>, ghost nodes: set<ScopedASTNode>)
    returns (ok: bool)
    requires TreeOk(storage, ScopesOf(nodes)) && i.node in nodes
    requires forall f :: f in i.impls ==> f.node in nodes && f.node.scope != null && f.node.enclosing == i.node
    requires tc.Valid() && d in tc.impls && TableTyped(env, tc.storage, TypingOf(owner), TableOf(i.node))
    requires forall f :: f in i.impls ==> Typed(env, tc.storage, TypingOf(owner), f)
    modifies i.node.scope, tc`impls, dc
    ensures tc.Valid()
    ensures ok <==> !AddFails(env, old(TableOf(i.node)), i.impls)
    ensures ok ==> TablesOf(nodes) == old(TablesOf(nodes)[i.node := AddFuncs(env, TableOf(i.node), i.impls)])
    ensures ok ==> tc.impls == old(tc.impls[d := tc.impls[d] + Added(env, TableOf(i.node), i.impls)])
    ensures ok ==> dc.emitted == old(dc.emitted + FuncsReports(env, TableOf(i.node), i.impls))
  {
    hide *;
    ghost var t, tables, impls := TableOf(i.node), TablesOf(nodes), tc.impls;
    ghost var st, m := tc.storage, TypingOf(owner);
    ValidIsWellFormed(tc);
    NoImplsYet(env, t, i.node, nodes, d, tc);
    assert i.impls[..0] == [];
    for k := 0 to |i.impls|
      invariant tc.Valid() && tc.storage == st && WellFormed(st) && TypingOf(owner) == m
                && ScopesOf(nodes) == old(ScopesOf(nodes))
      invariant TableOf(i.node) == AddFuncs(env, t, i.impls[..k])
      invariant TablesOf(nodes) == tables[i.node := AddFuncs(env, t, i.impls[..k])]
      invariant !AddFails(env, t, i.impls[..k]) && TableTyped(env, st, m, TableOf(i.node))
      invariant d in tc.impls && tc.impls == impls[d := impls[d] + Added(env, t, i.impls[..k])]
      invariant dc.emitted == old(dc.emitted) + FuncsReports(env, t, i.impls[..k])
    {
      assert i.impls[k] in i.impls;
      OneMoreImpl(env, st, m, t, i.impls, k, impls[d]);
      ok := VisitImplFunc(i.impls[k], d, tc, dc, env, owner, i.node, storage, nodes);
      if !ok {
        FailsForGood(env, t, i.impls, k + 1);
        return;
      }
    }
    assert i.impls[..|i.impls|] == i.impls;
    return true;
  }

  lemma OneMoreImpl(env: Env, st: Storage, m: Typing, t: Table, fs: seq<FuncDecl>, k: nat, list: seq<FuncDecl>)
    requires k < |fs| && WellFormed(st) && TableTyped(env, st, m, AddFuncs(env, t, fs[..k])) && Typed(env, st, m, fs[k])
    ensures var t' := AddFuncs(env, t, fs[..k]);
            var v := Judge(env, Entry(t', fs[k].name), fs[k]);
            && AllTyped(env, st, m, Entry(t', fs[k].name))
            && AddFuncs(env, t, fs[..k + 1]) == AddFunc(env, t', fs[k])
            && TableTyped(env, st, m, AddFunc(env, t', fs[k]))
            && list + Added(env, t, fs[..k + 1]) == list + Added(env, t, fs[..k]) + (if v.Accepted? then [fs[k]] else [])
            && FuncsReports(env, t, fs[..k + 1]) == FuncsReports(env, t, fs[..k]) + FuncReport(v, fs[k].name)
            && (AddFails(env, t, fs[..k + 1]) <==> AddFails(env, t, fs[..k]) || v.Fatal?)
  {
    hide Judge, AddFunc, FuncReport, Typed, AllTyped, AddFuncs, Added, FuncsReports, AddFails;
    OneMoreFunc(env, t, fs, k);
    AddFuncKeepsTyped(env, st, m, AddFuncs(env, t, fs[..k]), fs[k]);
  }

  lemma NoImplsYet(env: Env, t: Table, node: ScopedASTNode, nodes: set<ScopedASTNode>, d: TypeDecl, tc: TypeContext)
    requires node in nodes && d in tc.impls
    ensures AddFuncs(env, t, []) == t && !AddFails(env, t, []) && Added(env, t, []) == []
            && FuncsReports(env, t, []) == []
    ensures TablesOf(nodes) == TablesOf(nodes)[node := TableOf(node)]
    ensures tc.impls == tc.impls[d := tc.impls[d] + []]
  {
    assert tc.impls[d] + [] == tc.impls[d];
  }

  lemma ValidIsWellFormed(tc: TypeContext)
    requires tc.Valid()
    ensures WellFormed(tc.storage)
  {
  }

  /** The type declaration an `impl` block is for, through any aliases. */
  ghost function ImplTarget(env: Env, i: ImplDecl): Option<TypeDecl> {
    match NormalForm(env, i.declaredType)
    case Known(SNamed(d)) => Some(d)
    case _ => None
  }

  ghost function DeclTables(env: Env, ts: Tables, d: Decl, root: ScopedASTNode): Tables {
    match d
    case FuncD(f) => if root in ts then ts[root := AddFunc(env, ts[root], f)] else ts
    case ImplD(i) =>
      if ImplTarget(env, i).Some? && i.node in ts then ts[i.node := AddFuncs(env, ts[i.node], i.impls)] else ts
    case _ => ts
  }

  ghost predicate DeclFails(env: Env, ts: Tables, d: Decl, root: ScopedASTNode) {
    match d
    case FuncD(f) => root in ts && Judge(env, Entry(ts[root], f.name), f).Fatal?
    case ImplD(i) => ImplTarget(env, i).Some? && i.node in ts && AddFails(env, ts[i.node], i.impls)
    case _ => false
  }

  ghost function DeclLists(env: Env, ts: Tables, lists: map<TypeDecl, seq<FuncDecl>>, d: Decl): map<TypeDecl,
                           seq<FuncDecl>> {
    if d.ImplD? && ImplTarget(env, d.i).Some? && d.i.node in ts then
      var target := ImplTarget(env, d.i).value;
      lists[target := ListOf(lists, target) + Added(env, ts[d.i.node], d.i.impls)]
    else lists
  }

  ghost function DeclReports(env: Env, ts: Tables, d: Decl, root: ScopedASTNode): seq<Diagnostic> {
    match d
    case FuncD(f) => if root in ts then FuncReport(Judge(env, Entry(ts[root], f.name), f), f.name) else []
    case ImplD(i) =>
      if ImplTarget(env, i).Some? then if i.node in ts then FuncsReports(env, ts[i.node], i.impls) else []
      else if NormalForm(env, i.declaredType).Unknown? then []
      else [ImplOnNonType]
    case _ => []
  }

  method WarnOfQualifier(q: QualType, dc: DiagnosticConsumer)
    modifies dc
    ensures dc.emitted == old(dc.emitted) + if q.mutable then [ImplQualifiersIgnored] else []
  {
    if q.HasQualifier() {
      dc.Emit(ImplQualifiersIgnored);
    }
  }

  /** A pointer to a named type leads to the declaration, which has a function list. */
  lemma NamedPointer(tc: TypeContext, q: QualType, n: Norm<SemType>)
    requires tc.Valid() && Means(tc.storage, q, n) && !q.IsUnknown()
    ensures !q.mutable && n.Known? && q.ty.value < |tc.storage|
    ensures tc.storage[q.ty.value].NamedType? <==> n.value.SNamed?
    ensures n.value.SNamed? ==> n.value.decl == tc.storage[q.ty.value].decl && n.value.decl in tc.impls
  {
    hide UnfoldAll, UnfoldMap;
    assert Below(tc.storage[q.ty.value], q.ty.value);
    assert Unfold(tc.storage, q.ty.value) == n.value;
  }

  /** The named type the block is for, if it is for one. */
  method FindTarget(i: ImplDecl, tc: TypeContext, dc: DiagnosticConsumer, ghost env: Env, ghost owner: Owner)
    returns (target: Option<TypeDecl>)
    requires tc.Valid() && i.declaredType.slot in TypingOf(owner)
    requires Means(tc.storage, TypingOf(owner)[i.declaredType.slot], NormalForm(env, i.declaredType))
    modifies dc
    ensures forall d :: target == Some(d) <==> NormalForm(env, i.declaredType) == Known(SNamed(d))
    ensures target == ImplTarget(env, i) && (target.Some? ==> target.value in tc.impls)
    ensures dc.emitted == old(dc.emitted) +
              if target.Some? || NormalForm(env, i.declaredType).Unknown? then [] else [ImplOnNonType]
  {
    hide Consistent, WellFormed, Means, NormalForm, TypingOf;
    ghost var n := NormalForm(env, i.declaredType);
    var implT := i.declaredType.slot.ty;
    SlotType(owner, i.declaredType.slot);
    UnknownMeansUnknown(tc, implT, n);
    if implT.IsUnknown() {
      return None;
    }
    NamedPointer(tc, implT, n);
    WarnOfQualifier(implT, dc);
    var namedT := tc.storage[implT.ty.value];
    if !namedT.NamedType? {
      dc.Emit(ImplOnNonType);
      return None;
    }
    return Some(namedT.decl);
  }

  /** One `impl` block. */
  method VisitImpl(i: ImplDecl, tc: TypeContext, dc: DiagnosticConsumer, ghost env: Env, ghost owner: Owner,
                   ghost root: ScopedASTNode, ghost storage: seq<Scope>, ghost nodes: set<ScopedASTNode>)
    returns (ok: bool)
    requires TreeOk(storage, ScopesOf(nodes)) && i.node in nodes
    requires forall f :: f in i.impls ==> f.node in nodes && f.node.scope != null && f.node.enclosing == i.node
    requires tc.Valid() && TableTyped(env, tc.storage, TypingOf(owner), TableOf(i.node))
    requires forall f :: f in i.impls ==> Typed(env, tc.storage, TypingOf(owner), f)
    requires i.declaredType.slot in TypingOf(owner)
    requires Means(tc.storage, TypingOf(owner)[i.declaredType.slot], NormalForm(env, i.declaredType))
    modifies i.node.scope, tc`impls, dc
    ensures tc.Valid()
    ensures ok <==> !DeclFails(env, old(TablesOf(nodes)), ImplD(i), root)
    ensures ok ==> TablesOf(nodes) == DeclTables(env, old(TablesOf(nodes)), ImplD(i), root)
    ensures ok ==> tc.impls == DeclLists(env, old(TablesOf(nodes)), old(tc.impls), ImplD(i))
    ensures ok ==> dc.emitted == old(dc.emitted) + DeclReports(env, old(TablesOf(nodes)), ImplD(i), root)
  {
    hide TreeOk, Consistent, WellFormed, Means, NormalForm, TypingOf, TableTyped, Typed, DeclFails, DeclTables,
         DeclLists,
         DeclReports, AddFuncs, AddFails, Added, FuncsReports, TableOf, ImplTarget;
    ghost var ts := TablesOf(nodes);
    assert ts[i.node] == TableOf(i.node);
    ImplCases(env, ts, tc.impls, i, root);
    var target := FindTarget(i, tc, dc, env, owner);
    assert TablesOf(nodes) == ts;
    if target.None? {
      return true;
    }
    ok := VisitImpls(i, target.value, tc, dc, env, owner, storage, nodes);
  }

  lemma UnknownMeansUnknown(tc: TypeContext, q: QualType, n: Norm<SemType>)
    requires tc.Valid() && Means(tc.storage, q, n)
    ensures q.IsUnknown() <==> n.Unknown?
  {
  }

  lemma ImplCases(env: Env, ts: Tables, lists: map<TypeDecl, seq<FuncDecl>>, i: ImplDecl, root: ScopedASTNode)
    requires i.node in ts
    ensures var target, d := ImplTarget(env, i), ImplD(i);
            if target.Some? then
              && (DeclFails(env, ts, d, root) <==> AddFails(env, ts[i.node], i.impls))
              && DeclTables(env, ts, d, root) == ts[i.node := AddFuncs(env, ts[i.node], i.impls)]
              && (target.value in lists ==>
                    DeclLists(env, ts, lists, d) == lists[target.value := lists[target.value] + Added(env, ts[i.node], i.impls)])
              && DeclReports(env, ts, d, root) == FuncsReports(env, ts[i.node], i.impls)
            else
              && !DeclFails(env, ts, d, root) && DeclTables(env, ts, d, root) == ts
              && DeclLists(env, ts, lists, d) == lists
              && DeclReports(env, ts, d, root) == if NormalForm(env, i.declaredType).Unknown? then [] else [ImplOnNonType]
  {
    hide AddFuncs, AddFails, Added, FuncsReports, NormalForm;
  }

  /** The nodes of the declaration's function and `impl` types remember what those types mean. */
  ghost predicate DeclTyped(env: Env, st: Storage, m: Typing, d: Decl)
    requires WellFormed(st)
  {
    match d
    case FuncD(f) => Typed(env, st, m, f)
    case ImplD(i) =>
      && i.declaredType.slot in m && Means(st, m[i.declaredType.slot], NormalForm(env, i.declaredType))
      && forall f :: f in i.impls ==> Typed(env, st, m, f)
    case _ => true
  }

  /** The function-declaring nodes of the declaration lie where the parser puts them and have their scopes. */
  ghost predicate DeclEntered(d: Decl, root: ScopedASTNode, m: ScopeMap) {
    match d
    case FuncD(f) => f.node in m && m[f.node] != null && f.node.enclosing == root
    case ImplD(i) =>
      && i.node in m
      && forall f :: f in i.impls ==> f.node in m && m[f.node] != null && f.node.enclosing == i.node
    case _ => true
  }

  /** One top-level declaration. */
  method VisitDecl(d: Decl, ls: Scope, lc: LexicalContext<Decl>, tc: TypeContext, dc: DiagnosticConsumer,
                   ghost env: Env,
                   ghost owner: Owner, ghost root: ScopedASTNode, ghost nodes: set<ScopedASTNode>,
                   ghost mine: set<ScopedASTNode>)
    returns (ok: bool)
    requires TreeOk(lc.scopeStorage, ScopesOf(nodes)) && root in nodes && root.scope == ls
    requires DeclEntered(d, root, ScopesOf(nodes)) && DeclDeep(d, root, mine, owner) && mine <= nodes
    requires tc.Valid() && DeclTyped(env, tc.storage, TypingOf(owner), d)
    requires TableTyped(env, tc.storage, TypingOf(owner), TableOf(root))
    requires d.ImplD? ==> TableTyped(env, tc.storage, TypingOf(owner), TableOf(d.i.node))
    modifies lc, nodes, ScopeSet(nodes), tc`impls, dc
    ensures TreeOk(lc.scopeStorage, ScopesOf(nodes)) && old(lc.scopeStorage) <= lc.scopeStorage
    ensures ScopesKept(old(ScopesOf(nodes)), ScopesOf(nodes), mine) && tc.Valid()
    ensures forall s :: s in ScopeSet(nodes) ==> s in old(ScopeSet(nodes)) || fresh(s)
    ensures ok <==> !DeclFails(env, old(TablesOf(nodes)), d, root)
    ensures ok ==> TablesOf(nodes) == DeclTables(env, old(TablesOf(nodes)), d, root)
    ensures ok ==> tc.impls == DeclLists(env, old(TablesOf(nodes)), old(tc.impls), d)
    ensures ok ==> dc.emitted == old(dc.emitted) + DeclReports(env, old(TablesOf(nodes)), d, root)
  {
    hide TreeOk, Consistent, WellFormed, Means, NormalForm, TypingOf, TableTyped, Typed, AddFunc, AddFuncs, AddFails,
         Added,
         FuncsReports, TablesOf, ExprPlaced, BlockPlaced, Judge, FuncReport, AllTyped;
    match d {
      case FuncD(f) =>
        EntriesAreTyped(env, tc.storage, TypingOf(owner), TableOf(root), f.name);
        TableIn(root, nodes);
        var r := VisitFunc(f, tc, dc, env, owner, root, lc.scopeStorage, nodes);
        ok := r.Some?;
      case ImplD(i) => ok := VisitImpl(i, tc, dc, env, owner, root, lc.scopeStorage, nodes);
      case VarD(v) =>
        if v.initializer.Some? {
          EnterExpr(v.initializer.value, ls, lc, root, nodes, mine, owner);
        }
        ok := true;
      case _ => ok := true;
    }
  }

  lemma EntriesAreTyped(env: Env, st: Storage, m: Typing, t: Table, name: string)
    requires WellFormed(st) && TableTyped(env, st, m, t)
    ensures AllTyped(env, st, m, Entry(t, name))
  {
  }

}
