/** The function-declaring pass over a whole unit: what every scope and every function list ends up holding. */
module FunctionPass {
  import opened QualTypes
  import opened LexicalScopes
  import opened AST
  import opened TypeStorage
  import opened TypeContexts
  import opened NormalForms
  import opened Materialisation
  import opened Programs
  import opened ScopeTrees
  import opened SymbolTables
  import opened Diagnostics
  import opened MaterializeTypes
  import opened ResolveGlobalTypes
  import opened Overloads
  import opened ForwardDeclareFunctions

  // The declarations one after the other.

  ghost function DeclsTables(env: Env, ts: Tables, ds: seq<Decl>, root: ScopedASTNode): Tables {
    if ds == [] then ts else DeclTables(env, DeclsTables(env, ts, ds[..|ds| - 1], root), ds[|ds| - 1], root)
  }

  ghost predicate DeclsFail(env: Env, ts: Tables, ds: seq<Decl>, root: ScopedASTNode) {
    ds != [] &&
    var before := ds[..|ds| - 1];
    DeclsFail(env, ts, before, root) || DeclFails(env, DeclsTables(env, ts, before, root), ds[|ds| - 1], root)
  }

  ghost function DeclsLists(env: Env, ts: Tables, lists: map<TypeDecl, seq<FuncDecl>>, ds: seq<Decl>,
                            root: ScopedASTNode)
    : map<TypeDecl, seq<FuncDecl>>
  {
    if ds == [] then lists else
      var before := ds[..|ds| - 1];
      DeclLists(env, DeclsTables(env, ts, before, root), DeclsLists(env, ts, lists, before, root), ds[|ds| - 1])
  }

  ghost function DeclsReports(env: Env, ts: Tables, ds: seq<Decl>, root: ScopedASTNode): seq<Diagnostic> {
    if ds == [] then [] else
      var before := ds[..|ds| - 1];
      DeclsReports(env, ts, before, root) + DeclReports(env, DeclsTables(env, ts, before, root), ds[|ds| - 1], root)
  }

  lemma OneMoreDecl(env: Env, ts: Tables, lists: map<TypeDecl, seq<FuncDecl>>, ds: seq<Decl>, k: nat,
                    root: ScopedASTNode)
    requires k < |ds|
    ensures var ts' := DeclsTables(env, ts, ds[..k], root);
            && DeclsTables(env, ts, ds[..k + 1], root) == DeclTables(env, ts', ds[k], root)
            && (DeclsFail(env, ts, ds[..k + 1], root) <==>
                  DeclsFail(env, ts, ds[..k], root) || DeclFails(env, ts', ds[k], root))
            && DeclsLists(env, ts, lists, ds[..k + 1], root) ==
               DeclLists(env, ts', DeclsLists(env, ts, lists, ds[..k], root), ds[k])
            && DeclsReports(env, ts, ds[..k + 1], root) ==
               DeclsReports(env, ts, ds[..k], root) + DeclReports(env, ts', ds[k], root)
  {
    hide DeclTables, DeclFails, DeclLists, DeclReports;
    assert ds[..k + 1][..k] == ds[..k];
  }

  lemma {:induction false} FailsFromHere(env: Env, ts: Tables, ds: seq<Decl>, k: nat, root: ScopedASTNode)
    requires k <= |ds| && DeclsFail(env, ts, ds[..k], root)
    ensures DeclsFail(env, ts, ds, root)
    decreases |ds| - k
  {
    if k == |ds| {
      assert ds[..k] == ds;
    } else {
      OneMoreDecl(env, ts, map[], ds, k, root);
      FailsFromHere(env, ts, ds, k + 1, root);
    }
  }

  /** The functions declared directly in the file, in order. */
  function FuncsOf(ds: seq<Decl>): seq<FuncDecl> {
    if ds == [] then [] else
      FuncsOf(ds[..|ds| - 1]) + if ds[|ds| - 1].FuncD? then [ds[|ds| - 1].f] else []
  }

  /** No two `impl` blocks are the same node. */
  ghost predicate ImplsApart(ds: seq<Decl>, root: ScopedASTNode) {
    && (forall a, b :: 0 <= a < b < |ds| && ds[a].ImplD? && ds[b].ImplD? ==> ds[a].i.node != ds[b].i.node)
    && (forall a :: 0 <= a < |ds| && ds[a].ImplD? ==> ds[a].i.node != root)
  }

  /** What a block's own scope declares: its functions if it is for a named type, else nothing. */
  ghost function ImplFuncs(env: Env, i: ImplDecl): seq<FuncDecl> {
    if ImplTarget(env, i).Some? then i.impls else []
  }

  /** The block has a target, and a typed function in it follows an untyped first one of its name. */
  ghost predicate ImplUnjudgeable(env: Env, d: Decl) {
    d.ImplD? && Unjudgeables(env, map[], ImplFuncs(env, d.i))
  }

  ghost predicate UnitUnjudgeable(env: Env, ds: seq<Decl>) {
    Unjudgeables(env, FirstTypes(ds), FuncsOf(ds)) || exists d :: d in ds && ImplUnjudgeable(env, d)
  }

  /** The functions a unit attaches to a named type: those kept from each block for it, block by block. */
  ghost function AttachedBy(env: Env, ds: seq<Decl>, target: TypeDecl): seq<FuncDecl> {
    if ds == [] then [] else
      var d := ds[|ds| - 1];
      AttachedBy(env, ds[..|ds| - 1], target) +
      if d.ImplD? && ImplTarget(env, d.i) == Some(target) then KeptFuncs(env, map[], d.i.impls) else []
  }

  /** Before the pass: the file's types in its scope, and nothing in the scopes of `impl` blocks. */
  ghost predicate Untouched(types: Env, ts: Tables, ds: seq<Decl>, root: ScopedASTNode) {
    && root in ts && ts[root] == TypeTable(types)
    && forall d :: d in ds && d.ImplD? ==> d.i.node in ts && ts[d.i.node] == map[]
  }

  ghost function ImplNodes(ds: seq<Decl>): set<ScopedASTNode> {
    set d | d in ds && d.ImplD? :: d.i.node
  }

  lemma OneMoreMember(ds: seq<Decl>, d: Decl)
    ensures ImplNodes(ds + [d]) == ImplNodes(ds) + (if d.ImplD? then {d.i.node} else {})
    ensures FuncsOf(ds + [d]) == FuncsOf(ds) + (if d.FuncD? then [d.f] else [])
  {
    assert (ds + [d])[..|ds|] == ds && (ds + [d])[|ds|] == d;
  }

  lemma AddOneMore(env: Env, t: Table, fs: seq<FuncDecl>, f: FuncDecl)
    ensures AddFuncs(env, t, fs + [f]) == AddFunc(env, AddFuncs(env, t, fs), f)
    ensures AddFails(env, t, fs + [f]) <==> AddFails(env, t, fs) || Judge(env, Entry(AddFuncs(env, t, fs), f.name), f).Fatal?
  {
    hide AddFunc, Judge;
    assert (fs + [f])[..|fs|] == fs;
  }

  ghost predicate TablesAre(env: Env, ts: Tables, ts': Tables, ds: seq<Decl>, root: ScopedASTNode) {
    && ts'.Keys == ts.Keys && root in ts && ts'[root] == AddFuncs(env, ts[root], FuncsOf(ds))
    && (forall d :: d in ds && d.ImplD? ==>
          d.i.node in ts && ts'[d.i.node] == AddFuncs(env, ts[d.i.node], ImplFuncs(env, d.i)))
    && (forall n :: n in ts && n != root && n !in ImplNodes(ds) ==> ts'[n] == ts[n])
  }

  lemma {:induction false} TablesAfterDecls(env: Env, ts: Tables, ds: seq<Decl>, root: ScopedASTNode)
    requires ImplsApart(ds, root) && root in ts && forall d :: d in ds && d.ImplD? ==> d.i.node in ts
    ensures TablesAre(env, ts, DeclsTables(env, ts, ds, root), ds, root)
  {
    hide TablesAre, DeclTables;
    if ds == [] {
      NoDeclsYet(env, ts, root);
    } else {
      var before, d := ds[..|ds| - 1], ds[|ds| - 1];
      TablesAfterDecls(env, ts, before, root);
      assert before + [d] == ds;
      TablesAfterOne(env, ts, DeclsTables(env, ts, before, root), before, d, root);
    }
  }

  lemma NoDeclsYet(env: Env, ts: Tables, root: ScopedASTNode)
    requires root in ts
    ensures TablesAre(env, ts, ts, [], root)
  {
  }

  lemma TablesAfterOne(env: Env, ts: Tables, ts': Tables, ds: seq<Decl>, d: Decl, root: ScopedASTNode)
    requires TablesAre(env, ts, ts', ds, root) && ImplsApart(ds + [d], root) && (d.ImplD? ==> d.i.node in ts)
    ensures TablesAre(env, ts, DeclTables(env, ts', d, root), ds + [d], root)
  {
    hide AddFunc, AddFuncs, ImplFuncs, ImplTarget, ImplNodes, FuncsOf, ImplsApart;
    OneMoreMember(ds, d);
    assert FuncsOf(ds) + [] == FuncsOf(ds);
    match d {
      case FuncD(f) =>
        FewerApart(ds, d, root);
        AddOneMore(env, ts[root], FuncsOf(ds), f);
      case ImplD(i) =>
        ItsOwnImpl(ds, d, root);
        AddNone(env, ts[i.node], i);
      case _ =>
    }
  }

  lemma AddNone(env: Env, t: Table, i: ImplDecl)
    ensures AddFuncs(env, t, ImplFuncs(env, i)) == if ImplTarget(env, i).Some? then AddFuncs(env, t, i.impls) else t
  {
  }

  lemma FewerApart(ds: seq<Decl>, d: Decl, root: ScopedASTNode)
    requires ImplsApart(ds + [d], root)
    ensures ImplsApart(ds, root) && forall d' :: d' in ds && d'.ImplD? ==> d'.i.node != root
  {
    assert forall a :: 0 <= a < |ds| ==> (ds + [d])[a] == ds[a];
  }

  lemma ItsOwnImpl(ds: seq<Decl>, d: Decl, root: ScopedASTNode)
    requires ImplsApart(ds + [d], root) && d.ImplD?
    ensures d.i.node != root && d.i.node !in ImplNodes(ds)
    ensures forall d' :: d' in ds && d'.ImplD? ==> d'.i.node != d.i.node
  {
    assert (ds + [d])[|ds|] == d;
    forall a | 0 <= a < |ds| && ds[a].ImplD?
      ensures ds[a].i.node != d.i.node
    {
      assert (ds + [d])[a] == ds[a];
    }
  }

  /** The assertion fails while the file's functions, or those of some block with a target, are declared. */
  ghost predicate FailsSomewhere(env: Env, ts: Tables, ds: seq<Decl>, root: ScopedASTNode) {
    || (root in ts && AddFails(env, ts[root], FuncsOf(ds)))
    || (exists d :: d in ds && d.ImplD? && d.i.node in ts && AddFails(env, ts[d.i.node], ImplFuncs(env, d.i)))
  }

  lemma {:induction false} FailsExactly(env: Env, ts: Tables, ds: seq<Decl>, root: ScopedASTNode)
    requires ImplsApart(ds, root) && root in ts && forall d :: d in ds && d.ImplD? ==> d.i.node in ts
    ensures DeclsFail(env, ts, ds, root) <==> FailsSomewhere(env, ts, ds, root)
  {
    hide ImplsApart, FailsSomewhere, TablesAre, DeclFails, DeclsTables;
    if ds == [] {
      NothingFails(env, ts, root);
    } else {
      var before, d := ds[..|ds| - 1], ds[|ds| - 1];
      assert before + [d] == ds;
      FewerApart(before, d, root);
      FailsExactly(env, ts, before, root);
      TablesAfterDecls(env, ts, before, root);
      FailsAfterOne(env, ts, DeclsTables(env, ts, before, root), before, d, root);
    }
  }

  lemma NothingFails(env: Env, ts: Tables, root: ScopedASTNode)
    ensures !FailsSomewhere(env, ts, [], root)
  {
  }

  lemma FailsAfterOne(env: Env, ts: Tables, ts': Tables, ds: seq<Decl>, d: Decl, root: ScopedASTNode)
    requires TablesAre(env, ts, ts', ds, root) && ImplsApart(ds + [d], root) && (d.ImplD? ==> d.i.node in ts)
    ensures FailsSomewhere(env, ts, ds + [d], root) <==> FailsSomewhere(env, ts, ds, root) || DeclFails(env, ts', d, root)
  {
    hide AddFunc, AddFuncs, ImplTarget, Judge, FuncsOf;
    OneMoreMember(ds, d);
    assert FuncsOf(ds) + [] == FuncsOf(ds);
    assert forall d' :: d' in ds + [d] <==> d' in ds || d' == d;
    match d {
      case FuncD(f) => AddOneMore(env, ts[root], FuncsOf(ds), f);
      case ImplD(i) => ItsOwnImpl(ds, d, root);
      case _ =>
    }
  }

  /** Tables that are in order stay so through every declaration. */
  lemma {:induction false} DeclsKeepOk(env: Env, ts: Tables, ds: seq<Decl>, root: ScopedASTNode, ns: set<ScopedASTNode>)
    requires TablesOk(env, ts, ns)
    ensures TablesOk(env, DeclsTables(env, ts, ds, root), ns)
  {
    hide TableOk, AddFunc, AddFuncs, ImplTarget;
    if ds != [] {
      var before, d := DeclsTables(env, ts, ds[..|ds| - 1], root), ds[|ds| - 1];
      DeclsKeepOk(env, ts, ds[..|ds| - 1], root, ns);
      match d {
        case FuncD(f) => if root in before && root in ns { AddFuncKeepsOk(env, before[root], f); }
        case ImplD(i) => if i.node in before && i.node in ns { AddFuncsKeepsOk(env, before[i.node], i.impls); }
        case _ =>
      }
    }
  }

  // The function lists.

  lemma {:induction false} ListsAfterDecls(env: Env, ts: Tables, lists: map<TypeDecl, seq<FuncDecl>>, ds: seq<Decl>,
                                           root: ScopedASTNode, target: TypeDecl)
    requires ImplsApart(ds, root) && root in ts && !DeclsFail(env, ts, ds, root)
    requires forall d :: d in ds && d.ImplD? ==> d.i.node in ts && ts[d.i.node] == map[]
    ensures ListOf(DeclsLists(env, ts, lists, ds, root), target) == ListOf(lists, target) + AttachedBy(env, ds, target)
  {
    hide *;
    if ds == [] {
      NoLists(env, ts, lists, root, target);
    } else {
      var before, d := ds[..|ds| - 1], ds[|ds| - 1];
      assert before + [d] == ds;
      UnfoldLists(env, ts, lists, ds, root, target);
      FewerApart(before, d, root);
      TablesAfterDecls(env, ts, before, root);
      ListsAfterDecls(env, ts, lists, before, root, target);
      var ts', lists' := DeclsTables(env, ts, before, root), DeclsLists(env, ts, lists, before, root);
      ListAfterOne(env, ts, ts', lists', before, d, root, target);
    }
  }

  lemma NoLists(env: Env, ts: Tables, lists: map<TypeDecl, seq<FuncDecl>>, root: ScopedASTNode, target: TypeDecl)
    ensures ListOf(DeclsLists(env, ts, lists, [], root), target) == ListOf(lists, target) + AttachedBy(env, [], target)
  {
  }

  lemma UnfoldLists(env: Env, ts: Tables, lists: map<TypeDecl, seq<FuncDecl>>, ds: seq<Decl>, root: ScopedASTNode,
                    target: TypeDecl)
    requires ds != []
    ensures var before, d := ds[..|ds| - 1], ds[|ds| - 1];
            && DeclsLists(env, ts, lists, ds, root) ==
               DeclLists(env, DeclsTables(env, ts, before, root), DeclsLists(env, ts, lists, before, root), d)
            && AttachedBy(env, ds, target) == AttachedBy(env, before, target) +
               (if d.ImplD? && ImplTarget(env, d.i) == Some(target) then KeptFuncs(env, map[], d.i.impls) else [])
            && (!DeclsFail(env, ts, ds, root) ==>
                  !DeclsFail(env, ts, before, root) && !DeclFails(env, DeclsTables(env, ts, before, root), d, root))
  {
    hide DeclLists, DeclTables, DeclFails, KeptFuncs, ImplTarget;
  }

  lemma ListAfterOne(env: Env, ts: Tables, ts': Tables, lists: map<TypeDecl, seq<FuncDecl>>, ds: seq<Decl>, d: Decl,
                     root: ScopedASTNode, target: TypeDecl)
    requires TablesAre(env, ts, ts', ds, root) && ImplsApart(ds + [d], root) && !DeclFails(env, ts', d, root)
    requires d.ImplD? ==> d.i.node in ts && ts[d.i.node] == map[]
    ensures ListOf(DeclLists(env, ts', lists, d), target) ==
            ListOf(lists, target) +
            if d.ImplD? && ImplTarget(env, d.i) == Some(target) then KeptFuncs(env, map[], d.i.impls) else []
  {
    hide ImplsApart, ImplTarget, AddFuncs, KeptFuncs, AddFails, Added;
    if d.ImplD? && ImplTarget(env, d.i).Some? {
      ItsOwnImpl(ds, d, root);
      assert ts'[d.i.node] == map[] == TypeTable(map[]);
      FunctionTableIsExact(env, map[], d.i.impls);
    }
  }

  lemma {:induction false} KeptOnce(env: Env, types: Env, fs: seq<FuncDecl>)
    ensures forall f :: f in KeptFuncs(env, types, fs) ==> f in fs
    ensures NoRepeats(KeptFuncs(env, types, fs))
  {
    hide Sig;
    if fs != [] {
      KeptOnce(env, types, fs[..|fs| - 1]);
    }
  }

  /** The functions kept from a block are its overload sets, name by name. */
  lemma {:induction false} KeptExactly(env: Env, fs: seq<FuncDecl>, f: FuncDecl)
    ensures f in KeptFuncs(env, map[], fs) <==> f in OverloadSet(env, fs, f.name)
  {
    hide Fits;
    if fs != [] {
      KeptExactly(env, fs[..|fs| - 1], f);
    }
  }

  /** The declaration is a block whose type is this named type, through any aliases. */
  ghost predicate BlockFor(env: Env, d: Decl, target: TypeDecl) {
    d.ImplD? && NormalForm(env, d.i.declaredType) == Known(SNamed(target))
  }

  /** The unit attaches a function to a named type exactly if it is kept from some block for the type. */
  lemma {:induction false} AttachedExactly(env: Env, ds: seq<Decl>, target: TypeDecl, f: FuncDecl)
    ensures f in AttachedBy(env, ds, target) <==>
            exists d :: d in ds && BlockFor(env, d, target) && f in OverloadSet(env, d.i.impls, f.name)
  {
    hide NormalForm, KeptFuncs, OverloadSet;
    if ds != [] {
      var before, d := ds[..|ds| - 1], ds[|ds| - 1];
      AttachedExactly(env, before, target, f);
      assert forall x :: x in ds <==> x in before || x == d;
      if d.ImplD? {
        KeptExactly(env, d.i.impls, f);
        assert ImplTarget(env, d.i) == Some(target) <==> BlockFor(env, d, target);
      }
    }
  }

  /** Blocks that are different nodes share no function. */
  ghost predicate FuncsApart(ds: seq<Decl>) {
    forall a, b, f :: 0 <= a < b < |ds| && ds[a].ImplD? && ds[b].ImplD? && f in ds[a].i.impls ==> f !in ds[b].i.impls
  }

  /** A function lies in one block: its node is enclosed by that block's. */
  lemma {:induction false} BlocksShareNoFunction(p: ProgramDecl)
    requires Placed(p) && ImplsApart(p.decls, p.node)
    ensures FuncsApart(p.decls)
  {
    var ds := p.decls;
    forall a | 0 <= a < |ds| && ds[a].ImplD?
      ensures forall f :: f in ds[a].i.impls ==> f.node.enclosing == ds[a].i.node
    {
      assert DeclPlaced(ds[a], p.node);
      assert forall f :: f in ds[a].i.impls ==> FuncPlaced(f, ds[a].i.node);
    }
  }

  ghost predicate NoRepeats(fs: seq<FuncDecl>) {
    forall i, j :: 0 <= i < j < |fs| ==> fs[i] != fs[j]
  }

  lemma {:induction false} NoRepeatsTogether(fs: seq<FuncDecl>, gs: seq<FuncDecl>)
    requires NoRepeats(fs) && NoRepeats(gs) && forall f :: f in fs ==> f !in gs
    ensures NoRepeats(fs + gs)
  {
    assert forall i, j :: 0 <= i < |fs| && 0 <= j < |gs| ==> fs[i] in fs && gs[j] in gs && fs[i] != gs[j];
  }

  /** No function of a unit is attached twice to a type. */
  lemma {:induction false} AttachedOnce(env: Env, p: ProgramDecl, target: TypeDecl)
    requires Placed(p) && ImplsApart(p.decls, p.node)
    ensures NoRepeats(AttachedBy(env, p.decls, target))
  {
    BlocksShareNoFunction(p);
    AttachedOnceApart(env, p.decls, target);
  }

  lemma {:induction false} AttachedOnceApart(env: Env, ds: seq<Decl>, target: TypeDecl)
    requires FuncsApart(ds)
    ensures forall f :: f in AttachedBy(env, ds, target) ==> exists a :: 0 <= a < |ds| && ds[a].ImplD? && f in ds[a].i.impls
    ensures NoRepeats(AttachedBy(env, ds, target))
  {
    hide ImplTarget, KeptFuncs;
    if ds != [] {
      var before, d := ds[..|ds| - 1], ds[|ds| - 1];
      assert ds[|ds| - 1] == d;
      AttachedOnceApart(env, before, target);
      if d.ImplD? {
        KeptOnce(env, map[], d.i.impls);
        forall f | f in AttachedBy(env, before, target)
          ensures f !in d.i.impls && exists a :: 0 <= a < |ds| && ds[a].ImplD? && f in ds[a].i.impls
        {
          var a :| 0 <= a < |before| && before[a].ImplD? && f in before[a].i.impls;
          assert ds[a] == before[a];
        }
        NoRepeatsTogether(AttachedBy(env, before, target), KeptFuncs(env, map[], d.i.impls));
      } else {
        assert forall a :: 0 <= a < |before| ==> before[a] == ds[a];
      }
    }
  }

  // The unit as a whole.

  /** What the scopes of a unit hold after the pass: the file's types with the overload sets of its other names, and in
      the scope of each block for a named type the overload sets of its functions; all other scopes are as before. */
  ghost predicate UnitDeclared(env: Env, ts: Tables, ts': Tables, ds: seq<Decl>, root: ScopedASTNode) {
    && ts'.Keys == ts.Keys && root in ts && TableIs(env, FirstTypes(ds), FuncsOf(ds), ts'[root])
    && (forall d :: d in ds && d.ImplD? ==> d.i.node in ts && TableIs(env, map[], ImplFuncs(env, d.i), ts'[d.i.node]))
    && (forall n :: n in ts && n != root && n !in ImplNodes(ds) ==> ts'[n] == ts[n])
  }

  /** Every list has gained what the unit attaches to its type, and every type with a block in the unit has a list. */
  ghost predicate ListsGained(env: Env, lists: map<TypeDecl, seq<FuncDecl>>, lists': map<TypeDecl, seq<FuncDecl>>,
                              ds: seq<Decl>) {
    && (forall target :: target in lists' ==> lists'[target] == ListOf(lists, target) + AttachedBy(env, ds, target))
    && (forall target :: target in lists ==> target in lists')
    && (forall d :: d in ds && d.ImplD? && ImplTarget(env, d.i).Some? ==> ImplTarget(env, d.i).value in lists')
  }

  lemma {:induction false} TargetsHaveLists(env: Env, ts: Tables, lists: map<TypeDecl, seq<FuncDecl>>, ds: seq<Decl>,
                                            root: ScopedASTNode)
    requires ImplsApart(ds, root) && root in ts && forall d :: d in ds && d.ImplD? ==> d.i.node in ts
    ensures lists.Keys <= DeclsLists(env, ts, lists, ds, root).Keys
    ensures forall d :: d in ds && d.ImplD? && ImplTarget(env, d.i).Some? ==>
              ImplTarget(env, d.i).value in DeclsLists(env, ts, lists, ds, root)
  {
    hide ImplTarget, ImplsApart, Added, AddFuncs, DeclTables;
    if ds != [] {
      var before, d := ds[..|ds| - 1], ds[|ds| - 1];
      assert before + [d] == ds;
      FewerApart(before, d, root);
      TargetsHaveLists(env, ts, lists, before, root);
      TablesAfterDecls(env, ts, before, root);
    }
  }

  /** The pass stops at a failing assertion exactly if, in the file or in a block for a named type, a typed function
      follows an untyped first one of its name; if not, every scope holds its overload sets, and every named type
      gains the functions kept from the blocks for it. */
  lemma DeclaredExactly(env: Env, ts: Tables, lists: map<TypeDecl, seq<FuncDecl>>, ds: seq<Decl>, root: ScopedASTNode)
    requires ImplsApart(ds, root) && Untouched(FirstTypes(ds), ts, ds, root)
    ensures DeclsFail(env, ts, ds, root) <==> UnitUnjudgeable(env, ds)
    ensures !DeclsFail(env, ts, ds, root) ==>
              && UnitDeclared(env, ts, DeclsTables(env, ts, ds, root), ds, root)
              && ListsGained(env, lists, DeclsLists(env, ts, lists, ds, root), ds)
  {
    hide TableIs, Unjudgeables, AddFails, AddFuncs, DeclsTables, DeclsFail, DeclsLists, ImplsApart, FuncsOf,
         FirstTypes, ImplFuncs,
         KeptFuncs, Added, ListOf, AttachedBy, ImplTarget;
    FailsExactly(env, ts, ds, root);
    TablesAfterDecls(env, ts, ds, root);
    FunctionTableIsExact(env, FirstTypes(ds), FuncsOf(ds));
    forall d | d in ds && d.ImplD?
      ensures AddFails(env, ts[d.i.node], ImplFuncs(env, d.i)) <==> ImplUnjudgeable(env, d)
      ensures !AddFails(env, ts[d.i.node], ImplFuncs(env, d.i)) ==>
                TableIs(env, map[], ImplFuncs(env, d.i), AddFuncs(env, ts[d.i.node], ImplFuncs(env, d.i)))
    {
      assert TypeTable(map[]) == map[];
      FunctionTableIsExact(env, map[], ImplFuncs(env, d.i));
    }
    if !DeclsFail(env, ts, ds, root) {
      var lists' := DeclsLists(env, ts, lists, ds, root);
      TargetsHaveLists(env, ts, lists, ds, root);
      forall target | target in lists'
        ensures lists'[target] == ListOf(lists, target) + AttachedBy(env, ds, target)
      {
        ListsAfterDecls(env, ts, lists, ds, root, target);
        ListIs(lists', target);
      }
    }
  }

  lemma ListIs(lists: map<TypeDecl, seq<FuncDecl>>, target: TypeDecl)
    ensures target in lists ==> ListOf(lists, target) == lists[target]
  {
  }

  // The pass itself.

  /** Every function of the unit has a function type over its own parameters' type nodes. */
  ghost predicate Shaped(ds: seq<Decl>) {
    forall d :: d in ds ==>
      match d
      case FuncD(f) => TypedAsDeclared(f)
      case ImplD(i) => forall f :: f in i.impls ==> TypedAsDeclared(f)
      case _ => true
  }

  lemma DeclIsTyped(env: Env, p: ProgramDecl, st: Storage, m: Typing, d: Decl)
    requires WellFormed(st) && Resolved(env, Roots(p), st, m) && Shaped(p.decls) && d in p.decls
    ensures DeclTyped(env, st, m, d)
  {
    hide Normal, WellFormed, Means;
    DeclRootsAreRoots(p.decls, p.node, d);
    match d {
      case FuncD(f) => assert TypeRoot(f.declaredType, f.node) in FuncRoots(f);
      case ImplD(i) =>
        assert TypeRoot(i.declaredType, i.node) in DeclRoots(d, p.node);
        forall f | f in i.impls
          ensures Typed(env, st, m, f)
        {
          FuncRootsAreRoots(i.impls, f);
          assert TypeRoot(f.declaredType, f.node) in FuncRoots(f);
        }
      case _ =>
    }
  }

  lemma DeclIsEntered(p: ProgramDecl, m: ScopeMap, d: Decl)
    requires Placed(p) && d in p.decls && forall n :: n in DeclsNodes(p.decls) ==> n in m && m[n] != null
    ensures DeclEntered(d, p.node, m)
  {
    DeclNodesAreNodes(p.decls, d);
    match d {
      case FuncD(f) => assert f.node in DeclNodes(d);
      case ImplD(i) =>
        assert i.node in DeclNodes(d);
        forall f | f in i.impls
          ensures f.node in m && m[f.node] != null && f.node.enclosing == i.node
        {
          FuncNodesAreNodes(i.impls, f);
          assert FuncPlaced(f, i.node) && f.node in FuncNodes(f);
        }
      case _ =>
    }
  }

  lemma StaysEntered(d: Decl, root: ScopedASTNode, m: ScopeMap, m': ScopeMap, mine: set<ScopedASTNode>)
    requires DeclEntered(d, root, m) && ScopesKept(m, m', mine)
    ensures DeclEntered(d, root, m')
  {
  }

  /** The functions in the tables of these nodes are typed. */
  ghost predicate TablesTyped(env: Env, st: Storage, m: Typing, ts: Tables, ns: set<ScopedASTNode>)
    requires WellFormed(st)
  {
    forall n :: n in ns ==> n in ts && TableTyped(env, st, m, ts[n])
  }

  lemma {:induction false} AddFuncsKeepsTyped(env: Env, st: Storage, m: Typing, t: Table, fs: seq<FuncDecl>)
    requires WellFormed(st) && TableTyped(env, st, m, t) && forall f :: f in fs ==> Typed(env, st, m, f)
    ensures TableTyped(env, st, m, AddFuncs(env, t, fs))
  {
    hide TableTyped, AddFunc, WellFormed, Typed;
    if fs != [] {
      AddFuncsKeepsTyped(env, st, m, t, fs[..|fs| - 1]);
      AddFuncKeepsTyped(env, st, m, AddFuncs(env, t, fs[..|fs| - 1]), fs[|fs| - 1]);
    }
  }

  lemma DeclKeepsTyped(env: Env, st: Storage, m: Typing, ts: Tables, ns: set<ScopedASTNode>, d: Decl,
                       root: ScopedASTNode)
    requires WellFormed(st) && TablesTyped(env, st, m, ts, ns) && DeclTyped(env, st, m, d)
    requires root in ns && (d.ImplD? ==> d.i.node in ns)
    ensures TablesTyped(env, st, m, DeclTables(env, ts, d, root), ns)
  {
    hide TableTyped, AddFunc, AddFuncs, WellFormed, Typed, Means;
    match d {
      case FuncD(f) => AddFuncKeepsTyped(env, st, m, ts[root], f);
      case ImplD(i) => AddFuncsKeepsTyped(env, st, m, ts[i.node], i.impls);
      case _ =>
    }
  }

  lemma UntouchedIsTyped(env: Env, types: Env, st: Storage, m: Typing, ts: Tables, ds: seq<Decl>, root: ScopedASTNode)
    requires WellFormed(st) && Untouched(types, ts, ds, root)
    ensures TablesTyped(env, st, m, ts, {root} + ImplNodes(ds))
  {
    hide WellFormed, Typed;
  }

  /** The expressions of the unit are nested where the parser puts them. */
  ghost predicate DeepPlaced(p: ProgramDecl, mine: set<ScopedASTNode>, owner: Owner) {
    forall d :: d in p.decls ==> DeclDeep(d, p.node, mine, owner)
  }

  /** What visiting declaration `k` needs. */
  ghost predicate Ready(env: Env, p: ProgramDecl, st: Storage, m: Typing, ts: Tables, scopes: ScopeMap,
                        mine: set<ScopedASTNode>, owner: Owner, k: nat)
    requires WellFormed(st) && k < |p.decls|
  {
    var d := p.decls[k];
    && DeclEntered(d, p.node, scopes) && DeclDeep(d, p.node, mine, owner) && DeclTyped(env, st, m, d)
    && p.node in ts && TableTyped(env, st, m, ts[p.node])
    && (d.ImplD? ==> d.i.node in ts && TableTyped(env, st, m, ts[d.i.node]))
  }

  lemma NextIsReady(env: Env, p: ProgramDecl, st: Storage, m: Typing, ts0: Tables, scopes0: ScopeMap, scopes: ScopeMap,
                    lists: map<TypeDecl, seq<FuncDecl>>, mine: set<ScopedASTNode>, owner: Owner, k: nat)
    requires WellFormed(st) && Resolved(env, Roots(p), st, m) && Shaped(p.decls) && DeepPlaced(p, mine, owner)
             && Placed(p)
    requires forall n :: n in DeclsNodes(p.decls) ==> n in scopes0 && scopes0[n] != null
    requires k < |p.decls| && ScopesKept(scopes0, scopes, mine)
    requires TablesTyped(env, st, m, DeclsTables(env, ts0, p.decls[..k], p.node), {p.node} + ImplNodes(p.decls))
    ensures var ts, d := DeclsTables(env, ts0, p.decls[..k], p.node), p.decls[k];
            && Ready(env, p, st, m, ts, scopes, mine, owner, k)
            && TablesTyped(env, st, m, DeclTables(env, ts, d, p.node), {p.node} + ImplNodes(p.decls))
            && DeclsTables(env, ts0, p.decls[..k + 1], p.node) == DeclTables(env, ts, d, p.node)
            && (DeclsFail(env, ts0, p.decls[..k + 1], p.node) <==>
                  DeclsFail(env, ts0, p.decls[..k], p.node) || DeclFails(env, ts, d, p.node))
            && DeclsLists(env, ts0, lists, p.decls[..k + 1], p.node) ==
               DeclLists(env, ts, DeclsLists(env, ts0, lists, p.decls[..k], p.node), d)
            && DeclsReports(env, ts0, p.decls[..k + 1], p.node) ==
               DeclsReports(env, ts0, p.decls[..k], p.node) + DeclReports(env, ts, d, p.node)
  {
    hide DeclTables, DeclFails, DeclLists, DeclReports, DeclsTables, DeclsFail, DeclsLists, DeclsReports, Roots, Placed,
         DeclTyped, DeclEntered, DeclDeep, TableTyped, Shaped, WellFormed, Resolved;
    var d := p.decls[k];
    assert d in p.decls;
    DeclIsTyped(env, p, st, m, d);
    DeclIsEntered(p, scopes0, d);
    StaysEntered(d, p.node, scopes0, scopes, mine);
    OneMoreDecl(env, ts0, lists, p.decls, k, p.node);
    DeclKeepsTyped(env, st, m, DeclsTables(env, ts0, p.decls[..k], p.node), {p.node} + ImplNodes(p.decls), d, p.node);
  }

  method VisitReady(p: ProgramDecl, k: nat, ls: Scope, lc: LexicalContext<Decl>, tc: TypeContext,
                    dc: DiagnosticConsumer,
                    ghost env: Env, ghost owner: Owner, ghost nodes: set<ScopedASTNode>, ghost mine: set<ScopedASTNode>)
    returns (ok: bool)
    requires TreeOk(lc.scopeStorage, ScopesOf(nodes)) && p.node in nodes && p.node.scope == ls && k < |p.decls|
    requires mine <= nodes && tc.Valid()
             && Ready(env, p, tc.storage, TypingOf(owner), TablesOf(nodes), ScopesOf(nodes), mine, owner, k)
    modifies lc, nodes, ScopeSet(nodes), tc`impls, dc
    ensures TreeOk(lc.scopeStorage, ScopesOf(nodes)) && old(lc.scopeStorage) <= lc.scopeStorage
    ensures ScopesKept(old(ScopesOf(nodes)), ScopesOf(nodes), mine) && tc.Valid()
    ensures forall s :: s in ScopeSet(nodes) ==> s in old(ScopeSet(nodes)) || fresh(s)
    ensures ok <==> !DeclFails(env, old(TablesOf(nodes)), p.decls[k], p.node)
    ensures ok ==> TablesOf(nodes) == DeclTables(env, old(TablesOf(nodes)), p.decls[k], p.node)
    ensures ok ==> tc.impls == DeclLists(env, old(TablesOf(nodes)), old(tc.impls), p.decls[k])
    ensures ok ==> dc.emitted == old(dc.emitted) + DeclReports(env, old(TablesOf(nodes)), p.decls[k], p.node)
  {
    hide TreeOk, Consistent, WellFormed, TypingOf, TableTyped, DeclTyped, DeclDeep, DeclEntered, DeclTables,
         DeclFails, DeclLists,
         DeclReports, TableOf;
    ok := VisitDecl(p.decls[k], ls, lc, tc, dc, env, owner, p.node, nodes, mine);
  }

  lemma NothingVisited(env: Env, ts: Tables, lists: map<TypeDecl, seq<FuncDecl>>, scopes: ScopeMap,
                       mine: set<ScopedASTNode>, ds: seq<Decl>, root: ScopedASTNode)
    ensures ScopesKept(scopes, scopes, mine) && ds[..0] == [] && DeclsTables(env, ts, [], root) == ts
    ensures !DeclsFail(env, ts, [], root)
    ensures DeclsLists(env, ts, lists, [], root) == lists && DeclsReports(env, ts, [], root) == []
  {
  }

  lemma KeptFurther(m: ScopeMap, m': ScopeMap, nodes: set<ScopedASTNode>, mine: set<ScopedASTNode>, n: ScopedASTNode)
    requires ScopesKept(m, m', mine) && ScopesKept(m', ScopesOf(nodes), mine) && n in m' && m'[n] != null
    ensures ScopesKept(m, ScopesOf(nodes), mine) && n.scope == m'[n]
  {
  }

  /** The declarations one after the other, up to the first failing assertion. */
  method VisitDecls(p: ProgramDecl, lc: LexicalContext<Decl>, tc: TypeContext, dc: DiagnosticConsumer, ghost env: Env,
                    ghost owner: Owner, ghost nodes: set<ScopedASTNode>, ghost mine: set<ScopedASTNode>)
    returns (ok: bool)
    requires TreeOk(lc.scopeStorage, ScopesOf(nodes)) && Placed(p) && p.node in nodes && p.node.scope != null
    requires forall n :: n in DeclsNodes(p.decls) ==> n in nodes && n.scope != null
    requires Shaped(p.decls) && DeepPlaced(p, mine, owner) && mine <= nodes
    requires tc.Valid() && Resolved(env, Roots(p), tc.storage, TypingOf(owner))
    requires TablesTyped(env, tc.storage, TypingOf(owner), TablesOf(nodes), {p.node} + ImplNodes(p.decls))
    modifies lc, nodes, ScopeSet(nodes), tc`impls, dc
    ensures TreeOk(lc.scopeStorage, ScopesOf(nodes)) && old(lc.scopeStorage) <= lc.scopeStorage
    ensures ScopesKept(old(ScopesOf(nodes)), ScopesOf(nodes), mine) && tc.Valid()
    ensures forall s :: s in ScopeSet(nodes) ==> s in old(ScopeSet(nodes)) || fresh(s)
    ensures ok <==> !DeclsFail(env, old(TablesOf(nodes)), p.decls, p.node)
    ensures ok ==> TablesOf(nodes) == DeclsTables(env, old(TablesOf(nodes)), p.decls, p.node)
    ensures ok ==> tc.impls == DeclsLists(env, old(TablesOf(nodes)), old(tc.impls), p.decls, p.node)
    ensures ok ==> dc.emitted == old(dc.emitted) + DeclsReports(env, old(TablesOf(nodes)), p.decls, p.node)
  {
    hide *;
    ghost var ts0, scopes0, lists0, st, m := TablesOf(nodes), ScopesOf(nodes), tc.impls, tc.storage, TypingOf(owner);
    ValidIsWellFormed(tc);
    ScopesIn(nodes);
    NothingVisited(env, ts0, lists0, scopes0, mine, p.decls, p.node);
    var ls := p.node.scope;
    for k := 0 to |p.decls|
      invariant TreeOk(lc.scopeStorage, ScopesOf(nodes)) && old(lc.scopeStorage) <= lc.scopeStorage
      invariant ScopesKept(scopes0, ScopesOf(nodes), mine) && p.node.scope == ls
      invariant forall s :: s in ScopeSet(nodes) ==> s in old(ScopeSet(nodes)) || fresh(s)
      invariant tc.Valid() && tc.storage == st && TypingOf(owner) == m && WellFormed(st)
      invariant !DeclsFail(env, ts0, p.decls[..k], p.node)
      invariant TablesOf(nodes) == DeclsTables(env, ts0, p.decls[..k], p.node)
      invariant TablesTyped(env, st, m, TablesOf(nodes), {p.node} + ImplNodes(p.decls))
      invariant tc.impls == DeclsLists(env, ts0, lists0, p.decls[..k], p.node)
      invariant dc.emitted == old(dc.emitted) + DeclsReports(env, ts0, p.decls[..k], p.node)
    {
      ghost var scopes := ScopesOf(nodes);
      assert p.node in scopes && scopes[p.node] == ls by { ScopeIn(p.node, nodes); }
      NextIsReady(env, p, st, m, ts0, scopes0, scopes, lists0, mine, owner, k);
      ok := VisitReady(p, k, ls, lc, tc, dc, env, owner, nodes, mine);
      KeptFurther(scopes0, scopes, nodes, mine, p.node);
      if !ok {
        FailsFromHere(env, ts0, p.decls, k + 1, p.node);
        return;
      }
    }
    assert p.decls[..|p.decls|] == p.decls;
    return true;
  }

  lemma ScopesIn(nodes: set<ScopedASTNode>)
    ensures forall n :: n in nodes ==> n in ScopesOf(nodes) && ScopesOf(nodes)[n] == n.scope
  {
  }

  lemma ScopeIn(n: ScopedASTNode, nodes: set<ScopedASTNode>)
    requires n in nodes
    ensures n in ScopesOf(nodes) && ScopesOf(nodes)[n] == n.scope
  {
  }

  lemma UnitIsUntouched(p: ProgramDecl, builtins: Env, storage: seq<Scope>, nodes: set<ScopedASTNode>)
    requires TreeOk(storage, ScopesOf(nodes)) && {p.node} + Among(DeclsNodes(p.decls)) <= nodes
    requires UnitSees(p, builtins, storage, ScopesOf(nodes))
    ensures Untouched(FirstTypes(p.decls), TablesOf(nodes), p.decls, p.node)
    ensures p.node.scope != null && forall n :: n in DeclsNodes(p.decls) ==> n in nodes && n.scope != null
  {
    hide TreeOk, TypeTable;
    forall d | d in p.decls && d.ImplD?
      ensures d.i.node in nodes && TableOf(d.i.node) == map[]
    {
      DeclNodesAreNodes(p.decls, d);
      assert d.i.node in DeclNodes(d) && d.i.node in Among(DeclsNodes(p.decls));
    }
  }

  /** The pass over a unit whose types are resolved: it goes through exactly if no typed function follows an untyped first
      one of its name; then each scope holds its overload sets and each named type has gained its functions. */
  method Run(p: ProgramDecl, lc: LexicalContext<Decl>, tc: TypeContext, dc: DiagnosticConsumer, ghost builtins: Env,
             ghost owner: Owner, ghost nodes: set<ScopedASTNode>, ghost mine: set<ScopedASTNode>)
    returns (ok: bool)
    requires TreeOk(lc.scopeStorage, ScopesOf(nodes)) && Placed(p) && {p.node} + Among(DeclsNodes(p.decls)) <= nodes
    requires UnitSees(p, builtins, lc.scopeStorage, ScopesOf(nodes))
    requires ImplsApart(p.decls, p.node) && Shaped(p.decls) && DeepPlaced(p, mine, owner) && mine <= nodes
    requires tc.Valid() && Resolved(EnvOf(builtins, p), Roots(p), tc.storage, TypingOf(owner))
    modifies lc, nodes, ScopeSet(nodes), tc`impls, dc
    ensures TreeOk(lc.scopeStorage, ScopesOf(nodes)) && old(lc.scopeStorage) <= lc.scopeStorage
    ensures ScopesKept(old(ScopesOf(nodes)), ScopesOf(nodes), mine) && tc.Valid()
    ensures forall s :: s in ScopeSet(nodes) ==> s in old(ScopeSet(nodes)) || fresh(s)
    ensures lc.scopeStorage[0].symbolTable == old(lc.scopeStorage[0].symbolTable)
    ensures ok <==> !UnitUnjudgeable(EnvOf(builtins, p), p.decls)
    ensures ok ==> UnitDeclared(EnvOf(builtins, p), old(TablesOf(nodes)), TablesOf(nodes), p.decls, p.node)
    ensures ok && TablesOk(EnvOf(builtins, p), old(TablesOf(nodes)), mine) ==>
              TablesOk(EnvOf(builtins, p), TablesOf(nodes), mine)
    ensures ok ==> ListsGained(EnvOf(builtins, p), old(tc.impls), tc.impls, p.decls)
    ensures ok ==> dc.emitted == old(dc.emitted) + DeclsReports(EnvOf(builtins, p), old(TablesOf(nodes)), p.decls, p.node)
  {
    hide *;
    ghost var env := EnvOf(builtins, p);
    ValidIsWellFormed(tc);
    GlobalApart(lc.scopeStorage, nodes);
    UnitIsUntouched(p, builtins, lc.scopeStorage, nodes);
    UntouchedIsTyped(env, FirstTypes(p.decls), tc.storage, TypingOf(owner), TablesOf(nodes), p.decls, p.node);
    DeclaredExactly(env, TablesOf(nodes), tc.impls, p.decls, p.node);
    if TablesOk(env, TablesOf(nodes), mine) {
      DeclsKeepOk(env, TablesOf(nodes), p.decls, p.node, mine);
    }
    ok := VisitDecls(p, lc, tc, dc, env, owner, nodes, mine);
  }
}
