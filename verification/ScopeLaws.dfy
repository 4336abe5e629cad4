/** What a name stands for in each scope of an analysed unit, in terms of the declarations as they are written. */
module ScopeLaws {
  import opened AST
  import opened NormalForms
  import opened Programs
  import opened SymbolTables
  import opened Overloads
  import opened FunctionPass
  import opened TypeChecks
  import opened ScopeContents
  import opened PipelineSpecs

  // Functions.

  ghost predicate KnownParam(env: Env, p: FuncParamDecl) {
    NormalForm(env, p.declaredType).Known?
  }

  ghost predicate FirstKnownParam(env: Env, ps: seq<FuncParamDecl>, i: nat)
    requires i < |ps|
  {
    KnownParam(env, ps[i]) && forall j :: 0 <= j < i && ps[j].name == ps[i].name ==> !KnownParam(env, ps[j])
  }

  ghost predicate NoKnownParam(env: Env, ps: seq<FuncParamDecl>, name: string) {
    forall p :: p in ps && p.name == name ==> !KnownParam(env, p)
  }

  /** In a function's scope a name stands for the first parameter of that name whose type is known, or for nothing. */
  lemma {:induction false} FunctionScopeExactly(env: Env, ts: Tables, f: FuncDecl)
    requires FuncHolds(env, ts, f)
    ensures forall i :: 0 <= i < |f.params| && FirstKnownParam(env, f.params, i) ==>
              Entry(ts[f.node], f.params[i].name) == [ParamD(f.params[i])]
    ensures forall name :: NoKnownParam(env, f.params, name) ==> Entry(ts[f.node], name) == []
  {
    hide ParamsHold, BlockHolds, NormalForm;
    var ps, vs, t := f.params, ParamVars(f.params), ts[f.node];
    ParamVarsAreParams(ps);
    forall i | 0 <= i < |ps| && FirstKnownParam(env, ps, i)
      ensures Entry(t, ps[i].name) == [ParamD(ps[i])]
    {
      assert NameHolds(OutsideBlocks(env), t, vs, ps[i].name);
      assert FirstEnterable(OutsideBlocks(env), vs, ps[i].name, i);
    }
    forall name | NoKnownParam(env, ps, name)
      ensures Entry(t, name) == []
    {
      assert NameHolds(OutsideBlocks(env), t, vs, name);
      assert forall i :: 0 <= i < |ps| ==> ps[i] in ps;
    }
  }

  // Blocks.

  /** The statement declares a variable that is entered: without a type, with a value. */
  predicate DeclaresValue(s: Stmt) {
    s.VarStmt? && s.decl.declaredType.None? && s.decl.initializer.Some?
  }

  predicate FirstValue(ss: seq<Stmt>, k: nat)
    requires k < |ss|
  {
    && DeclaresValue(ss[k])
    && forall j :: 0 <= j < k && DeclaresValue(ss[j]) ==> ss[j].decl.name != ss[k].decl.name
  }

  predicate NoValue(ss: seq<Stmt>, name: string) {
    forall s :: s in ss && DeclaresValue(s) ==> s.decl.name != name
  }

  /** Each variable of a block is one of its statements, in order. */
  lemma {:induction false} OwnVarAt(ss: seq<Stmt>, k: nat) returns (i: nat)
    requires k < |ss| && ss[k].VarStmt?
    ensures i < |OwnVars(ss)| && OwnVars(ss)[i] == OfVarDecl(ss[k].decl)
    ensures forall j :: 0 <= j < i ==> OwnVars(ss)[j].decl.VarD? && VarStmt(OwnVars(ss)[j].decl.v) in ss[..k]
  {
    var init := ss[..|ss| - 1];
    OwnVarsAreVars(ss);
    if k == |ss| - 1 {
      i := |OwnVars(init)|;
      OwnVarsAreStmts(init);
    } else {
      i := OwnVarAt(init, k);
      assert init[..k] == ss[..k];
    }
  }

  lemma {:induction false} OwnVarsAreStmts(ss: seq<Stmt>)
    ensures forall v :: v in OwnVars(ss) ==> v.decl.VarD? && v == OfVarDecl(v.decl.v) && VarStmt(v.decl.v) in ss
  {
    if ss != [] {
      OwnVarsAreStmts(ss[..|ss| - 1]);
    }
  }

  /** In a block's scope a name stands for the first variable of that name that has no declared type but a value. */
  lemma {:induction false} BlockScopeExactly(ts: Tables, b: BlockStmt)
    requires BlockHolds(ts, b)
    ensures forall k :: 0 <= k < |b.stmts| && FirstValue(b.stmts, k) ==>
              Entry(ts[b.node], b.stmts[k].decl.name) == [VarD(b.stmts[k].decl)]
    ensures forall name :: NoValue(b.stmts, name) ==> Entry(ts[b.node], name) == []
  {
    hide StmtsHold, OwnVars;
    var ss, vs, t := b.stmts, OwnVars(b.stmts), ts[b.node];
    OwnVarsAreStmts(ss);
    forall k | 0 <= k < |ss| && FirstValue(ss, k)
      ensures Entry(t, ss[k].decl.name) == [VarD(ss[k].decl)]
    {
      var name := ss[k].decl.name;
      assert NameHolds(InBlock, t, vs, name);
      var i := OwnVarAt(ss, k);
      forall j | 0 <= j < i && vs[j].name == name
        ensures !Enterable(InBlock, vs[j])
      {
        var n :| 0 <= n < k && ss[n] == VarStmt(vs[j].decl.v);
      }
      assert FirstEnterable(InBlock, vs, name, i);
    }
    forall name | NoValue(ss, name)
      ensures Entry(t, name) == []
    {
      assert NameHolds(InBlock, t, vs, name);
      assert forall i :: 0 <= i < |vs| ==> vs[i] in vs;
    }
  }

  // `impl` blocks.

  /** In the scope of a block for a named type a name stands for its overload set; other blocks declare nothing. */
  lemma {:induction false} ImplScopeExactly(env: Env, unit: seq<Decl>, ts: Tables, earlier: seq<Var>, i: ImplDecl)
    requires DeclHolds(env, unit, ts, earlier, ImplD(i))
    ensures (exists target :: BlockFor(env, ImplD(i), target)) ==>
              forall name :: Entry(ts[i.node], name) == AsDecls(OverloadSet(env, i.impls, name))
    ensures (forall target :: !BlockFor(env, ImplD(i), target)) ==> forall name :: Entry(ts[i.node], name) == []
  {
    hide FuncsHold, NormalForm;
    forall name
      ensures Entry(ts[i.node], name) == AsDecls(OverloadSet(env, ImplFuncs(env, i), name))
    {
      assert Entry(ts[i.node], name) == Stored(env, map[], ImplFuncs(env, i), name);
    }
    var n := NormalForm(env, i.declaredType);
    if n.Known? && n.value.SNamed? {
      assert BlockFor(env, ImplD(i), n.value.decl);
    }
  }

  // The file.

  predicate DeclaresType(d: Decl, name: string) {
    d.TypeD? && d.t.name == name
  }

  predicate DeclaresFunc(d: Decl, name: string) {
    d.FuncD? && d.f.name == name
  }

  ghost predicate DeclaresVar(env: Env, d: Decl, name: string) {
    && d.VarD? && d.v.name == name
    && if d.v.declaredType.Some? then NormalForm(env, d.v.declaredType.value).Known? else d.v.initializer.Some?
  }

  ghost predicate FirstType(ds: seq<Decl>, i: nat, name: string)
    requires i < |ds|
  {
    DeclaresType(ds[i], name) && forall j :: 0 <= j < i ==> !DeclaresType(ds[j], name)
  }

  ghost predicate FirstVar(env: Env, ds: seq<Decl>, i: nat, name: string)
    requires i < |ds|
  {
    DeclaresVar(env, ds[i], name) && forall j :: 0 <= j < i ==> !DeclaresVar(env, ds[j], name)
  }

  ghost predicate SomeType(ds: seq<Decl>, name: string) {
    exists d :: d in ds && DeclaresType(d, name)
  }

  lemma {:induction false} OneMoreType(ds: seq<Decl>, d: Decl, name: string)
    ensures name in AddType(FirstTypes(ds), d) <==> name in FirstTypes(ds) || DeclaresType(d, name)
    ensures name in FirstTypes(ds) ==> AddType(FirstTypes(ds), d)[name] == FirstTypes(ds)[name]
    ensures name !in FirstTypes(ds) && DeclaresType(d, name) ==> AddType(FirstTypes(ds), d)[name] == d.t
    ensures SomeType(ds + [d], name) <==> SomeType(ds, name) || DeclaresType(d, name)
  {
    assert forall x :: x in ds + [d] <==> x in ds || x == d;
  }

  /** Of several `type` and `use` declarations of one name, the first counts. */
  lemma {:induction false} FirstTypesExactly(ds: seq<Decl>, name: string)
    ensures forall i :: 0 <= i < |ds| && FirstType(ds, i, name) ==> name in FirstTypes(ds) && FirstTypes(ds)[name] == ds[i].t
    ensures name in FirstTypes(ds) <==> SomeType(ds, name)
  {
    hide AddType, SomeType;
    if ds == [] {
      NoType(name);
    } else {
      var init, d := ds[..|ds| - 1], ds[|ds| - 1];
      FirstTypesExactly(init, name);
      OneMoreType(init, d, name);
      assert init + [d] == ds;
      forall i | 0 <= i < |ds| && FirstType(ds, i, name)
        ensures name in FirstTypes(ds) && FirstTypes(ds)[name] == ds[i].t
      {
        if i < |init| {
          assert FirstType(init, i, name);
        } else {
          NoneIsSome(init, name);
        }
      }
    }
  }

  lemma {:induction false} NoType(name: string)
    ensures name !in FirstTypes([]) && !SomeType([], name)
  {
  }

  lemma {:induction false} NoneIsSome(ds: seq<Decl>, name: string)
    requires forall j :: 0 <= j < |ds| ==> !DeclaresType(ds[j], name)
    ensures !SomeType(ds, name)
  {
  }

  lemma {:induction false} FuncsOfExactly(ds: seq<Decl>)
    ensures forall f :: f in FuncsOf(ds) <==> FuncD(f) in ds
  {
    if ds != [] {
      FuncsOfExactly(ds[..|ds| - 1]);
      assert forall x :: x in ds <==> x in ds[..|ds| - 1] || x == ds[|ds| - 1];
    }
  }

  lemma {:induction false} FileVarAt(ds: seq<Decl>, k: nat) returns (i: nat)
    requires k < |ds| && ds[k].VarD?
    ensures i < |FileVars(ds)| && FileVars(ds)[i] == OfVarDecl(ds[k].v)
    ensures forall j :: 0 <= j < i ==> FileVars(ds)[j].decl in ds[..k]
  {
    var init := ds[..|ds| - 1];
    if k == |ds| - 1 {
      i := |FileVars(init)|;
      FileVarsAreDecls(init);
    } else {
      i := FileVarAt(init, k);
      assert init[..k] == ds[..k];
    }
  }

  lemma {:induction false} FileVarsAreDecls(ds: seq<Decl>)
    ensures forall v :: v in FileVars(ds) ==> v.decl.VarD? && v == OfVarDecl(v.decl.v) && v.decl in ds
  {
    if ds != [] {
      FileVarsAreDecls(ds[..|ds| - 1]);
    }
  }

  /** No function of the name is kept exactly if there is none. */
  lemma {:induction false} SomeKept(env: Env, fs: seq<FuncDecl>, name: string)
    ensures OverloadSet(env, fs, name) == [] <==> forall f :: f in fs ==> f.name != name
    ensures forall f :: f in OverloadSet(env, fs, name) ==> f in fs && f.name == name
  {
    hide Sig;
    if fs != [] {
      SomeKept(env, fs[..|fs| - 1], name);
      assert forall x :: x in fs <==> x in fs[..|fs| - 1] || x == fs[|fs| - 1];
    }
  }

  /** In the file's scope a name stands for the first type of that name; if there is none, for functions of that name; if
      there are none of these, for the first variable of that name that can be typed; and else for nothing. */
  lemma {:induction false} FileScopeLaw(env: Env, ds: seq<Decl>, t: Table, name: string)
    requires FileScopeIs(env, ds, t)
    ensures forall i :: 0 <= i < |ds| && FirstType(ds, i, name) ==> Entry(t, name) == [ds[i]]
    ensures (forall d :: d in ds ==> !DeclaresType(d, name)) && (exists d :: d in ds && DeclaresFunc(d, name)) ==>
              Entry(t, name) != [] && forall e :: e in Entry(t, name) ==> e in ds && DeclaresFunc(e, name)
    ensures (forall d :: d in ds ==> !DeclaresType(d, name) && !DeclaresFunc(d, name)) ==>
              && (forall i :: 0 <= i < |ds| && FirstVar(env, ds, i, name) ==> Entry(t, name) == [ds[i]])
              && ((forall d :: d in ds ==> !DeclaresVar(env, d, name)) ==> Entry(t, name) == [])
  {
    hide NormalForm, OverloadSet, FuncsOf, FirstTypes, FileVars, VarNameIs, DeclaresVar, FirstVar;
    FirstTypesExactly(ds, name);
    FuncsOfExactly(ds);
    SomeKept(env, FuncsOf(ds), name);
    var stored := Stored(env, FirstTypes(ds), FuncsOf(ds), name);
    assert FileNameIs(env, ds, t, name);
    if forall d :: d in ds ==> !DeclaresType(d, name) && !DeclaresFunc(d, name) {
      assert stored == [];
      VarsOfFile(env, ds, t, name);
    }
  }

  lemma {:induction false} VarsOfFile(env: Env, ds: seq<Decl>, t: Table, name: string)
    requires VarNameIs(env, FileVars(ds), t, name)
    ensures forall i :: 0 <= i < |ds| && FirstVar(env, ds, i, name) ==> Entry(t, name) == [ds[i]]
    ensures (forall d :: d in ds ==> !DeclaresVar(env, d, name)) ==> Entry(t, name) == []
  {
    hide NormalForm, FileVars;
    var vs := FileVars(ds);
    FileVarsAreDecls(ds);
    assert forall i :: 0 <= i < |vs| ==> vs[i] in vs;
    forall k | 0 <= k < |ds| && FirstVar(env, ds, k, name)
      ensures Entry(t, name) == [ds[k]]
    {
      var i := FileVarAt(ds, k);
      forall j | 0 <= j < i && vs[j].name == name
        ensures !Typable(env, vs[j])
      {
        var n :| 0 <= n < k && ds[n] == vs[j].decl;
      }
      assert FirstTypable(env, vs, name, i);
    }
  }
}
