/** What the passes together leave behind for one unit, as values. */
module PipelineSpecs {
  import opened AST
  import opened TypeStorage
  import opened NormalForms
  import opened Programs
  import opened SymbolTables
  import opened MaterializeTypes
  import opened ResolveGlobalTypes
  import opened Overloads
  import opened FunctionPass
  import opened TypeChecks
  import opened ScopeContents

  /** All scoped nodes of a unit. */
  ghost function UnitNodes(p: ProgramDecl): set<ScopedASTNode> {
    {p.node} + DeclsUnder(p.decls)
  }

  // The nodes the first pass enters are among them.

  lemma {:induction false} DefaultsAreUnder(ps: seq<FuncParamDecl>)
    ensures forall n :: n in DefaultNodes(ps) ==> n in ParamsUnder(ps)
  {
    if ps != [] {
      DefaultsAreUnder(ps[1..]);
      forall n | n in DefaultNodes(ps)
        ensures n in ParamsUnder(ps)
      {
        if n in BlockNodes(ps[0].defaultValue) {
          BlocksAreUnder(ps[0].defaultValue.value.blocks, n);
          FirstParamIsUnder(ps);
        } else {
          LaterParamsAreUnder(ps);
        }
      }
    }
  }

  lemma {:induction false} BlocksAreUnder(bs: seq<BlockStmt>, n: ScopedASTNode)
    requires exists b :: b in bs && b.node == n
    ensures n in BlocksUnder(bs)
  {
    if bs[|bs| - 1].node != n {
      var b :| b in bs && b.node == n;
      assert b in bs[..|bs| - 1];
      BlocksAreUnder(bs[..|bs| - 1], n);
    }
  }

  lemma {:induction false} FirstParamIsUnder(ps: seq<FuncParamDecl>)
    requires ps != []
    ensures ValueUnder(ps[0].defaultValue) <= ParamsUnder(ps)
  {
    if |ps| > 1 {
      FirstParamIsUnder(ps[..|ps| - 1]);
    }
  }

  lemma {:induction false} LaterParamsAreUnder(ps: seq<FuncParamDecl>)
    requires ps != []
    ensures ParamsUnder(ps[1..]) <= ParamsUnder(ps)
  {
    if |ps| > 1 {
      assert ps[1..][..|ps| - 2] == ps[..|ps| - 1][1..];
      LaterParamsAreUnder(ps[..|ps| - 1]);
    }
  }

  lemma {:induction false} FuncNodesAreUnder(f: FuncDecl)
    ensures forall n :: n in FuncNodes(f) ==> n in FuncUnder(f)
  {
    DefaultsAreUnder(f.params);
  }

  lemma {:induction false} FuncsNodesAreUnder(fs: seq<FuncDecl>)
    ensures forall n :: n in FuncsNodes(fs) ==> n in FuncsUnder(fs)
  {
    if fs != [] {
      FuncNodesAreUnder(fs[0]);
      FuncsNodesAreUnder(fs[1..]);
      FirstFuncIsUnder(fs);
    }
  }

  lemma {:induction false} FirstFuncIsUnder(fs: seq<FuncDecl>)
    requires fs != []
    ensures FuncUnder(fs[0]) <= FuncsUnder(fs) && FuncsUnder(fs[1..]) <= FuncsUnder(fs)
  {
    hide FuncUnder;
    if |fs| > 1 {
      assert fs[1..][..|fs| - 2] == fs[..|fs| - 1][1..];
      FirstFuncIsUnder(fs[..|fs| - 1]);
    }
  }

  lemma {:induction false} DeclNodesAreUnder(d: Decl)
    ensures forall n :: n in DeclNodes(d) ==> n in DeclUnder(d)
  {
    hide FuncNodes, FuncsNodes, FuncUnder, FuncsUnder;
    match d {
      case VarD(v) =>
        forall n | n in DeclNodes(d)
          ensures n in DeclUnder(d)
        {
          BlocksAreUnder(v.initializer.value.blocks, n);
        }
      case FuncD(f) => FuncNodesAreUnder(f);
      case ImplD(i) => FuncsNodesAreUnder(i.impls);
      case _ =>
    }
  }

  lemma {:induction false} NodesAreUnder(ds: seq<Decl>)
    ensures Among(DeclsNodes(ds)) <= DeclsUnder(ds)
  {
    hide DeclNodes, DeclUnder;
    if ds != [] {
      NodesAreUnder(ds[..|ds| - 1]);
      DeclNodesAreUnder(ds[|ds| - 1]);
    }
  }

  // What the file's scope holds in the end.

  ghost predicate FirstTypable(env: Env, vs: seq<Var>, name: string, i: nat)
    requires i < |vs|
  {
    && vs[i].name == name && Typable(env, vs[i])
    && forall j :: 0 <= j < i && vs[j].name == name ==> !Typable(env, vs[j])
  }

  /** A name stands for the type that owns it; failing that for its overload set; failing that for the first variable of
      the name that can be typed; and else for nothing. */
  ghost predicate FileScopeIs(env: Env, ds: seq<Decl>, t: Table) {
    forall name :: FileNameIs(env, ds, t, name)
  }

  ghost predicate FileNameIs(env: Env, ds: seq<Decl>, t: Table, name: string) {
    var stored := Stored(env, FirstTypes(ds), FuncsOf(ds), name);
    if stored != [] then Entry(t, name) == stored else VarNameIs(env, FileVars(ds), t, name)
  }

  ghost predicate VarNameIs(env: Env, vs: seq<Var>, t: Table, name: string) {
    if forall i :: 0 <= i < |vs| && vs[i].name == name ==> !Typable(env, vs[i]) then Entry(t, name) == []
    else exists i :: 0 <= i < |vs| && FirstTypable(env, vs, name, i) && Entry(t, name) == [vs[i].decl]
  }

  lemma {:induction false} FileScopeExactly(env: Env, ds: seq<Decl>, m: Typing, t: Table, t': Table)
    requires TableIs(env, FirstTypes(ds), FuncsOf(ds), t) && VarsEntered(m, t, t', FileVars(ds))
    requires VarsResolved(env, m, FileVars(ds))
    ensures FileScopeIs(env, ds, t')
  {
    hide Stored, FileVars, Usable, Typable, FuncsOf, FirstTypes;
    var vs := FileVars(ds);
    forall name
      ensures FileNameIs(env, ds, t', name)
    {
      assert Entry(t, name) == Stored(env, FirstTypes(ds), FuncsOf(ds), name) && NameEntered(m, t, t', vs, name);
      if i :| 0 <= i < |vs| && FirstUsable(m, vs, name, i) && Entry(t', name) == [vs[i].decl] {
        assert FirstTypable(env, vs, name, i);
      }
    }
  }

  lemma {:induction false} FileVarsAreDeclared(ds: seq<Decl>, i: nat)
    requires i < |FileVars(ds)|
    ensures exists v :: VarD(v) in ds && FileVars(ds)[i] == OfVarDecl(v)
  {
    if i < |FileVars(ds[..|ds| - 1])| {
      FileVarsAreDeclared(ds[..|ds| - 1], i);
    }
  }

  lemma {:induction false} FileVarsAreResolved(env: Env, p: ProgramDecl, st: Storage, m: Typing)
    requires WellFormed(st) && Resolved(env, Roots(p), st, m)
    ensures VarsResolved(env, m, FileVars(p.decls))
  {
    hide WellFormed, UnfoldQ, Normal, FileVars;
    var vs := FileVars(p.decls);
    forall i | 0 <= i < |vs|
      ensures Usable(m, vs[i]) <==> Typable(env, vs[i])
    {
      FileVarsAreDeclared(p.decls, i);
      var v :| VarD(v) in p.decls && vs[i] == OfVarDecl(v);
      DeclRootsAreRoots(p.decls, p.node, VarD(v));
      if v.declaredType.Some? {
        assert TypeRoot(v.declaredType.value, p.node) in DeclRoots(VarD(v), p.node);
      }
    }
  }

  lemma {:induction false} SignaturesAreResolved(env: Env, p: ProgramDecl, st: Storage, m: Typing)
    requires WellFormed(st) && Resolved(env, Roots(p), st, m)
    ensures forall d :: d in p.decls ==> SignaturesResolved(env, m, d)
  {
    hide WellFormed, Normal, VarsResolved;
    forall d | d in p.decls
      ensures SignaturesResolved(env, m, d)
    {
      DeclRootsAreRoots(p.decls, p.node, d);
      match d {
        case FuncD(f) => ParamsAreResolved(env, DeclRoots(d, p.node), st, m, f);
        case ImplD(i) =>
          forall f | f in i.impls
            ensures VarsResolved(env, m, ParamVars(f.params))
          {
            FuncRootsAreRoots(i.impls, f);
            ParamsAreResolved(env, DeclRoots(d, p.node), st, m, f);
          }
        case _ =>
      }
    }
  }

  lemma {:induction false} ParamsAreResolved(env: Env, rs: seq<TypeRoot>, st: Storage, m: Typing, f: FuncDecl)
    requires WellFormed(st) && Resolved(env, rs, st, m) && forall r :: r in FuncRoots(f) ==> r in rs
    ensures VarsResolved(env, m, ParamVars(f.params))
  {
    hide WellFormed, UnfoldQ, Normal;
    ParamVarsAreParams(f.params);
    forall i | 0 <= i < |f.params|
      ensures Usable(m, OfParam(f.params[i])) <==> Typable(env, OfParam(f.params[i]))
    {
      var r := TypeRoot(f.params[i].declaredType, f.node);
      assert ParamRoots(f.params, f.node)[i] == r && r in FuncRoots(f);
    }
  }

  lemma {:induction false} ParamVarsAreParams(ps: seq<FuncParamDecl>)
    ensures |ParamVars(ps)| == |ps| && forall i :: 0 <= i < |ps| ==> ParamVars(ps)[i] == OfParam(ps[i])
  {
    if ps != [] {
      ParamVarsAreParams(ps[..|ps| - 1]);
    }
  }

  /** What holds of a finished unit: its file scope is exact, so is every scope inside it, and each is in order. */
  ghost predicate UnitDone(env: Env, p: ProgramDecl, ts: Tables) {
    && p.node in ts && FileScopeIs(env, p.decls, ts[p.node])
    && DeclsHold(env, p.decls, ts, p.decls)
    && TablesOk(env, ts, UnitNodes(p))
  }
}
