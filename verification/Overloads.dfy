/** Overload sets: what the declarations of one name in one scope become, and exactly when they clash. */
module Overloads {
  import opened QualTypes
  import opened AST
  import opened TypeStorage
  import opened NormalForms
  import opened Programs
  import opened ResolveGlobalTypes
  import opened SymbolTables

  /** The alias-normalised parameter list of a function, if its type is known. */
  ghost function Sig(env: Env, f: FuncDecl): Option<seq<SemQual>> {
    match NormalForm(env, f.declaredType)
    case Known(SFunc(ps, _)) => Some(ps)
    case _ => None
  }

  /** What happens to a function declaration. `Fatal`: the assertion that a stored function has a function type fails. */
  datatype Verdict = Accepted | NameTaken | Unchecked | Clash | Fatal

  /** The comparison with each stored declaration of the name in turn. */
  ghost function Judge(env: Env, existing: seq<Decl>, f: FuncDecl): Verdict {
    if existing == [] then Accepted
    else if !existing[0].FuncD? then NameTaken
    else if Sig(env, f).None? then Unchecked
    else if Sig(env, existing[0].f).None? then Fatal
    else if Sig(env, existing[0].f) == Sig(env, f) then Clash
    else Judge(env, existing[1..], f)
  }

  ghost function AddFunc(env: Env, t: Table, f: FuncDecl): Table {
    if Judge(env, Entry(t, f.name), f).Accepted? then t[f.name := Entry(t, f.name) + [FuncD(f)]] else t
  }

  ghost function AddFuncs(env: Env, t: Table, fs: seq<FuncDecl>): Table {
    if fs == [] then t else AddFunc(env, AddFuncs(env, t, fs[..|fs| - 1]), fs[|fs| - 1])
  }

  /** Declaring these functions one after the other hits the failing assertion. */
  ghost predicate AddFails(env: Env, t: Table, fs: seq<FuncDecl>) {
    fs != [] &&
    var before, f := fs[..|fs| - 1], fs[|fs| - 1];
    AddFails(env, t, before) || Judge(env, Entry(AddFuncs(env, t, before), f.name), f).Fatal?
  }

  /** The functions that make it into the table, in order. */
  ghost function Added(env: Env, t: Table, fs: seq<FuncDecl>): seq<FuncDecl> {
    if fs == [] then [] else
      var before, f := fs[..|fs| - 1], fs[|fs| - 1];
      Added(env, t, before) + if Judge(env, Entry(AddFuncs(env, t, before), f.name), f).Accepted? then [f] else []
  }

  // The same outcome, read off the source order alone.

  /** The first function of its name has no known type, and this later one has. */
  ghost predicate Unjudgeable(env: Env, earlier: seq<FuncDecl>, f: FuncDecl) {
    && Sig(env, f).Some?
    && exists i :: 0 <= i < |earlier| && IsFirst(earlier, i, f.name) && Sig(env, earlier[i]).None?
  }

  ghost predicate IsFirst(fs: seq<FuncDecl>, i: nat, name: string)
    requires i < |fs|
  {
    fs[i].name == name && forall j :: 0 <= j < i ==> fs[j].name != name
  }

  ghost predicate UnjudgeableAt(env: Env, types: Env, fs: seq<FuncDecl>, i: nat)
    requires i < |fs|
  {
    fs[i].name !in types && Unjudgeable(env, fs[..i], fs[i])
  }

  ghost predicate Unjudgeables(env: Env, types: Env, fs: seq<FuncDecl>) {
    exists i :: 0 <= i < |fs| && UnjudgeableAt(env, types, fs, i)
  }

  /** The first function of its name, or one whose known parameter list no earlier function of the name has. */
  ghost predicate Fits(env: Env, earlier: seq<FuncDecl>, f: FuncDecl) {
    (forall g :: g in earlier ==> g.name != f.name) ||
    (Sig(env, f).Some? && forall g :: g in earlier && g.name == f.name ==> Sig(env, g) != Sig(env, f))
  }

  /** The functions of a name that are kept. */
  ghost function OverloadSet(env: Env, fs: seq<FuncDecl>, name: string): seq<FuncDecl> {
    if fs == [] then [] else
      var before, f := fs[..|fs| - 1], fs[|fs| - 1];
      OverloadSet(env, before, name) + if f.name == name && Fits(env, before, f) then [f] else []
  }

  /** All functions that are kept, in source order, where `types` own their names. */
  ghost function KeptFuncs(env: Env, types: Env, fs: seq<FuncDecl>): seq<FuncDecl> {
    if fs == [] then [] else
      var before, f := fs[..|fs| - 1], fs[|fs| - 1];
      KeptFuncs(env, types, before) + if f.name !in types && Fits(env, before, f) then [f] else []
  }

  ghost function AsDecls(fs: seq<FuncDecl>): seq<Decl> {
    seq(|fs|, i requires 0 <= i < |fs| => FuncD(fs[i]))
  }

  /** What a scope stores for a name after its types and these functions are declared. */
  ghost function Stored(env: Env, types: Env, fs: seq<FuncDecl>, name: string): seq<Decl> {
    if name in types then [TypeD(types[name])] else AsDecls(OverloadSet(env, fs, name))
  }

  /** Functions with known and pairwise different parameter lists, or one function alone. */
  ghost predicate Distinguishable(env: Env, fs: seq<FuncDecl>) {
    |fs| <= 1 ||
    ((forall i :: 0 <= i < |fs| ==> Sig(env, fs[i]).Some?) &&
     (forall i, j :: 0 <= i < j < |fs| ==> Sig(env, fs[i]) != Sig(env, fs[j])))
  }

  ghost predicate Covered(env: Env, fs: seq<FuncDecl>, sig: Option<seq<SemQual>>) {
    exists i :: 0 <= i < |fs| && Sig(env, fs[i]) == sig
  }

  /** An overload set starts with the first function of its name, and misses no known parameter list if that one is known. */
  ghost predicate Represents(env: Env, kept: seq<FuncDecl>, fs: seq<FuncDecl>, name: string) {
    if kept == [] then forall g :: g in fs ==> g.name != name
    else
      && (exists i :: 0 <= i < |fs| && IsFirst(fs, i, name) && fs[i] == kept[0])
      && (forall g :: g in kept ==> g in fs && g.name == name)
      && (Sig(env, kept[0]).Some? ==>
            forall g :: g in fs && g.name == name && Sig(env, g).Some? ==> Covered(env, kept, Sig(env, g)))
  }

  lemma {:induction false} OverloadSetIsExact(env: Env, types: Env, fs: seq<FuncDecl>, name: string)
    requires name !in types && !Unjudgeables(env, types, fs)
    ensures Represents(env, OverloadSet(env, fs, name), fs, name)
    ensures Distinguishable(env, OverloadSet(env, fs, name))
  {
    hide Sig, Fits, Represents, Distinguishable, Unjudgeables, Unjudgeable, AsDecls;
    if fs == [] {
      NothingIsExact(env, name);
    } else {
      var before, f := fs[..|fs| - 1], fs[|fs| - 1];
      FewerAreJudgeable(env, types, fs);
      OverloadSetIsExact(env, types, before, name);
      assert before + [f] == fs;
      OverloadSetOneMore(env, before, f, name);
      assert OverloadSet(env, before, name) + [] == OverloadSet(env, before, name);
      if f.name != name {
        OtherName(env, OverloadSet(env, before, name), before, f, name);
      } else if Fits(env, before, f) {
        OneMoreKept(env, OverloadSet(env, before, name), before, f);
      } else {
        OneMoreDropped(env, OverloadSet(env, before, name), before, f);
      }
    }
  }

  lemma NothingIsExact(env: Env, name: string)
    ensures Represents(env, [], [], name) && Distinguishable(env, [])
  {
  }

  lemma FewerAreJudgeable(env: Env, types: Env, fs: seq<FuncDecl>)
    requires fs != [] && !Unjudgeables(env, types, fs)
    ensures !Unjudgeables(env, types, fs[..|fs| - 1])
    ensures fs[|fs| - 1].name !in types ==> !Unjudgeable(env, fs[..|fs| - 1], fs[|fs| - 1])
  {
    hide Unjudgeable;
    var before := fs[..|fs| - 1];
    forall i | 0 <= i < |before|
      ensures UnjudgeableAt(env, types, before, i) == UnjudgeableAt(env, types, fs, i)
    {
      assert before[..i] == fs[..i];
    }
    assert !UnjudgeableAt(env, types, fs, |fs| - 1);
  }

  lemma FirstStays(fs: seq<FuncDecl>, f: FuncDecl, i: nat, name: string)
    requires i < |fs| && IsFirst(fs, i, name)
    ensures IsFirst(fs + [f], i, name) && (fs + [f])[i] == fs[i]
  {
  }

  lemma OtherName(env: Env, kept: seq<FuncDecl>, fs: seq<FuncDecl>, f: FuncDecl, name: string)
    requires Represents(env, kept, fs, name) && f.name != name
    ensures Represents(env, kept, fs + [f], name)
  {
    hide Sig, IsFirst, Covered;
    if kept != [] {
      var i :| 0 <= i < |fs| && IsFirst(fs, i, name) && fs[i] == kept[0];
      FirstStays(fs, f, i, name);
    }
  }

  lemma OneMoreKept(env: Env, kept: seq<FuncDecl>, fs: seq<FuncDecl>, f: FuncDecl)
    requires Represents(env, kept, fs, f.name) && Distinguishable(env, kept)
    requires Fits(env, fs, f) && !Unjudgeable(env, fs, f)
    ensures Represents(env, kept + [f], fs + [f], f.name) && Distinguishable(env, kept + [f])
  {
    hide Sig, IsFirst, Covered;
    if kept == [] {
      NoneBefore(fs, f);
      MoreCovers(env, kept, f, f);
      assert [f][0] == f && kept + [f] == [f];
    } else {
      var i :| 0 <= i < |fs| && IsFirst(fs, i, f.name) && fs[i] == kept[0];
      FirstStays(fs, f, i, f.name);
      assert kept[0] in kept;
      forall g | g in fs + [f] && g.name == f.name && Sig(env, g).Some?
        ensures Covered(env, kept + [f], Sig(env, g))
      {
        MoreCovers(env, kept, f, g);
      }
    }
  }

  lemma OneMoreDropped(env: Env, kept: seq<FuncDecl>, fs: seq<FuncDecl>, f: FuncDecl)
    requires Represents(env, kept, fs, f.name) && !Fits(env, fs, f)
    ensures Represents(env, kept, fs + [f], f.name)
  {
    hide Sig, IsFirst, Covered;
    if kept != [] {
      var i :| 0 <= i < |fs| && IsFirst(fs, i, f.name) && fs[i] == kept[0];
      FirstStays(fs, f, i, f.name);
    }
  }

  lemma NoneBefore(fs: seq<FuncDecl>, f: FuncDecl)
    requires forall g :: g in fs ==> g.name != f.name
    ensures IsFirst(fs + [f], |fs|, f.name)
  {
  }

  lemma MoreCovers(env: Env, kept: seq<FuncDecl>, f: FuncDecl, g: FuncDecl)
    requires g == f || Covered(env, kept, Sig(env, g))
    ensures Covered(env, kept + [f], Sig(env, g))
  {
    hide Sig;
    if g == f {
      assert (kept + [f])[|kept|] == g;
    } else {
      var i :| 0 <= i < |kept| && Sig(env, kept[i]) == Sig(env, g);
      assert (kept + [f])[i] == kept[i];
    }
  }

  lemma {:induction false} JudgeAmongFunctions(env: Env, gs: seq<FuncDecl>, f: FuncDecl)
    requires gs != [] && Sig(env, f).Some? && forall g :: g in gs ==> Sig(env, g).Some?
    ensures Judge(env, AsDecls(gs), f) == if Covered(env, gs, Sig(env, f)) then Clash else Accepted
  {
    hide Sig;
    assert AsDecls(gs)[1..] == AsDecls(gs[1..]);
    if Sig(env, gs[0]) != Sig(env, f) {
      assert forall i :: 1 <= i < |gs| ==> gs[i] == gs[1..][i - 1];
      if |gs| > 1 {
        JudgeAmongFunctions(env, gs[1..], f);
      }
    }
  }

  /** One declaration, judged against what is stored, comes out as the source order alone says. */
  lemma JudgedExactly(env: Env, types: Env, fs: seq<FuncDecl>, f: FuncDecl)
    requires !Unjudgeables(env, types, fs)
    ensures Judge(env, Stored(env, types, fs, f.name), f) ==
            if f.name in types then NameTaken
            else if Unjudgeable(env, fs, f) then Fatal
            else if Fits(env, fs, f) then Accepted
            else if Sig(env, f).None? then Unchecked
            else Clash
  {
    hide Sig, Unjudgeables, OverloadSet;
    if f.name !in types {
      OverloadSetIsExact(env, types, fs, f.name);
      JudgedAgainst(env, OverloadSet(env, fs, f.name), fs, f);
    }
  }

  lemma JudgedAgainst(env: Env, kept: seq<FuncDecl>, fs: seq<FuncDecl>, f: FuncDecl)
    requires Represents(env, kept, fs, f.name) && Distinguishable(env, kept)
    ensures Judge(env, AsDecls(kept), f) ==
            if Unjudgeable(env, fs, f) then Fatal
            else if Fits(env, fs, f) then Accepted
            else if Sig(env, f).None? then Unchecked
            else Clash
  {
    hide Sig, Covered;
    if kept != [] {
      assert kept[0] in kept;
      assert Unjudgeable(env, fs, f) <==> Sig(env, f).Some? && Sig(env, kept[0]).None?;
      if Sig(env, f).Some? && Sig(env, kept[0]).Some? {
        JudgeAmongFunctions(env, kept, f);
        KeptClash(env, kept, fs, f);
      }
    }
  }

  lemma KeptClash(env: Env, kept: seq<FuncDecl>, fs: seq<FuncDecl>, f: FuncDecl)
    requires kept != [] && Represents(env, kept, fs, f.name) && Sig(env, f).Some? && Sig(env, kept[0]).Some?
    ensures Fits(env, fs, f) <==> !Covered(env, kept, Sig(env, f))
  {
    hide Sig;
    assert kept[0] in kept;
    assert forall i :: 0 <= i < |kept| ==> kept[i] in kept;
  }

  ghost predicate TableIs(env: Env, types: Env, fs: seq<FuncDecl>, t: Table) {
    forall name :: Entry(t, name) == Stored(env, types, fs, name)
  }

  /** A scope that held exactly its types, after its functions are declared in order: every name a type owns
      keeps that type, every other name has its overload set; the accepted functions are the kept ones; and
      the assertion about function types fails exactly if a typed function follows an untyped first one. */
  lemma {:induction false} FunctionTableIsExact(env: Env, types: Env, fs: seq<FuncDecl>)
    ensures AddFails(env, TypeTable(types), fs) <==> Unjudgeables(env, types, fs)
    ensures !AddFails(env, TypeTable(types), fs) ==>
              && TableIs(env, types, fs, AddFuncs(env, TypeTable(types), fs))
              && Added(env, TypeTable(types), fs) == KeptFuncs(env, types, fs)
  {
    hide Sig, Judge, Unjudgeable, Fits, TypeTable, TableIs, AddFails, Unjudgeables, AddFunc;
    var t := TypeTable(types);
    if fs == [] {
      NoFunctionsYet(env, types);
    } else {
      var before, f := fs[..|fs| - 1], fs[|fs| - 1];
      FunctionTableIsExact(env, types, before);
      assert before + [f] == fs;
      FailsOneMore(env, types, t, before, f);
      if !Unjudgeables(env, types, before) {
        OneMoreInTable(env, types, before, f, AddFuncs(env, t, before));
      }
    }
  }

  lemma FailsOneMore(env: Env, types: Env, t: Table, fs: seq<FuncDecl>, f: FuncDecl)
    ensures AddFails(env, t, fs + [f]) <==> AddFails(env, t, fs) || Judge(env, Entry(AddFuncs(env, t, fs), f.name), f).Fatal?
    ensures Unjudgeables(env, types, fs + [f]) <==>
            Unjudgeables(env, types, fs) || (f.name !in types && Unjudgeable(env, fs, f))
  {
    hide Judge, Unjudgeable, AddFuncs;
    var fs' := fs + [f];
    assert fs'[..|fs|] == fs && fs'[|fs|] == f;
    forall i | 0 <= i < |fs|
      ensures UnjudgeableAt(env, types, fs', i) == UnjudgeableAt(env, types, fs, i)
    {
      assert fs'[..i] == fs[..i];
    }
    assert UnjudgeableAt(env, types, fs', |fs|) <==> f.name !in types && Unjudgeable(env, fs, f);
  }

  lemma NoFunctionsYet(env: Env, types: Env)
    ensures TableIs(env, types, [], TypeTable(types))
    ensures !AddFails(env, TypeTable(types), []) && !Unjudgeables(env, types, [])
  {
  }

  lemma OneMoreInTable(env: Env, types: Env, fs: seq<FuncDecl>, f: FuncDecl, t: Table)
    requires TableIs(env, types, fs, t) && !Unjudgeables(env, types, fs)
    ensures Judge(env, Entry(t, f.name), f).Fatal? <==> f.name !in types && Unjudgeable(env, fs, f)
    ensures Judge(env, Entry(t, f.name), f).Accepted? <==>
            f.name !in types && !Unjudgeable(env, fs, f) && Fits(env, fs, f)
    ensures !Judge(env, Entry(t, f.name), f).Fatal? ==> TableIs(env, types, fs + [f], AddFunc(env, t, f))
  {
    hide Sig, Judge, Unjudgeable, Unjudgeables, Fits, OverloadSet;
    assert Entry(t, f.name) == Stored(env, types, fs, f.name);
    JudgedExactly(env, types, fs, f);
    forall name: string
      ensures !Judge(env, Entry(t, f.name), f).Fatal? ==> Entry(AddFunc(env, t, f), name) == Stored(env, types, fs + [f], name)
    {
      assert Entry(t, name) == Stored(env, types, fs, name);
      OverloadSetOneMore(env, fs, f, name);
    }
  }

  lemma OverloadSetOneMore(env: Env, fs: seq<FuncDecl>, f: FuncDecl, name: string)
    ensures OverloadSet(env, fs + [f], name) ==
            OverloadSet(env, fs, name) + if f.name == name && Fits(env, fs, f) then [f] else []
    ensures AsDecls(OverloadSet(env, fs, name) + [f]) == AsDecls(OverloadSet(env, fs, name)) + [FuncD(f)]
  {
    hide Fits;
    assert (fs + [f])[..|fs|] == fs;
  }

  /** Two functions clash exactly when their parameter types are alias-equivalent one by one. */
  lemma SameSigExactly(env: Env, f: FuncDecl, g: FuncDecl)
    requires TypedAsDeclared(f) && TypedAsDeclared(g)
    requires NormalForm(env, f.declaredType).Known? && NormalForm(env, g.declaredType).Known?
    ensures Sig(env, f).Some? && Sig(env, g).Some?
    ensures Sig(env, f) == Sig(env, g) <==>
            |f.params| == |g.params| &&
            forall i :: 0 <= i < |f.params| ==>
              NormalForm(env, f.params[i].declaredType) == NormalForm(env, g.params[i].declaredType)
  {
    var ps, qs := f.declaredType.params, g.declaredType.params;
    NormalOfAll(env, ps);
    NormalOfAll(env, qs);
    var ss, ts := NormalAll(env, {}, ps).value, NormalAll(env, {}, qs).value;
    assert Sig(env, f) == Some(ss) && Sig(env, g) == Some(ts);
    if ss == ts {
      forall i | 0 <= i < |ps|
        ensures NormalForm(env, ps[i]) == NormalForm(env, qs[i])
      {
        assert ss[i] == ts[i];
      }
    }
  }

  /** The parser gives a function a function type over the very nodes of its parameters' types. */
  ghost predicate TypedAsDeclared(f: FuncDecl) {
    && f.declaredType.ASTFunctionType? && |f.declaredType.params| == |f.params|
    && forall i :: 0 <= i < |f.params| ==> f.declaredType.params[i] == f.params[i].declaredType
  }

  // Tables stay in order at every step.

  /** One declaration, or functions with known and pairwise different parameter lists. */
  ghost predicate EntryOk(env: Env, ds: seq<Decl>) {
    || |ds| == 1
    || (|ds| > 1 &&
        (forall i :: 0 <= i < |ds| ==> ds[i].FuncD? && Sig(env, ds[i].f).Some?) &&
        (forall i, j :: 0 <= i < j < |ds| ==> Sig(env, ds[i].f) != Sig(env, ds[j].f)))
  }

  ghost predicate TableOk(env: Env, t: Table) {
    forall name :: name in t ==> EntryOk(env, t[name])
  }

  ghost predicate TablesOk(env: Env, ts: Tables, ns: set<ScopedASTNode>) {
    forall n :: n in ns && n in ts ==> TableOk(env, ts[n])
  }

  lemma {:induction false} AcceptedIsDistinct(env: Env, existing: seq<Decl>, f: FuncDecl)
    requires Judge(env, existing, f).Accepted?
    ensures forall i :: 0 <= i < |existing| ==>
              existing[i].FuncD? && Sig(env, existing[i].f).Some? && Sig(env, f).Some? && Sig(env, existing[i].f) != Sig(env, f)
  {
    hide Sig;
    if existing != [] {
      AcceptedIsDistinct(env, existing[1..], f);
      assert forall i :: 1 <= i < |existing| ==> existing[i] == existing[1..][i - 1];
    }
  }

  /** Whatever function is declared next, the table stays in order. */
  lemma {:induction false} AddFuncKeepsOk(env: Env, t: Table, f: FuncDecl)
    requires TableOk(env, t)
    ensures TableOk(env, AddFunc(env, t, f))
  {
    hide Sig, Judge;
    if Judge(env, Entry(t, f.name), f).Accepted? {
      var existing := Entry(t, f.name);
      AcceptedIsDistinct(env, existing, f);
      assert existing == [] || EntryOk(env, existing);
      OneMoreIsOk(env, existing, f);
    }
  }

  lemma {:induction false} OneMoreIsOk(env: Env, existing: seq<Decl>, f: FuncDecl)
    requires existing == [] || EntryOk(env, existing)
    requires forall i :: 0 <= i < |existing| ==>
               existing[i].FuncD? && Sig(env, existing[i].f).Some? && Sig(env, f).Some? && Sig(env, existing[i].f) != Sig(env, f)
    ensures EntryOk(env, existing + [FuncD(f)])
  {
    hide Sig;
    var ds := existing + [FuncD(f)];
    assert ds[|existing|] == FuncD(f) && forall i :: 0 <= i < |existing| ==> ds[i] == existing[i];
    if |existing| > 0 {
      assert existing[0].FuncD? && Sig(env, f).Some?;
    }
  }

  lemma {:induction false} AddFuncsKeepsOk(env: Env, t: Table, fs: seq<FuncDecl>)
    requires TableOk(env, t)
    ensures TableOk(env, AddFuncs(env, t, fs))
  {
    hide TableOk, AddFunc;
    if fs != [] {
      AddFuncsKeepsOk(env, t, fs[..|fs| - 1]);
      AddFuncKeepsOk(env, AddFuncs(env, t, fs[..|fs| - 1]), fs[|fs| - 1]);
    }
  }

  lemma {:induction false} TypesAreOk(env: Env, types: Env)
    ensures TableOk(env, TypeTable(types)) && TableOk(env, map[])
  {
  }
}
