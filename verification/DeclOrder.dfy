/** The order of a unit's declarations: what it cannot change, and the one thing it can. */
module DeclOrder {
  import opened QualTypes
  import opened AST
  import opened TypeStorage
  import opened NormalForms
  import opened Materialisation
  import opened Programs
  import opened Diagnostics
  import opened ResolveTypeSymbols
  import opened MaterializeTypes
  import opened ForwardDeclareTypes
  import opened ResolveGlobalTypes

  /** No two different `type` or `use` declarations share a name. */
  predicate DistinctTypeNames(ds: seq<Decl>) {
    forall d, d' :: d in ds && d' in ds && d.TypeD? && d'.TypeD? && d.t.name == d'.t.name ==> d == d'
  }

  lemma {:induction false} EveryNameIsBound(ds: seq<Decl>, d: Decl)
    requires d in ds && d.TypeD?
    ensures d.t.name in FirstTypes(ds)
  {
    if d != ds[|ds| - 1] {
      EveryNameIsBound(ds[..|ds| - 1], d);
    }
  }

  /** Without duplicates the names bound, and to what, depend only on which declarations there are. */
  lemma SameTypes(ds: seq<Decl>, ds': seq<Decl>)
    requires multiset(ds) == multiset(ds') && DistinctTypeNames(ds)
    ensures FirstTypes(ds) == FirstTypes(ds')
  {
    SameMembers(ds, ds');
    SubsetOfTypes(ds, ds');
    SubsetOfTypes(ds', ds);
  }

  lemma SameMembers<T>(s: seq<T>, s': seq<T>)
    requires multiset(s) == multiset(s')
    ensures forall x :: x in s <==> x in s'
  {
    assert forall x :: x in s <==> x in multiset(s);
  }

  lemma SubsetOfTypes(ds: seq<Decl>, ds': seq<Decl>)
    requires (forall d :: d in ds <==> d in ds') && DistinctTypeNames(ds)
    ensures forall n :: n in FirstTypes(ds) ==> n in FirstTypes(ds') && FirstTypes(ds')[n] == FirstTypes(ds)[n]
  {
    forall n | n in FirstTypes(ds)
      ensures n in FirstTypes(ds') && FirstTypes(ds')[n] == FirstTypes(ds)[n]
    {
      FirstTypesAreDeclared(ds, n);
      EveryNameIsBound(ds', TypeD(FirstTypes(ds)[n]));
      FirstTypesAreDeclared(ds', n);
    }
  }

  /** With duplicates it does matter: some other order binds the shared name differently. */
  lemma DuplicatesDependOnOrder(ds: seq<Decl>) returns (ds': seq<Decl>)
    requires !DistinctTypeNames(ds)
    ensures multiset(ds') == multiset(ds) && FirstTypes(ds') != FirstTypes(ds)
  {
    var d, d' :| d in ds && d' in ds && d.TypeD? && d'.TypeD? && d.t.name == d'.t.name && d != d';
    EveryNameIsBound(ds, d);
    var loser := if FirstTypes(ds)[d.t.name] == d.t then d' else d;
    ds' := MovedToFront(ds, loser);
    HeadWins(ds');
  }

  lemma MovedToFront<T>(s: seq<T>, x: T) returns (s': seq<T>)
    requires x in s
    ensures multiset(s') == multiset(s) && s' != [] && s'[0] == x
  {
    var k :| 0 <= k < |s| && s[k] == x;
    s' := [x] + (s[..k] + s[k + 1..]);
    assert s == s[..k] + [x] + s[k + 1..];
  }

  lemma {:induction false} HeadWins(ds: seq<Decl>)
    requires ds != [] && ds[0].TypeD?
    ensures ds[0].t.name in FirstTypes(ds) && FirstTypes(ds)[ds[0].t.name] == ds[0].t
  {
    if |ds| > 1 {
      HeadWins(ds[..|ds| - 1]);
    }
  }

  /** A redefinition is reported exactly when two positions declare the same type name. */
  lemma {:induction false} ClashesExactly(ds: seq<Decl>)
    ensures TypeClashes(ds) == [] <==>
            forall i, j :: 0 <= i < j < |ds| && ds[i].TypeD? && ds[j].TypeD? ==> ds[i].t.name != ds[j].t.name
  {
    if ds != [] {
      var init, last := ds[..|ds| - 1], ds[|ds| - 1];
      ClashesExactly(init);
      if last.TypeD? {
        if last.t.name in FirstTypes(init) {
          FirstTypesAreDeclared(init, last.t.name);
          var i :| 0 <= i < |init| && init[i] == TypeD(FirstTypes(init)[last.t.name]);
          assert ds[i] == init[i] && ds[i].t.name == ds[|ds| - 1].t.name;
        } else {
          forall i | 0 <= i < |init| && ds[i].TypeD?
            ensures ds[i].t.name != last.t.name
          {
            EveryNameIsBound(init, init[i]);
          }
        }
      }
    }
  }

  // The expressions visited are the same too, and so is everything reported about them.

  lemma RootOfReordered(p: ProgramDecl, p': ProgramDecl, r: TypeRoot)
    requires multiset(p.decls) == multiset(p'.decls) && p.node == p'.node && r in Roots(p)
    ensures r in Roots(p')
  {
    SameMembers(p.decls, p'.decls);
    var d := RootIsOfDecl(p.decls, p.node, r);
    DeclRootsAreRoots(p'.decls, p'.node, d);
  }

  /** Everything the last two sub-passes report about these expressions, in whatever order. */
  ghost function Reports(env: Env, rs: seq<TypeRoot>): multiset<Diagnostic> {
    multiset(UnresolvedRoots(env, rs)) + multiset(DuplicatesRoots(env, rs))
  }

  lemma {:induction false} ReportsOfAppended(env: Env, rs: seq<TypeRoot>, rs': seq<TypeRoot>)
    ensures Reports(env, rs + rs') == Reports(env, rs) + Reports(env, rs')
    decreases |rs|
  {
    hide Reports;
    if rs == [] {
      assert rs + rs' == rs';
      NoReports(env);
    } else {
      assert (rs + rs')[1..] == rs[1..] + rs' && (rs + rs')[0] == rs[0];
      ReportsOfFirst(env, rs);
      ReportsOfFirst(env, rs + rs');
      ReportsOfAppended(env, rs[1..], rs');
    }
  }

  lemma {:induction false} ReportsOfFirst(env: Env, rs: seq<TypeRoot>)
    requires rs != []
    ensures Reports(env, rs) ==
            multiset(Unresolved(env, rs[0].ty)) + multiset(Duplicates(env, {}, rs[0].ty)) + Reports(env, rs[1..])
  {
    hide Unresolved, Duplicates;
  }

  lemma {:induction false} ReportsOfJoined(env: Env, ds: seq<Decl>, ds': seq<Decl>, node: ScopedASTNode)
    ensures Reports(env, DeclsRoots(ds + ds', node)) == Reports(env, DeclsRoots(ds, node)) + Reports(env, DeclsRoots(ds', node))
    decreases |ds|
  {
    hide DeclRoots, UnresolvedRoots, DuplicatesRoots;
    if ds == [] {
      assert ds + ds' == ds';
      NoReports(env);
    } else {
      assert (ds + ds')[1..] == ds[1..] + ds';
      ReportsOfJoined(env, ds[1..], ds', node);
      ReportsOfAppended(env, DeclRoots(ds[0], node), DeclsRoots(ds[1..], node));
      ReportsOfAppended(env, DeclRoots(ds[0], node), DeclsRoots(ds[1..] + ds', node));
    }
  }

  lemma {:induction false} NoReports(env: Env)
    ensures Reports(env, []) == multiset{}
  {
  }

  lemma {:induction false} SameReports(env: Env, ds: seq<Decl>, ds': seq<Decl>, node: ScopedASTNode)
    requires multiset(ds) == multiset(ds')
    ensures Reports(env, DeclsRoots(ds, node)) == Reports(env, DeclsRoots(ds', node))
    decreases |ds|
  {
    hide Reports, DeclsRoots;
    if ds == [] {
      assert |ds'| == |multiset(ds')| == 0;
    } else {
      var before, after := SplitAtHead(ds, ds');
      SameReports(env, ds[1..], before + after, node);
      assert [ds[0]] + ds[1..] == ds;
      ReportsOfJoined(env, [ds[0]], ds[1..], node);
      ReportsOfJoined(env, before + [ds[0]], after, node);
      ReportsOfJoined(env, before, [ds[0]], node);
      ReportsOfJoined(env, before, after, node);
    }
  }

  lemma SplitAtHead<T>(s: seq<T>, s': seq<T>) returns (before: seq<T>, after: seq<T>)
    requires s != [] && multiset(s) == multiset(s')
    ensures s' == before + [s[0]] + after && multiset(s[1..]) == multiset(before + after)
  {
    SameMembers(s, s');
    assert s[0] in s;
    var k :| 0 <= k < |s'| && s'[k] == s[0];
    before, after := s'[..k], s'[k + 1..];
    assert s' == before + [s[0]] + after;
    assert s == [s[0]] + s[1..];
    assert multiset(s) == multiset{s[0]} + multiset(s[1..]);
    assert multiset(s') == multiset(before) + multiset{s[0]} + multiset(after);
    assert multiset(s[1..]) == multiset(s) - multiset{s[0]};
    assert multiset(before + after) == multiset(s') - multiset{s[0]};
  }

  /** Two runs of the pass over the same declarations in two orders, with no duplicate type names: every
      reference is bound alike, every expression gets the same structure, and the same reports are made. */
  lemma OrderDoesNotMatter(p: ProgramDecl, p': ProgramDecl, builtins: Env,
                           b: Binding, b': Binding, st: Storage, m: Typing, st': Storage, m': Typing)
    requires multiset(p.decls) == multiset(p'.decls) && p.node == p'.node && DistinctTypeNames(p.decls)
    requires WellFormed(st) && Resolved(EnvOf(builtins, p), Roots(p), st, m)
    requires WellFormed(st') && Resolved(EnvOf(builtins, p'), Roots(p'), st', m')
    requires forall r :: r in Roots(p) ==> BoundIn(EnvOf(builtins, p), b, r.ty)
    requires forall r :: r in Roots(p') ==> BoundIn(EnvOf(builtins, p'), b', r.ty)
    ensures forall r :: r in Roots(p) <==> r in Roots(p')
    ensures forall r :: r in Roots(p) ==> BoundAlike(b, b', r.ty)
    ensures forall r :: r in Roots(p) ==>
              UnfoldQ(st, m[r.ty.slot], |st|) == UnfoldQ(st', m'[r.ty.slot], |st'|)
    ensures Reports(EnvOf(builtins, p), Roots(p)) == Reports(EnvOf(builtins, p'), Roots(p'))
  {
    hide Normal, UnfoldQ, Unfold, DeclsRoots, FirstTypes, DistinctTypeNames, WellFormed, BoundIn, BoundAlike, Means;
    var env := EnvOf(builtins, p);
    SameTypes(p.decls, p'.decls);
    assert EnvOf(builtins, p') == env;
    SameReports(env, p.decls, p'.decls, p.node);
    forall r | r in Roots(p) ensures r in Roots(p') { RootOfReordered(p, p', r); }
    forall r | r in Roots(p') ensures r in Roots(p) { RootOfReordered(p', p, r); }
    forall r | r in Roots(p)
      ensures BoundAlike(b, b', r.ty)
    {
      SameBinding(env, b, b', r.ty);
    }
    SameStructures(env, Roots(p), st, m, Roots(p'), st', m');
  }

  lemma SameStructures(env: Env, rs: seq<TypeRoot>, st: Storage, m: Typing, rs': seq<TypeRoot>, st': Storage,
                       m': Typing)
    requires forall r :: r in rs <==> r in rs'
    requires WellFormed(st) && Resolved(env, rs, st, m) && WellFormed(st') && Resolved(env, rs', st', m')
    ensures forall r :: r in rs ==>
              UnfoldQ(st, m[r.ty.slot], |st|) == UnfoldQ(st', m'[r.ty.slot], |st'|)
  {
    hide Normal, UnfoldQ, WellFormed;
    forall r | r in rs
      ensures UnfoldQ(st, m[r.ty.slot], |st|) == UnfoldQ(st', m'[r.ty.slot], |st'|)
    {
      assert r in rs';
      SameMeaning(st, m[r.ty.slot], st', m'[r.ty.slot], NormalForm(env, r.ty));
    }
  }

  lemma SameMeaning(st: Storage, q: QualType, st': Storage, q': QualType, n: Norm<SemType>)
    requires WellFormed(st) && WellFormed(st') && Means(st, q, n) && Means(st', q', n)
    ensures UnfoldQ(st, q, |st|) == UnfoldQ(st', q', |st'|)
  {
  }

  /** The same declaration, or none, for every reference in the expression. */
  ghost predicate BoundAlike(b: Binding, b': Binding, e: ASTType) {
    match e
    case ASTBuiltinType(_, _) => true
    case ASTDeclTypeRef(_, slot) => slot in b && slot in b' && b[slot] == b'[slot]
    case ASTQualType(t, _) => BoundAlike(b, b', t)
    case ASTPointerType(t, _, _) => BoundAlike(b, b', t)
    case ASTArrayType(t, _) => BoundAlike(b, b', t)
    case ASTFunctionType(ps, r, _) => (forall p :: p in ps ==> BoundAlike(b, b', p)) && BoundAlike(b, b', r)
    case ASTObjectType(fs, _) => forall f :: f in fs ==> BoundAlike(b, b', f.ty)
    case ASTEnumType(fs, _) => forall f :: f in fs ==> BoundAlike(b, b', f.ty)
  }

  lemma {:induction false} SameBinding(env: Env, b: Binding, b': Binding, e: ASTType)
    requires BoundIn(env, b, e) && BoundIn(env, b', e)
    ensures BoundAlike(b, b', e)
  {
    match e {
      case ASTQualType(t, _) => SameBinding(env, b, b', t);
      case ASTPointerType(t, _, _) => SameBinding(env, b, b', t);
      case ASTArrayType(t, _) => SameBinding(env, b, b', t);
      case ASTFunctionType(ps, r, _) =>
        forall p | p in ps ensures BoundAlike(b, b', p) { SameBinding(env, b, b', p); }
        SameBinding(env, b, b', r);
      case ASTObjectType(fs, _) =>
        forall f | f in fs ensures BoundAlike(b, b', f.ty) { SameBinding(env, b, b', f.ty); }
      case ASTEnumType(fs, _) =>
        forall f | f in fs ensures BoundAlike(b, b', f.ty) { SameBinding(env, b, b', f.ty); }
      case _ =>
    }
  }
}
