/** The third sub-pass: every type expression is turned into an interned type and remembers it. */
module MaterializeTypes {
  import opened QualTypes
  import opened AST
  import opened TypeStorage
  import opened TypeContexts
  import opened NormalForms
  import opened Materialisation
  import opened Programs
  import opened ResolveTypeSymbols
  import opened Diagnostics

  /** The type each node remembers, as a value. */
  type Typing = map<TypeSlot, QualType>

  ghost function TypingOf(owner: Owner): Typing
    reads owner.Keys`ty
  {
    map s | s in owner :: s.ty
  }

  /** A node that remembers a type remembers its own normal form. */
  ghost predicate Sound(env: Env, owner: Owner, st: Storage, m: Typing)
    requires WellFormed(st)
  {
    && m.Keys == owner.Keys
    && forall s :: s in owner && m[s] != UNKNOWN ==> Means(st, m[s], NormalForm(env, owner[s]))
  }

  /** A type once remembered stays. */
  ghost predicate TypesKept(m: Typing, m': Typing) {
    m.Keys == m'.Keys && forall s :: s in m && m[s] != UNKNOWN ==> m'[s] == m[s]
  }

  /** Function lists are only ever created empty here. */
  ghost predicate ImplsKept(impls: map<TypeDecl, seq<FuncDecl>>, impls': map<TypeDecl, seq<FuncDecl>>) {
    && impls.Keys <= impls'.Keys
    && forall d :: d in impls' ==> impls'[d] == if d in impls then impls[d] else []
  }

  lemma KeptTwice(m: Typing, m': Typing, m'': Typing, impls: map<TypeDecl, seq<FuncDecl>>,
                  impls': map<TypeDecl, seq<FuncDecl>>, impls'': map<TypeDecl, seq<FuncDecl>>)
    requires TypesKept(m, m') && TypesKept(m', m'') && ImplsKept(impls, impls') && ImplsKept(impls', impls'')
    ensures TypesKept(m, m'') && ImplsKept(impls, impls'')
  {
  }

  lemma SameKept(m: Typing, m': Typing, m'': Typing)
    requires TypesKept(m, m') && TypesKept(m', m'')
    ensures TypesKept(m, m'')
  {
  }

  /** The bodies of all aliases in scope are nodes of the unit with their references bound. */
  ghost predicate AliasesBound(env: Env, owner: Owner, b: Binding) {
    forall d :: d in Aliases(env) ==> Owned(owner, d.declaredType) && BoundIn(env, b, d.declaredType)
  }

  lemma SetKeepsSound(env: Env, owner: Owner, st: Storage, m: Typing, open: set<TypeDecl>, e: ASTType, q: QualType)
    requires WellFormed(st) && Sound(env, owner, st, m) && Owned(owner, e)
    requires Normal(env, open, e) != Diverges && Means(st, q, Normal(env, open, e))
    ensures Sound(env, owner, st, m[e.slot := q]) && TypesKept(m, m[e.slot := q])
    ensures q == UNKNOWN ==> m[e.slot] == UNKNOWN
  {
    NormalIgnoresOpen(env, {}, open, e);
    if m[e.slot] != UNKNOWN {
      QualTypesAreCanonical(st, m[e.slot], q);
    }
  }

  lemma SoundStable(env: Env, owner: Owner, st: Storage, st': Storage, m: Typing)
    requires WellFormed(st) && WellFormed(st') && st <= st' && Sound(env, owner, st, m)
    ensures Sound(env, owner, st', m)
  {
    forall s | s in owner && m[s] != UNKNOWN
      ensures Means(st', m[s], NormalForm(env, owner[s]))
    {
      MeansStable(st, st', m[s], NormalForm(env, owner[s]));
    }
  }

  lemma UnknownIsNotRemembered(env: Env, owner: Owner, st: Storage, open: set<TypeDecl>, e: ASTType)
    requires WellFormed(st) && Sound(env, owner, st, TypingOf(owner)) && Owned(owner, e)
             && Normal(env, open, e) == Unknown
    ensures e.slot.ty == UNKNOWN
  {
    NormalIgnoresOpen(env, {}, open, e);
  }

  /** The reports for a type expression: one for each field whose name an earlier field has, each time it is visited.
      A visit ends at the first part that turns out unknown. */
  ghost function Duplicates(env: Env, open: set<TypeDecl>, e: ASTType): seq<Diagnostic>
    decreases Aliases(env) - open, e, 1
  {
    match e
    case ASTBuiltinType(_, _) => []
    case ASTDeclTypeRef(s, _) =>
      if s in env && env[s].isUse && env[s] !in open then
        assert env[s] in Aliases(env) - open;
        Duplicates(env, open + {env[s]}, env[s].declaredType)
      else []
    case ASTQualType(t, _) => Duplicates(env, open, t)
    case ASTPointerType(t, _, _) => Duplicates(env, open, t)
    case ASTArrayType(t, _) => Duplicates(env, open, t)
    case ASTFunctionType(ps, r, _) =>
      DuplicatesAll(env, open, ps) + if NormalAll(env, open, ps).Known? then Duplicates(env, open, r) else []
    case ASTObjectType(fs, _) => DuplicatesFields(env, open, {}, fs, false)
    case ASTEnumType(fs, _) => DuplicatesFields(env, open, {}, fs, true)
  }

  ghost function DuplicatesAll(env: Env, open: set<TypeDecl>, ps: seq<ASTType>): seq<Diagnostic>
    decreases Aliases(env) - open, ps, 0
  {
    if ps == [] then [] else
      Duplicates(env, open, ps[0]) + if Normal(env, open, ps[0]).Known? then DuplicatesAll(env, open, ps[1..]) else []
  }

  ghost function DuplicatesFields(env: Env, open: set<TypeDecl>, seen: set<string>, fs: seq<Field>,
                                  inEnum: bool): seq<Diagnostic>
    decreases Aliases(env) - open, fs, 0
  {
    if fs == [] then [] else
      Duplicates(env, open, fs[0].ty) +
      if Normal(env, open, fs[0].ty).Known? then
        DuplicateReport(fs[0].name, seen, inEnum) + DuplicatesFields(env, open, seen + {fs[0].name}, fs[1..], inEnum)
      else []
  }

  function DuplicateReport(name: string, seen: set<string>, inEnum: bool): seq<Diagnostic> {
    if name !in seen then [] else if inEnum then [DuplicateMember(name)] else [DuplicateField(name)]
  }

  /** Store the type found for a node. The storage may have grown since the nodes were last looked at. */
  method SetType(e: ASTType, q: QualType, ghost st: Storage, ghost st': Storage, ghost env: Env,
                 ghost open: set<TypeDecl>, ghost owner: Owner)
    requires WellFormed(st) && WellFormed(st') && st <= st' && Sound(env, owner, st, TypingOf(owner)) && Owned(owner, e)
    requires Normal(env, open, e) != Diverges && Means(st', q, Normal(env, open, e))
    modifies e.slot`ty
    ensures Sound(env, owner, st', TypingOf(owner)) && TypesKept(old(TypingOf(owner)), TypingOf(owner))
    ensures e.slot.ty == q
  {
    SoundStable(env, owner, st, st', TypingOf(owner));
    SetKeepsSound(env, owner, st', TypingOf(owner), open, e, q);
    ghost var m := TypingOf(owner);
    e.slot.ty := q;
    assert TypingOf(owner) == m[e.slot := q];
  }

  method VisitType(e: ASTType, tc: TypeContext, dc: DiagnosticConsumer, ghost env: Env, ghost open: set<TypeDecl>,
                   ghost owner: Owner)
    returns (q: QualType)
    requires tc.Valid() && AliasesBound(env, owner, BindingOf(owner))
    requires Sound(env, owner, tc.storage, TypingOf(owner))
    requires Owned(owner, e) && BoundIn(env, BindingOf(owner), e) && Normal(env, open, e) != Diverges
    modifies tc, owner.Keys`ty, dc
    ensures tc.Valid() && ImplsKept(old(tc.impls), tc.impls)
    ensures Sound(env, owner, tc.storage, TypingOf(owner)) && TypesKept(old(TypingOf(owner)), TypingOf(owner))
    ensures (tc.storage, q) == Mat(env, open, old(tc.storage), e) && e.slot.ty == q
    ensures dc.emitted == old(dc.emitted) + Duplicates(env, open, e)
    decreases Aliases(env) - open, e, 2
  {
    hide BindingOf, TypingOf, Consistent, WellFormed, UnfoldQ, UnfoldAll, UnfoldMap, Sound, AliasesBound;
    MatMeansNormal(env, open, tc.storage, e);
    match e {
      case ASTBuiltinType(_, _) => q := VisitBuiltin(e, tc, dc, env, open, owner);
      case ASTDeclTypeRef(_, _) => q := VisitRef(e, tc, dc, env, open, owner);
      case ASTQualType(t, _) =>
        q := VisitType(t, tc, dc, env, open, owner);
        if q.IsUnknown() {
          UnknownIsNotRemembered(env, owner, tc.storage, open, e);
          return;
        }
        SetType(e, q, tc.storage, tc.storage, env, open, owner);
      case ASTPointerType(_, _, _) => q := VisitPointer(e, tc, dc, env, open, owner);
      case ASTArrayType(_, _) => q := VisitArray(e, tc, dc, env, open, owner);
      case ASTFunctionType(_, _, _) => q := VisitFunction(e, tc, dc, env, open, owner);
      case ASTObjectType(_, _) => q := VisitObject(e, tc, dc, env, open, owner);
      case ASTEnumType(_, _) => q := VisitEnum(e, tc, dc, env, open, owner);
    }
  }

  method VisitBuiltin(e: ASTType, tc: TypeContext, dc: DiagnosticConsumer, ghost env: Env, ghost open: set<TypeDecl>,
                      ghost owner: Owner)
    returns (q: QualType)
    requires tc.Valid() && AliasesBound(env, owner, BindingOf(owner))
    requires Sound(env, owner, tc.storage, TypingOf(owner))
    requires Owned(owner, e) && e.ASTBuiltinType?
    modifies tc, owner.Keys`ty, dc
    ensures tc.Valid() && ImplsKept(old(tc.impls), tc.impls)
    ensures Sound(env, owner, tc.storage, TypingOf(owner)) && TypesKept(old(TypingOf(owner)), TypingOf(owner))
    ensures (tc.storage, q) == Mat(env, open, old(tc.storage), e) && e.slot.ty == q
    ensures dc.emitted == old(dc.emitted) + Duplicates(env, open, e)
  {
    hide BindingOf, TypingOf, Consistent, WellFormed, UnfoldQ, UnfoldAll, UnfoldMap, Sound, AliasesBound, Means, InternQ,
         BoundIn, TypesKept;
    MatMeansNormal(env, open, tc.storage, e);
    match e.native {
      case VoidN => q := tc.GetUnitType();
      case I1N => q := tc.GetBuiltinType(I1);
      case I8N => q := tc.GetBuiltinType(I8);
      case I32N => q := tc.GetBuiltinType(I32);
      case I64N => q := tc.GetBuiltinType(I64);
      case F32N => q := tc.GetBuiltinType(F32);
      case F64N => q := tc.GetBuiltinType(F64);
      case StringN => q := tc.GetBuiltinType(Str);
      case UnknownN => q := tc.GetUnknownType();
    }
    SetType(e, q, tc.storage, tc.storage, env, open, owner);
  }

  method VisitRef(e: ASTType, tc: TypeContext, dc: DiagnosticConsumer, ghost env: Env, ghost open: set<TypeDecl>,
                  ghost owner: Owner)
    returns (q: QualType)
    requires tc.Valid() && AliasesBound(env, owner, BindingOf(owner))
    requires Sound(env, owner, tc.storage, TypingOf(owner))
    requires Owned(owner, e) && BoundIn(env, BindingOf(owner), e) && Normal(env, open, e) != Diverges
    requires e.ASTDeclTypeRef?
    modifies tc, owner.Keys`ty, dc
    ensures tc.Valid() && ImplsKept(old(tc.impls), tc.impls)
    ensures Sound(env, owner, tc.storage, TypingOf(owner)) && TypesKept(old(TypingOf(owner)), TypingOf(owner))
    ensures (tc.storage, q) == Mat(env, open, old(tc.storage), e) && e.slot.ty == q
    ensures dc.emitted == old(dc.emitted) + Duplicates(env, open, e)
    decreases Aliases(env) - open, e, 1
  {
    hide TypingOf, Consistent, WellFormed, UnfoldQ, Sound;
    ghost var st := tc.storage;
    MatMeansNormal(env, open, st, e);
    var curr := e.slot.declNode;
    if curr == null {
      UnknownIsNotRemembered(env, owner, tc.storage, open, e);
      q := tc.GetUnknownType();
      return;
    }
    if !curr.isUse {
      q := tc.GetNamedType(curr);
      SetType(e, q, st, tc.storage, env, open, owner);
      return;
    }
    assert curr in Aliases(env) - open;
    q := VisitType(curr.declaredType, tc, dc, env, open + {curr}, owner);
    SetType(e, q, tc.storage, tc.storage, env, open, owner);
  }

  method VisitPointer(e: ASTType, tc: TypeContext, dc: DiagnosticConsumer, ghost env: Env, ghost open: set<TypeDecl>,
                      ghost owner: Owner)
    returns (q: QualType)
    requires tc.Valid() && AliasesBound(env, owner, BindingOf(owner))
    requires Sound(env, owner, tc.storage, TypingOf(owner))
    requires Owned(owner, e) && BoundIn(env, BindingOf(owner), e) && Normal(env, open, e) != Diverges
    requires e.ASTPointerType?
    modifies tc, owner.Keys`ty, dc
    ensures tc.Valid() && ImplsKept(old(tc.impls), tc.impls)
    ensures Sound(env, owner, tc.storage, TypingOf(owner)) && TypesKept(old(TypingOf(owner)), TypingOf(owner))
    ensures (tc.storage, q) == Mat(env, open, old(tc.storage), e) && e.slot.ty == q
    ensures dc.emitted == old(dc.emitted) + Duplicates(env, open, e)
    decreases Aliases(env) - open, e, 1
  {
    hide BindingOf, TypingOf, Consistent, WellFormed, UnfoldQ, UnfoldAll, UnfoldMap, Sound, AliasesBound;
    MatMeansNormal(env, open, tc.storage, e);
    MatMeansNormal(env, open, tc.storage, e.element);
    q := VisitType(e.element, tc, dc, env, open, owner);
    if q.IsUnknown() {
      UnknownIsNotRemembered(env, owner, tc.storage, open, e);
      return;
    }
    ghost var st := tc.storage;
    q := tc.GetPointerType(q);
    SetType(e, q, st, tc.storage, env, open, owner);
  }

  method VisitArray(e: ASTType, tc: TypeContext, dc: DiagnosticConsumer, ghost env: Env, ghost open: set<TypeDecl>,
                    ghost owner: Owner)
    returns (q: QualType)
    requires tc.Valid() && AliasesBound(env, owner, BindingOf(owner))
    requires Sound(env, owner, tc.storage, TypingOf(owner))
    requires Owned(owner, e) && BoundIn(env, BindingOf(owner), e) && Normal(env, open, e) != Diverges
    requires e.ASTArrayType?
    modifies tc, owner.Keys`ty, dc
    ensures tc.Valid() && ImplsKept(old(tc.impls), tc.impls)
    ensures Sound(env, owner, tc.storage, TypingOf(owner)) && TypesKept(old(TypingOf(owner)), TypingOf(owner))
    ensures (tc.storage, q) == Mat(env, open, old(tc.storage), e) && e.slot.ty == q
    ensures dc.emitted == old(dc.emitted) + Duplicates(env, open, e)
    decreases Aliases(env) - open, e, 1
  {
    hide BindingOf, TypingOf, Consistent, WellFormed, UnfoldQ, UnfoldAll, UnfoldMap, Sound, AliasesBound;
    MatMeansNormal(env, open, tc.storage, e);
    MatMeansNormal(env, open, tc.storage, e.element);
    q := VisitType(e.element, tc, dc, env, open, owner);
    if q.IsUnknown() {
      UnknownIsNotRemembered(env, owner, tc.storage, open, e);
      return;
    }
    ghost var st := tc.storage;
    q := tc.GetArrayType(q);
    SetType(e, q, st, tc.storage, env, open, owner);
  }

  lemma FunctionParts(env: Env, open: set<TypeDecl>, e: ASTType)
    requires e.ASTFunctionType? && Normal(env, open, e) != Diverges
    ensures NormalAll(env, open, e.params) != Diverges
    ensures NormalAll(env, open, e.params).Known? ==> Normal(env, open, e.ret) != Diverges
    ensures NormalAll(env, open, e.params) == Unknown ==> Normal(env, open, e) == Unknown
    ensures NormalAll(env, open, e.params).Known? && Normal(env, open, e.ret) == Unknown ==>
              Normal(env, open, e) == Unknown
  {
  }

  lemma {:induction false} FunctionDuplicates(env: Env, open: set<TypeDecl>, e: ASTType, reports: seq<Diagnostic>)
    requires e.ASTFunctionType?
    ensures reports + Duplicates(env, open, e) ==
            if NormalAll(env, open, e.params).Known?
            then reports + DuplicatesAll(env, open, e.params) + Duplicates(env, open, e.ret)
            else reports + DuplicatesAll(env, open, e.params)
  {
    hide NormalAll, DuplicatesAll;
  }

  lemma FunctionMat(env: Env, open: set<TypeDecl>, st: Storage, e: ASTType)
    requires e.ASTFunctionType?
    ensures var (st1, qs) := MatAll(env, open, st, e.params);
            Mat(env, open, st, e) ==
            if qs.None? then (st1, UNKNOWN)
            else if Mat(env, open, st1, e.ret).1.IsUnknown() then Mat(env, open, st1, e.ret)
            else InternQ(Mat(env, open, st1, e.ret).0, FuncType(qs.value, Mat(env, open, st1, e.ret).1))
  {
  }

  method VisitFunction(e: ASTType, tc: TypeContext, dc: DiagnosticConsumer, ghost env: Env,
                       ghost open: set<TypeDecl>, ghost owner: Owner)
    returns (q: QualType)
    requires tc.Valid() && AliasesBound(env, owner, BindingOf(owner))
    requires Sound(env, owner, tc.storage, TypingOf(owner))
    requires Owned(owner, e) && BoundIn(env, BindingOf(owner), e) && Normal(env, open, e) != Diverges
    requires e.ASTFunctionType?
    modifies tc, owner.Keys`ty, dc
    ensures tc.Valid() && ImplsKept(old(tc.impls), tc.impls)
    ensures Sound(env, owner, tc.storage, TypingOf(owner)) && TypesKept(old(TypingOf(owner)), TypingOf(owner))
    ensures (tc.storage, q) == Mat(env, open, old(tc.storage), e) && e.slot.ty == q
    ensures dc.emitted == old(dc.emitted) + Duplicates(env, open, e)
    decreases Aliases(env) - open, e, 1
  {
    hide BindingOf, TypingOf, Consistent, WellFormed, UnfoldQ, UnfoldAll, UnfoldMap, Sound, AliasesBound, Normal,
         NormalAll, Mat, MatAll,
         TypesKept, ImplsKept, Duplicates, DuplicatesAll;
    FunctionDuplicates(env, open, e, dc.emitted);
    ghost var m, impls := TypingOf(owner), tc.impls;
    FunctionParts(env, open, e);
    FunctionMat(env, open, tc.storage, e);
    MatMeansNormal(env, open, tc.storage, e);
    MatAllMeansNormal(env, open, tc.storage, e.params);
    var params := VisitParams(e.params, tc, dc, env, open, owner);
    if params.None? {
      UnknownIsNotRemembered(env, owner, tc.storage, open, e);
      return UNKNOWN;
    }
    ghost var st1, m1, impls1 := tc.storage, TypingOf(owner), tc.impls;
    MatMeansNormal(env, open, st1, e.ret);
    q := VisitType(e.ret, tc, dc, env, open, owner);
    ghost var m2 := TypingOf(owner);
    KeptTwice(m, m1, m2, impls, impls1, tc.impls);
    if q.IsUnknown() {
      UnknownIsNotRemembered(env, owner, tc.storage, open, e);
      return;
    }
    ghost var st2 := tc.storage;
    q := tc.GetFuncType(params.value, q);
    SetType(e, q, st2, tc.storage, env, open, owner);
    SameKept(m, m2, TypingOf(owner));
  }

  /** The parameter loop: it returns early, with nothing, at the first unknown type. */
  method VisitParams(ps: seq<ASTType>, tc: TypeContext, dc: DiagnosticConsumer, ghost env: Env,
                     ghost open: set<TypeDecl>, ghost owner: Owner)
    returns (params: Option<seq<QualType>>)
    requires tc.Valid() && AliasesBound(env, owner, BindingOf(owner))
    requires Sound(env, owner, tc.storage, TypingOf(owner))
    requires forall p :: p in ps ==> Owned(owner, p) && BoundIn(env, BindingOf(owner), p)
    requires NormalAll(env, open, ps) != Diverges
    modifies tc, owner.Keys`ty, dc
    ensures tc.Valid() && ImplsKept(old(tc.impls), tc.impls)
    ensures Sound(env, owner, tc.storage, TypingOf(owner)) && TypesKept(old(TypingOf(owner)), TypingOf(owner))
    ensures (tc.storage, params) == MatAll(env, open, old(tc.storage), ps)
    ensures dc.emitted == old(dc.emitted) + DuplicatesAll(env, open, ps)
    decreases Aliases(env) - open, ps, 0
  {
    hide BindingOf, TypingOf, Consistent, WellFormed, UnfoldQ, UnfoldAll, UnfoldMap, Sound, AliasesBound, Normal,
         NormalAll, Mat, MatAll,
         Duplicates, DuplicatesAll, Onto, TypesKept, ImplsKept;
    ghost var m0, impls0 := TypingOf(owner), tc.impls;
    NothingKept(m0, impls0);
    NoParamsLeft(env, open, dc.emitted);
    var paramTys: seq<QualType> := [];
    OntoEnds([], MatAll(env, open, tc.storage, ps).1);
    assert ps[0..] == ps;
    for i := 0 to |ps|
      invariant tc.Valid() && ImplsKept(impls0, tc.impls)
      invariant Sound(env, owner, tc.storage, TypingOf(owner)) && TypesKept(m0, TypingOf(owner))
      invariant NormalAll(env, open, ps[i..]) != Diverges
      invariant dc.emitted + DuplicatesAll(env, open, ps[i..]) == old(dc.emitted) + DuplicatesAll(env, open, ps)
      invariant MatAll(env, open, old(tc.storage), ps).0 == MatAll(env, open, tc.storage, ps[i..]).0
      invariant MatAll(env, open, old(tc.storage), ps).1 == Onto(paramTys, MatAll(env, open, tc.storage, ps[i..]).1)
    {
      ghost var st, m, impls := tc.storage, TypingOf(owner), tc.impls;
      NextParam(env, open, st, ps, i, paramTys, dc.emitted);
      var t := VisitType(ps[i], tc, dc, env, open, owner);
      KeptTwice(m0, m, TypingOf(owner), impls0, impls, tc.impls);
      if t.IsUnknown() {
        return None;
      }
      paramTys := paramTys + [t];
    }
    assert ps[|ps|..] == [];
    NoParamsLeft(env, open, dc.emitted);
    OntoEnds(paramTys, None);
    NoneLeft(env, open, tc.storage);
    return Some(paramTys);
  }

  lemma {:induction false} NothingKept(m: Typing, impls: map<TypeDecl, seq<FuncDecl>>)
    ensures TypesKept(m, m) && ImplsKept(impls, impls)
  {
  }

  lemma {:induction false} NoParamsLeft(env: Env, open: set<TypeDecl>, reports: seq<Diagnostic>)
    ensures reports + DuplicatesAll(env, open, []) == reports
  {
  }

  lemma {:induction false} NoneLeft(env: Env, open: set<TypeDecl>, st: Storage)
    ensures MatAll(env, open, st, []) == (st, Some([])) && MatFields(env, open, st, []) == (st, Some(map[]))
  {
  }

  /** One step of the parameter loop, for the type found next. */
  lemma {:induction false} NextParam(env: Env, open: set<TypeDecl>, st: Storage, ps: seq<ASTType>, i: nat,
                                     done: seq<QualType>,
                                     reports: seq<Diagnostic>)
    requires i < |ps| && NormalAll(env, open, ps[i..]) != Diverges && WellFormed(st)
    ensures Normal(env, open, ps[i]) != Diverges
    ensures var (st1, t) := Mat(env, open, st, ps[i]);
            if t.IsUnknown() then
              && MatAll(env, open, st, ps[i..]).0 == st1 && Onto(done, MatAll(env, open, st, ps[i..]).1) == None
              && reports + DuplicatesAll(env, open, ps[i..]) == reports + Duplicates(env, open, ps[i])
            else
              && NormalAll(env, open, ps[i + 1..]) != Diverges
              && MatAll(env, open, st, ps[i..]).0 == MatAll(env, open, st1, ps[i + 1..]).0
              && Onto(done, MatAll(env, open, st, ps[i..]).1) == Onto(done + [t], MatAll(env, open, st1, ps[i + 1..]).1)
              && reports + DuplicatesAll(env, open, ps[i..]) ==
                 reports + Duplicates(env, open, ps[i]) + DuplicatesAll(env, open, ps[i + 1..])
  {
    hide Normal, Mat, Duplicates, UnfoldQ, WellFormed, Onto;
    assert ps[i..][1..] == ps[i + 1..] && ps[i..][0] == ps[i];
    MatMeansNormal(env, open, st, ps[i]);
    var (st1, t) := Mat(env, open, st, ps[i]);
    OntoOne(done, t, MatAll(env, open, st1, ps[i + 1..]).1);
    OntoNothing(done);
  }

  lemma {:induction false} OntoNothing(done: seq<QualType>)
    ensures Onto(done, None) == None
  {
  }

  /** A result for the remaining parameters, put after the types already found. */
  ghost function Onto(done: seq<QualType>, r: Option<seq<QualType>>): Option<seq<QualType>> {
    if r.None? then None else Some(done + r.value)
  }

  lemma OntoEnds(done: seq<QualType>, r: Option<seq<QualType>>)
    ensures Onto([], r) == r && Onto(done, Some([])) == Some(done)
  {
    if r.Some? {
      assert [] + r.value == r.value;
    }
    assert done + [] == done;
  }

  lemma OntoOne(done: seq<QualType>, t: QualType, r: Option<seq<QualType>>)
    ensures Onto(done, if r.None? then None else Some([t] + r.value)) == Onto(done + [t], r)
  {
    if r.Some? {
      assert done + ([t] + r.value) == done + [t] + r.value;
    }
  }

  method VisitObject(e: ASTType, tc: TypeContext, dc: DiagnosticConsumer, ghost env: Env, ghost open: set<TypeDecl>,
                     ghost owner: Owner)
    returns (q: QualType)
    requires tc.Valid() && AliasesBound(env, owner, BindingOf(owner))
    requires Sound(env, owner, tc.storage, TypingOf(owner))
    requires Owned(owner, e) && BoundIn(env, BindingOf(owner), e) && Normal(env, open, e) != Diverges
    requires e.ASTObjectType?
    modifies tc, owner.Keys`ty, dc
    ensures tc.Valid() && ImplsKept(old(tc.impls), tc.impls)
    ensures Sound(env, owner, tc.storage, TypingOf(owner)) && TypesKept(old(TypingOf(owner)), TypingOf(owner))
    ensures (tc.storage, q) == Mat(env, open, old(tc.storage), e) && e.slot.ty == q
    ensures dc.emitted == old(dc.emitted) + Duplicates(env, open, e)
    decreases Aliases(env) - open, e, 1
  {
    hide BindingOf, TypingOf, Consistent, WellFormed, UnfoldQ, UnfoldAll, UnfoldMap, Sound, AliasesBound;
    MatMeansNormal(env, open, tc.storage, e);
    MatFieldsMeansNormal(env, open, tc.storage, e.fields);
    var fields := VisitFields(e.fields, e.ASTEnumType?, tc, dc, env, open, owner);
    if fields.None? {
      UnknownIsNotRemembered(env, owner, tc.storage, open, e);
      return UNKNOWN;
    }
    ghost var st := tc.storage;
    q := tc.GetObjectType(fields.value);
    SetType(e, q, st, tc.storage, env, open, owner);
  }

  method VisitEnum(e: ASTType, tc: TypeContext, dc: DiagnosticConsumer, ghost env: Env, ghost open: set<TypeDecl>,
                   ghost owner: Owner)
    returns (q: QualType)
    requires tc.Valid() && AliasesBound(env, owner, BindingOf(owner))
    requires Sound(env, owner, tc.storage, TypingOf(owner))
    requires Owned(owner, e) && BoundIn(env, BindingOf(owner), e) && Normal(env, open, e) != Diverges
    requires e.ASTEnumType?
    modifies tc, owner.Keys`ty, dc
    ensures tc.Valid() && ImplsKept(old(tc.impls), tc.impls)
    ensures Sound(env, owner, tc.storage, TypingOf(owner)) && TypesKept(old(TypingOf(owner)), TypingOf(owner))
    ensures (tc.storage, q) == Mat(env, open, old(tc.storage), e) && e.slot.ty == q
    ensures dc.emitted == old(dc.emitted) + Duplicates(env, open, e)
    decreases Aliases(env) - open, e, 1
  {
    hide BindingOf, TypingOf, Consistent, WellFormed, UnfoldQ, UnfoldAll, UnfoldMap, Sound, AliasesBound;
    MatMeansNormal(env, open, tc.storage, e);
    MatFieldsMeansNormal(env, open, tc.storage, e.fields);
    var fields := VisitFields(e.fields, e.ASTEnumType?, tc, dc, env, open, owner);
    if fields.None? {
      UnknownIsNotRemembered(env, owner, tc.storage, open, e);
      return UNKNOWN;
    }
    ghost var st := tc.storage;
    q := tc.GetEnumType(fields.value);
    SetType(e, q, st, tc.storage, env, open, owner);
  }

  /** The field loop: it returns early at the first unknown type, and skips a name it already has. */
  method VisitFields(fs: seq<Field>, inEnum: bool, tc: TypeContext, dc: DiagnosticConsumer, ghost env: Env,
                     ghost open: set<TypeDecl>, ghost owner: Owner)
    returns (fields: Option<map<string, QualType>>)
    requires tc.Valid() && AliasesBound(env, owner, BindingOf(owner))
    requires Sound(env, owner, tc.storage, TypingOf(owner))
    requires forall f :: f in fs ==> Owned(owner, f.ty) && BoundIn(env, BindingOf(owner), f.ty)
    requires NormalFields(env, open, fs) != Diverges
    modifies tc, owner.Keys`ty, dc
    ensures tc.Valid() && ImplsKept(old(tc.impls), tc.impls)
    ensures Sound(env, owner, tc.storage, TypingOf(owner)) && TypesKept(old(TypingOf(owner)), TypingOf(owner))
    ensures (tc.storage, fields) == MatFields(env, open, old(tc.storage), fs)
    ensures dc.emitted == old(dc.emitted) + DuplicatesFields(env, open, {}, fs, inEnum)
    decreases Aliases(env) - open, fs, 0
  {
    hide BindingOf, TypingOf, Consistent, WellFormed, UnfoldQ, UnfoldAll, UnfoldMap, Sound, AliasesBound, Normal,
         NormalFields, Mat,
         MatFields, Duplicates, DuplicatesFields, Under, TypesKept, ImplsKept;
    ghost var m0, impls0 := TypingOf(owner), tc.impls;
    NothingKept(m0, impls0);
    var found: map<string, QualType> := map[];
    UnderEnds(map[], MatFields(env, open, tc.storage, fs).1);
    assert fs[0..] == fs && found.Keys == {};
    for i := 0 to |fs|
      invariant tc.Valid() && ImplsKept(impls0, tc.impls)
      invariant Sound(env, owner, tc.storage, TypingOf(owner)) && TypesKept(m0, TypingOf(owner))
      invariant NormalFields(env, open, fs[i..]) != Diverges
      invariant dc.emitted + DuplicatesFields(env, open, found.Keys, fs[i..], inEnum) ==
                old(dc.emitted) + DuplicatesFields(env, open, {}, fs, inEnum)
      invariant MatFields(env, open, old(tc.storage), fs).0 == MatFields(env, open, tc.storage, fs[i..]).0
      invariant MatFields(env, open, old(tc.storage), fs).1 == Under(found, MatFields(env, open, tc.storage, fs[i..]).1)
    {
      ghost var st, m, impls := tc.storage, TypingOf(owner), tc.impls;
      NextField(env, open, st, fs, i, found, inEnum, dc.emitted);
      var t := VisitType(fs[i].ty, tc, dc, env, open, owner);
      KeptTwice(m0, m, TypingOf(owner), impls0, impls, tc.impls);
      if t.IsUnknown() {
        return None;
      }
      if fs[i].name in found {
        if inEnum {
          dc.Emit(DuplicateMember(fs[i].name));
        } else {
          dc.Emit(DuplicateField(fs[i].name));
        }
        continue;
      }
      found := found[fs[i].name := t];
    }
    assert fs[|fs|..] == [];
    NoFieldsLeft(env, open, found.Keys, inEnum, dc.emitted);
    UnderEnds(found, None);
    NoneLeft(env, open, tc.storage);
    return Some(found);
  }

  lemma {:induction false} NoFieldsLeft(env: Env, open: set<TypeDecl>, seen: set<string>, inEnum: bool,
                                        reports: seq<Diagnostic>)
    ensures reports + DuplicatesFields(env, open, seen, [], inEnum) == reports
  {
  }

  /** One step of the field loop, for the type found next: a name already there is reported and skipped. */
  lemma {:induction false} NextField(env: Env, open: set<TypeDecl>, st: Storage, fs: seq<Field>, i: nat,
                                     found: map<string, QualType>, inEnum: bool, reports: seq<Diagnostic>)
    requires i < |fs| && NormalFields(env, open, fs[i..]) != Diverges && WellFormed(st)
    ensures Normal(env, open, fs[i].ty) != Diverges
    ensures var (st1, t) := Mat(env, open, st, fs[i].ty);
            var found1 := if fs[i].name in found then found else found[fs[i].name := t];
            var own := reports + Duplicates(env, open, fs[i].ty);
            if t.IsUnknown() then
              && MatFields(env, open, st, fs[i..]).0 == st1 && Under(found, MatFields(env, open, st, fs[i..]).1) == None
              && reports + DuplicatesFields(env, open, found.Keys, fs[i..], inEnum) == own
            else
              && NormalFields(env, open, fs[i + 1..]) != Diverges
              && MatFields(env, open, st, fs[i..]).0 == MatFields(env, open, st1, fs[i + 1..]).0
              && Under(found, MatFields(env, open, st, fs[i..]).1) == Under(found1, MatFields(env, open, st1, fs[i + 1..]).1)
              && reports + DuplicatesFields(env, open, found.Keys, fs[i..], inEnum) ==
                 (if fs[i].name !in found then own
                  else own + [if inEnum then DuplicateMember(fs[i].name) else DuplicateField(fs[i].name)])
                 + DuplicatesFields(env, open, found1.Keys, fs[i + 1..], inEnum)
  {
    hide Normal, Mat, Duplicates, UnfoldQ, WellFormed, Under;
    assert fs[i..][1..] == fs[i + 1..] && fs[i..][0] == fs[i];
    MatMeansNormal(env, open, st, fs[i].ty);
    var (st1, t) := Mat(env, open, st, fs[i].ty);
    var found1 := if fs[i].name in found then found else found[fs[i].name := t];
    assert found1.Keys == found.Keys + {fs[i].name};
    UnderOne(found, fs[i].name, t, MatFields(env, open, st1, fs[i + 1..]).1);
    UnderNothing(found);
    FieldReports(env, open, found, fs, i, inEnum, reports);
  }

  lemma {:induction false} FieldReports(env: Env, open: set<TypeDecl>, found: map<string, QualType>, fs: seq<Field>,
                                        i: nat,
                                        inEnum: bool, reports: seq<Diagnostic>)
    requires i < |fs|
    ensures var own := reports + Duplicates(env, open, fs[i].ty);
            reports + DuplicatesFields(env, open, found.Keys, fs[i..], inEnum) ==
            if !Normal(env, open, fs[i].ty).Known? then own
            else (if fs[i].name !in found then own
                  else own + [if inEnum then DuplicateMember(fs[i].name) else DuplicateField(fs[i].name)])
                 + DuplicatesFields(env, open, found.Keys + {fs[i].name}, fs[i + 1..], inEnum)
  {
    hide Normal, Duplicates;
    assert fs[i..][1..] == fs[i + 1..] && fs[i..][0] == fs[i];
  }

  lemma {:induction false} UnderNothing(found: map<string, QualType>)
    ensures Under(found, None) == None
  {
  }

  /** A result for the remaining fields, overridden by the fields already found. */
  ghost function Under(found: map<string, QualType>, r: Option<map<string, QualType>>): Option<map<string, QualType>> {
    if r.None? then None else Some(r.value + found)
  }

  lemma UnderEnds(found: map<string, QualType>, r: Option<map<string, QualType>>)
    ensures Under(map[], r) == r && Under(found, Some(map[])) == Some(found)
  {
    if r.Some? {
      assert r.value + map[] == r.value;
    }
    assert map[] + found == found;
  }

  lemma UnderOne(found: map<string, QualType>, name: string, t: QualType, r: Option<map<string, QualType>>)
    ensures Under(found, if r.None? then None else Some(r.value[name := t]))
         == Under(if name in found then found else found[name := t], r)
  {
    if r.Some? {
      assert r.value[name := t] + found == r.value + if name in found then found else found[name := t];
    }
  }
}
