/** Materialisation as a function on the type store: which objects it adds, and the pointer it returns. */
module Materialisation {
  import opened QualTypes
  import opened AST
  import opened TypeStorage
  import opened TypeContexts
  import opened NormalForms

  function NativeObj(n: ASTNativeType): Option<TypeObj> {
    match n
    case VoidN => Some(UnitType)
    case I1N => Some(BuiltinType(I1))
    case I8N => Some(BuiltinType(I8))
    case I32N => Some(BuiltinType(I32))
    case I64N => Some(BuiltinType(I64))
    case F32N => Some(BuiltinType(F32))
    case F64N => Some(BuiltinType(F64))
    case StringN => Some(BuiltinType(Str))
    case UnknownN => None
  }

  ghost function Mat(env: Env, open: set<TypeDecl>, st: Storage, e: ASTType): (Storage, QualType)
    decreases Aliases(env) - open, e, 1
  {
    match e
    case ASTBuiltinType(n, _) =>
      if NativeObj(n).None? then (st, UNKNOWN) else InternQ(st, NativeObj(n).value)
    case ASTDeclTypeRef(s, _) =>
      if s !in env then (st, UNKNOWN)
      else if !env[s].isUse then InternQ(st, NamedType(env[s]))
      else if env[s] in open then (st, UNKNOWN)
      else
        assert env[s] in Aliases(env) - open;
        Mat(env, open + {env[s]}, st, env[s].declaredType)
    case ASTQualType(t, _) => Mat(env, open, st, t)
    case ASTPointerType(t, _, _) =>
      var (st1, q) := Mat(env, open, st, t);
      if q.IsUnknown() then (st1, q) else InternQ(st1, PointerType(q))
    case ASTArrayType(t, _) =>
      var (st1, q) := Mat(env, open, st, t);
      if q.IsUnknown() then (st1, q) else InternQ(st1, ArrayType(q))
    case ASTFunctionType(ps, r, _) =>
      var (st1, qs) := MatAll(env, open, st, ps);
      if qs.None? then (st1, UNKNOWN)
      else
        var (st2, q) := Mat(env, open, st1, r);
        if q.IsUnknown() then (st2, q) else InternQ(st2, FuncType(qs.value, q))
    case ASTObjectType(fs, _) =>
      var (st1, m) := MatFields(env, open, st, fs);
      if m.None? then (st1, UNKNOWN) else InternQ(st1, ObjectType(m.value))
    case ASTEnumType(fs, _) =>
      var (st1, m) := MatFields(env, open, st, fs);
      if m.None? then (st1, UNKNOWN) else InternQ(st1, EnumType(m.value))
  }

  /** Stops at the first unknown parameter; the objects added before it stay. */
  ghost function MatAll(env: Env, open: set<TypeDecl>, st: Storage, ps: seq<ASTType>): (Storage, Option<seq<QualType>>)
    decreases Aliases(env) - open, ps, 0
  {
    if ps == [] then (st, Some([]))
    else
      var (st1, q) := Mat(env, open, st, ps[0]);
      if q.IsUnknown() then (st1, None)
      else
        var (st2, qs) := MatAll(env, open, st1, ps[1..]);
        (st2, if qs.None? then None else Some([q] + qs.value))
  }

  ghost function MatFields(env: Env, open: set<TypeDecl>, st: Storage, fs: seq<Field>)
    : (Storage, Option<map<string, QualType>>)
    decreases Aliases(env) - open, fs, 0
  {
    if fs == [] then (st, Some(map[]))
    else
      var (st1, q) := Mat(env, open, st, fs[0].ty);
      if q.IsUnknown() then (st1, None)
      else
        var (st2, m) := MatFields(env, open, st1, fs[1..]);
        (st2, if m.None? then None else Some(m.value[fs[0].name := q]))
  }

  // The pointer returned stands for the normal form.

  /** A pointer is unknown for an unknown normal form, and otherwise unfolds to it. */
  ghost predicate Means(st: Storage, q: QualType, n: Norm<SemType>)
    requires WellFormed(st)
  {
    && InRange(q, |st|)
    && match n
       case Known(t) => q.ty.Some? && UnfoldQ(st, q, |st|) == Unqualified(t)
       case Unknown => q == UNKNOWN
       case Diverges => false
  }

  ghost predicate MeansAll(st: Storage, qs: Option<seq<QualType>>, n: Norm<seq<SemQual>>)
    requires WellFormed(st)
  {
    match n
    case Known(ss) => qs.Some? && InRangeAll(qs.value, |st|) && UnfoldAll(st, qs.value, |st|) == ss
    case Unknown => qs.None?
    case Diverges => false
  }

  ghost predicate MeansMap(st: Storage, m: Option<map<string, QualType>>, n: Norm<map<string, SemQual>>)
    requires WellFormed(st)
  {
    match n
    case Known(ss) => m.Some? && InRangeMap(m.value, |st|) && UnfoldMap(st, m.value, |st|) == ss
    case Unknown => m.None?
    case Diverges => false
  }

  lemma MeansStable(st: Storage, st': Storage, q: QualType, n: Norm<SemType>)
    requires WellFormed(st) && WellFormed(st') && st <= st' && Means(st, q, n)
    ensures Means(st', q, n)
  {
    UnfoldQStable(st, st', q);
  }

  lemma MeansAllStable(st: Storage, st': Storage, qs: Option<seq<QualType>>, n: Norm<seq<SemQual>>)
    requires WellFormed(st) && WellFormed(st') && st <= st' && MeansAll(st, qs, n)
    ensures MeansAll(st', qs, n)
  {
    if qs.Some? {
      forall i | 0 <= i < |qs.value|
        ensures UnfoldQ(st', qs.value[i], |st'|) == UnfoldAll(st, qs.value, |st|)[i]
      {
        UnfoldQStable(st, st', qs.value[i]);
      }
    }
  }

  lemma {:induction false} MatMeansNormal(env: Env, open: set<TypeDecl>, st: Storage, e: ASTType)
    requires WellFormed(st) && Normal(env, open, e) != Diverges
    ensures var (st', q) := Mat(env, open, st, e);
            WellFormed(st') && st <= st' && Means(st', q, Normal(env, open, e))
    decreases Aliases(env) - open, e, 1
  {
    match e {
      case ASTBuiltinType(n, _) => InternMeans(st, if NativeObj(n).Some? then NativeObj(n).value else UnitType);
      case ASTDeclTypeRef(s, _) =>
        if s in env {
          if env[s].isUse {
            MatMeansNormal(env, open + {env[s]}, st, env[s].declaredType);
          } else {
            InternMeans(st, NamedType(env[s]));
          }
        }
      case ASTQualType(t, _) => MatMeansNormal(env, open, st, t);
      case ASTPointerType(t, _, _) =>
        MatMeansNormal(env, open, st, t);
        var (st1, q) := Mat(env, open, st, t);
        if !q.IsUnknown() { InternMeans(st1, PointerType(q)); }
      case ASTArrayType(t, _) =>
        MatMeansNormal(env, open, st, t);
        var (st1, q) := Mat(env, open, st, t);
        if !q.IsUnknown() { InternMeans(st1, ArrayType(q)); }
      case ASTFunctionType(ps, r, _) => MatFuncMeans(env, open, st, e);
      case ASTObjectType(fs, _) =>
        MatFieldsMeansNormal(env, open, st, fs);
        var (st1, m) := MatFields(env, open, st, fs);
        if m.Some? { InternMeans(st1, ObjectType(m.value)); }
      case ASTEnumType(fs, _) =>
        MatFieldsMeansNormal(env, open, st, fs);
        var (st1, m) := MatFields(env, open, st, fs);
        if m.Some? { InternMeans(st1, EnumType(m.value)); }
    }
  }

  lemma {:induction false} MatFuncMeans(env: Env, open: set<TypeDecl>, st: Storage, e: ASTType)
    requires WellFormed(st) && e.ASTFunctionType? && Normal(env, open, e) != Diverges
    ensures var (st', q) := Mat(env, open, st, e);
            WellFormed(st') && st <= st' && Means(st', q, Normal(env, open, e))
    decreases Aliases(env) - open, e, 0
  {
    MatAllMeansNormal(env, open, st, e.params);
    var (st1, qs) := MatAll(env, open, st, e.params);
    if qs.Some? {
      MatMeansNormal(env, open, st1, e.ret);
      var (st2, q) := Mat(env, open, st1, e.ret);
      MeansAllStable(st1, st2, qs, NormalAll(env, open, e.params));
      if !q.IsUnknown() { InternMeans(st2, FuncType(qs.value, q)); }
    }
  }

  lemma {:induction false} MatAllMeansNormal(env: Env, open: set<TypeDecl>, st: Storage, ps: seq<ASTType>)
    requires WellFormed(st) && NormalAll(env, open, ps) != Diverges
    ensures var (st', qs) := MatAll(env, open, st, ps);
            WellFormed(st') && st <= st' && MeansAll(st', qs, NormalAll(env, open, ps))
    decreases Aliases(env) - open, ps, 0
  {
    if ps != [] {
      MatMeansNormal(env, open, st, ps[0]);
      var (st1, q) := Mat(env, open, st, ps[0]);
      if !q.IsUnknown() {
        MatAllMeansNormal(env, open, st1, ps[1..]);
        var (st2, qs) := MatAll(env, open, st1, ps[1..]);
        UnfoldQStable(st1, st2, q);
        if qs.Some? {
          assert UnfoldAll(st2, [q] + qs.value, |st2|)
              == [UnfoldQ(st2, q, |st2|)] + UnfoldAll(st2, qs.value, |st2|);
        }
      }
    }
  }

  lemma {:induction false} MatFieldsMeansNormal(env: Env, open: set<TypeDecl>, st: Storage, fs: seq<Field>)
    requires WellFormed(st) && NormalFields(env, open, fs) != Diverges
    ensures var (st', m) := MatFields(env, open, st, fs);
            WellFormed(st') && st <= st' && MeansMap(st', m, NormalFields(env, open, fs))
    decreases Aliases(env) - open, fs, 0
  {
    if fs != [] {
      MatMeansNormal(env, open, st, fs[0].ty);
      var (st1, q) := Mat(env, open, st, fs[0].ty);
      if !q.IsUnknown() {
        MatFieldsMeansNormal(env, open, st1, fs[1..]);
        var (st2, m) := MatFields(env, open, st1, fs[1..]);
        UnfoldQStable(st1, st2, q);
        if m.Some? {
          assert UnfoldMap(st2, m.value[fs[0].name := q], |st2|)
              == UnfoldMap(st2, m.value, |st2|)[fs[0].name := UnfoldQ(st2, q, |st2|)];
        }
      }
    }
  }

  /** The structure an object describes, given the store its components live in. */
  ghost function Describes(st: Storage, o: TypeObj): SemType
    requires WellFormed(st) && Below(o, |st|)
  {
    match o
    case UnitType => SUnit
    case BuiltinType(n) => SBuiltin(n)
    case NamedType(d) => SNamed(d)
    case PointerType(q) => SPointer(UnfoldQ(st, q, |st|))
    case ArrayType(q) => SArray(UnfoldQ(st, q, |st|))
    case FuncType(ps, r) => SFunc(UnfoldAll(st, ps, |st|), UnfoldQ(st, r, |st|))
    case ObjectType(m) => SObject(UnfoldMap(st, m, |st|))
    case EnumType(m) => SEnum(UnfoldMap(st, m, |st|))
  }

  lemma InternMeans(st: Storage, o: TypeObj)
    requires WellFormed(st) && Below(o, |st|)
    ensures var (st', q) := InternQ(st, o);
            WellFormed(st') && st <= st' && Means(st', q, Known(Describes(st, o)))
  {
    var (st', p) := Intern(st, o);
    InternKeepsWellFormed(st, o);
    assert Below(st'[p], p);
    forall q: QualType | InRange(q, p) && InRange(q, |st|)
      ensures UnfoldQ(st', q, p) == UnfoldQ(st, q, |st|)
    {
      UnfoldQStable(st, st', q);
    }
    match o {
      case FuncType(ps, r) => assert UnfoldAll(st', ps, p) == UnfoldAll(st, ps, |st|);
      case ObjectType(m) => assert UnfoldMap(st', m, p) == UnfoldMap(st, m, |st|);
      case EnumType(m) => assert UnfoldMap(st', m, p) == UnfoldMap(st, m, |st|);
      case _ =>
    }
  }

  // Doing it again finds everything already there.

  /** In any later store, materialising the same expression returns the same pointer and adds nothing. */
  lemma {:induction false} MatAgain(env: Env, open: set<TypeDecl>, st: Storage, later: Storage, e: ASTType)
    requires WellFormed(st) && WellFormed(later) && Normal(env, open, e) != Diverges
    requires Mat(env, open, st, e).0 <= later
    ensures Mat(env, open, later, e) == (later, Mat(env, open, st, e).1)
    decreases Aliases(env) - open, e, 1
  {
    match e {
      case ASTBuiltinType(n, _) =>
        if NativeObj(n).Some? { InternAgain(st, later, NativeObj(n).value); }
      case ASTDeclTypeRef(s, _) =>
        if s in env {
          if env[s].isUse {
            MatAgain(env, open + {env[s]}, st, later, env[s].declaredType);
          } else {
            InternAgain(st, later, NamedType(env[s]));
          }
        }
      case ASTQualType(t, _) => MatAgain(env, open, st, later, t);
      case ASTPointerType(t, _, _) =>
        MatMeansNormal(env, open, st, t);
        var (st1, q) := Mat(env, open, st, t);
        MatAgain(env, open, st, later, t);
        if !q.IsUnknown() { InternAgain(st1, later, PointerType(q)); }
      case ASTArrayType(t, _) =>
        MatMeansNormal(env, open, st, t);
        var (st1, q) := Mat(env, open, st, t);
        MatAgain(env, open, st, later, t);
        if !q.IsUnknown() { InternAgain(st1, later, ArrayType(q)); }
      case ASTFunctionType(ps, r, _) => MatFuncAgain(env, open, st, later, e);
      case ASTObjectType(fs, _) =>
        MatFieldsMeansNormal(env, open, st, fs);
        MatFieldsAgain(env, open, st, later, fs);
        var (st1, m) := MatFields(env, open, st, fs);
        if m.Some? { InternAgain(st1, later, ObjectType(m.value)); }
      case ASTEnumType(fs, _) =>
        MatFieldsMeansNormal(env, open, st, fs);
        MatFieldsAgain(env, open, st, later, fs);
        var (st1, m) := MatFields(env, open, st, fs);
        if m.Some? { InternAgain(st1, later, EnumType(m.value)); }
    }
  }

  lemma {:induction false} MatFuncAgain(env: Env, open: set<TypeDecl>, st: Storage, later: Storage, e: ASTType)
    requires WellFormed(st) && WellFormed(later) && e.ASTFunctionType? && Normal(env, open, e) != Diverges
    requires Mat(env, open, st, e).0 <= later
    ensures Mat(env, open, later, e) == (later, Mat(env, open, st, e).1)
    decreases Aliases(env) - open, e, 0
  {
    MatAllMeansNormal(env, open, st, e.params);
    var (st1, qs) := MatAll(env, open, st, e.params);
    if qs.None? {
      MatAllAgain(env, open, st, later, e.params);
    } else {
      MatMeansNormal(env, open, st1, e.ret);
      var (st2, q) := Mat(env, open, st1, e.ret);
      MatAllAgain(env, open, st, later, e.params);
      MatAgain(env, open, st1, later, e.ret);
      if !q.IsUnknown() { InternAgain(st2, later, FuncType(qs.value, q)); }
    }
  }

  lemma {:induction false} MatAllAgain(env: Env, open: set<TypeDecl>, st: Storage, later: Storage, ps: seq<ASTType>)
    requires WellFormed(st) && WellFormed(later) && NormalAll(env, open, ps) != Diverges
    requires MatAll(env, open, st, ps).0 <= later
    ensures MatAll(env, open, later, ps) == (later, MatAll(env, open, st, ps).1)
    decreases Aliases(env) - open, ps, 0
  {
    if ps != [] {
      MatMeansNormal(env, open, st, ps[0]);
      var (st1, q) := Mat(env, open, st, ps[0]);
      if q.IsUnknown() {
        MatAgain(env, open, st, later, ps[0]);
      } else {
        MatAllMeansNormal(env, open, st1, ps[1..]);
        MatAgain(env, open, st, later, ps[0]);
        MatAllAgain(env, open, st1, later, ps[1..]);
      }
    }
  }

  lemma {:induction false} MatFieldsAgain(env: Env, open: set<TypeDecl>, st: Storage, later: Storage, fs: seq<Field>)
    requires WellFormed(st) && WellFormed(later) && NormalFields(env, open, fs) != Diverges
    requires MatFields(env, open, st, fs).0 <= later
    ensures MatFields(env, open, later, fs) == (later, MatFields(env, open, st, fs).1)
    decreases Aliases(env) - open, fs, 0
  {
    if fs != [] {
      MatMeansNormal(env, open, st, fs[0].ty);
      var (st1, q) := Mat(env, open, st, fs[0].ty);
      if q.IsUnknown() {
        MatAgain(env, open, st, later, fs[0].ty);
      } else {
        MatFieldsMeansNormal(env, open, st1, fs[1..]);
        MatAgain(env, open, st, later, fs[0].ty);
        MatFieldsAgain(env, open, st1, later, fs[1..]);
      }
    }
  }

  lemma InternAgain(st: Storage, later: Storage, o: TypeObj)
    requires WellFormed(later) && Intern(st, o).0 <= later
    ensures InternQ(later, o) == (later, InternQ(st, o).1)
  {
    InternFindsAddress(later, o, Intern(st, o).1);
  }
}
