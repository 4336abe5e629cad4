/** What a type expression means: its normal form under the declarations in scope.
    References are bound by name, `use` aliases are expanded, `type` names stay opaque,
    and `mut` and `nullable` leave no trace. */
module NormalForms {
  import opened QualTypes
  import opened AST
  import opened TypeStorage

  /** The type declaration each name in scope is bound to. */
  type Env = map<string, TypeDecl>

  datatype Norm<+T> = Known(value: T) | Unknown | Diverges {
    predicate IsFailure() {
      !Known?
    }

    function PropagateFailure<U>(): Norm<U>
      requires IsFailure()
    {
      if Unknown? then Norm<U>.Unknown else Norm<U>.Diverges
    }

    function Extract(): T
      requires Known?
    {
      value
    }
  }

  ghost function Aliases(env: Env): set<TypeDecl> {
    set d | d in env.Values && d.isUse
  }

  function NormalNative(n: ASTNativeType): Norm<SemType> {
    match n
    case VoidN => Known(SUnit)
    case I1N => Known(SBuiltin(I1))
    case I8N => Known(SBuiltin(I8))
    case I32N => Known(SBuiltin(I32))
    case I64N => Known(SBuiltin(I64))
    case F32N => Known(SBuiltin(F32))
    case F64N => Known(SBuiltin(F64))
    case StringN => Known(SBuiltin(Str))
    case UnknownN => Unknown
  }

  function Unqualified(t: SemType): SemQual {
    SemQual(Some(t), false)
  }

  /** The normal form of an expression met while the aliases in `open` are being expanded.
      Meeting one of those again means that expansion never ends. */
  ghost function Normal(env: Env, open: set<TypeDecl>, e: ASTType): Norm<SemType>
    decreases Aliases(env) - open, e, 1
  {
    match e
    case ASTBuiltinType(n, _) => NormalNative(n)
    case ASTDeclTypeRef(s, _) =>
      if s !in env then Unknown
      else if !env[s].isUse then Known(SNamed(env[s]))
      else if env[s] in open then Diverges
      else
        assert env[s] in Aliases(env) - open;
        Normal(env, open + {env[s]}, env[s].declaredType)
    case ASTQualType(t, _) => Normal(env, open, t)
    case ASTPointerType(t, _, _) =>
      var s :- Normal(env, open, t);
      Known(SPointer(Unqualified(s)))
    case ASTArrayType(t, _) =>
      var s :- Normal(env, open, t);
      Known(SArray(Unqualified(s)))
    case ASTFunctionType(ps, r, _) =>
      var ss :- NormalAll(env, open, ps);
      var s :- Normal(env, open, r);
      Known(SFunc(ss, Unqualified(s)))
    case ASTObjectType(fs, _) =>
      var m :- NormalFields(env, open, fs);
      Known(SObject(m))
    case ASTEnumType(fs, _) =>
      var m :- NormalFields(env, open, fs);
      Known(SEnum(m))
  }

  ghost function NormalAll(env: Env, open: set<TypeDecl>, ps: seq<ASTType>): Norm<seq<SemQual>>
    decreases Aliases(env) - open, ps, 0
  {
    if ps == [] then Known([])
    else
      var s :- Normal(env, open, ps[0]);
      var ss :- NormalAll(env, open, ps[1..]);
      Known([Unqualified(s)] + ss)
  }

  /** Fields form a finite map; of several fields with one name, the first counts. */
  ghost function NormalFields(env: Env, open: set<TypeDecl>, fs: seq<Field>): Norm<map<string, SemQual>>
    decreases Aliases(env) - open, fs, 0
  {
    if fs == [] then Known(map[])
    else
      var s :- Normal(env, open, fs[0].ty);
      var m :- NormalFields(env, open, fs[1..]);
      Known(m[fs[0].name := Unqualified(s)])
  }

  /** Outside any expansion. */
  ghost function NormalForm(env: Env, e: ASTType): Norm<SemType> {
    Normal(env, {}, e)
  }

  /** `mut` and `nullable` leave no trace. */
  lemma {:induction false} QualifiersAreForgotten(env: Env, t: ASTType, nullable: bool, slot: TypeSlot, slot': TypeSlot)
    ensures NormalForm(env, ASTQualType(t, slot)) == NormalForm(env, t)
    ensures NormalForm(env, ASTPointerType(t, nullable, slot)) == NormalForm(env, ASTPointerType(t, !nullable, slot'))
  {
  }

  /** The fields of a known object or enum type are those of the names written. */
  lemma {:induction false} FieldNames(env: Env, open: set<TypeDecl>, fs: seq<Field>)
    requires NormalFields(env, open, fs).Known?
    ensures forall n :: n in NormalFields(env, open, fs).value <==> exists f :: f in fs && f.name == n
  {
    hide Normal;
    if fs != [] {
      FieldNames(env, open, fs[1..]);
      assert forall f :: f in fs <==> f == fs[0] || f in fs[1..];
    }
  }

  /** Each has the type of the first field of its name. */
  lemma {:induction false} FirstFieldCounts(env: Env, open: set<TypeDecl>, fs: seq<Field>, i: nat)
    requires NormalFields(env, open, fs).Known? && i < |fs|
    requires forall j :: 0 <= j < i ==> fs[j].name != fs[i].name
    ensures Normal(env, open, fs[i].ty).Known? && fs[i].name in NormalFields(env, open, fs).value
    ensures NormalFields(env, open, fs).value[fs[i].name] == Unqualified(Normal(env, open, fs[i].ty).value)
  {
    hide Normal;
    if i > 0 {
      assert forall j :: 0 <= j < i - 1 ==> fs[1..][j].name == fs[j + 1].name;
      FirstFieldCounts(env, open, fs[1..], i - 1);
    }
  }

  // The path of open aliases only matters for divergence.

  lemma {:induction false} NormalIgnoresOpen(env: Env, open: set<TypeDecl>, open': set<TypeDecl>, e: ASTType)
    requires open <= open' && Normal(env, open', e) != Diverges
    ensures Normal(env, open, e) == Normal(env, open', e)
    decreases Aliases(env) - open', e, 1
  {
    match e {
      case ASTDeclTypeRef(s, _) =>
        if s in env && env[s].isUse {
          NormalIgnoresOpen(env, open + {env[s]}, open' + {env[s]}, env[s].declaredType);
        }
      case ASTQualType(t, _) => NormalIgnoresOpen(env, open, open', t);
      case ASTPointerType(t, _, _) => NormalIgnoresOpen(env, open, open', t);
      case ASTArrayType(t, _) => NormalIgnoresOpen(env, open, open', t);
      case ASTFunctionType(ps, r, _) =>
        NormalAllIgnoresOpen(env, open, open', ps);
        if NormalAll(env, open', ps).Known? { NormalIgnoresOpen(env, open, open', r); }
      case ASTObjectType(fs, _) => NormalFieldsIgnoresOpen(env, open, open', fs);
      case ASTEnumType(fs, _) => NormalFieldsIgnoresOpen(env, open, open', fs);
      case _ =>
    }
  }

  lemma {:induction false} NormalAllIgnoresOpen(env: Env, open: set<TypeDecl>, open': set<TypeDecl>, ps: seq<ASTType>)
    requires open <= open' && NormalAll(env, open', ps) != Diverges
    ensures NormalAll(env, open, ps) == NormalAll(env, open', ps)
    decreases Aliases(env) - open', ps, 0
  {
    if ps != [] {
      NormalIgnoresOpen(env, open, open', ps[0]);
      if Normal(env, open', ps[0]).Known? { NormalAllIgnoresOpen(env, open, open', ps[1..]); }
    }
  }

  lemma {:induction false} NormalFieldsIgnoresOpen(env: Env, open: set<TypeDecl>, open': set<TypeDecl>, fs: seq<Field>)
    requires open <= open' && NormalFields(env, open', fs) != Diverges
    ensures NormalFields(env, open, fs) == NormalFields(env, open', fs)
    decreases Aliases(env) - open', fs, 0
  {
    if fs != [] {
      NormalIgnoresOpen(env, open, open', fs[0].ty);
      if Normal(env, open', fs[0].ty).Known? { NormalFieldsIgnoresOpen(env, open, open', fs[1..]); }
    }
  }
}
