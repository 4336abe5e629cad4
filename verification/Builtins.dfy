/** The names every program starts with: aliases of native types in the global scope. */
module Builtins {
  import opened QualTypes
  import opened LexicalScopes
  import opened AST
  import opened TypeStorage
  import opened TypeContexts
  import opened NormalForms
  import opened Programs
  import opened ScopeTrees

  /** Which native type a builtin name stands for. There is no `i1`, `i8` or `i16`. */
  function NativeNamed(name: string): Option<ASTNativeType> {
    match name
    case "void" => Some(VoidN)
    case "bool" => Some(I1N)
    case "char" => Some(I8N)
    case "i32" => Some(I32N)
    case "i64" => Some(I64N)
    case "f32" => Some(F32N)
    case "f64" => Some(F64N)
    case "string" => Some(StringN)
    case _ => None
  }

  ghost predicate IsAliasOfNative(d: TypeDecl, name: string) {
    d.isUse && d.declaredType.ASTBuiltinType? && NativeNamed(name) == Some(d.declaredType.native)
  }

  /** Each such name is bound to an alias of its native type, and no other name is bound. */
  ghost predicate AreBuiltins(builtins: Env) {
    && (forall name :: name in builtins <==> NativeNamed(name).Some?)
    && (forall name :: name in builtins ==> IsAliasOfNative(builtins[name], name))
  }

  /** No two builtins share a type node, and none has been resolved yet. */
  ghost predicate FreshSlots(builtins: Env)
    reads set n | n in builtins :: builtins[n].declaredType.slot
  {
    && (forall n :: n in builtins ==>
          builtins[n].declaredType.slot.declNode == null && builtins[n].declaredType.slot.ty == UNKNOWN)
    && (forall n, n' :: n in builtins && n' in builtins && n != n' ==>
          builtins[n].declaredType.slot != builtins[n'].declaredType.slot)
  }

  const NAMES: seq<string> := ["void", "bool", "char", "i32", "i64", "f32", "f64", "string"]

  /** The first `k` names are bound. */
  ghost predicate SoFar(builtins: Env, k: nat)
    requires k <= |NAMES|
    reads set n | n in builtins :: builtins[n].declaredType.slot
  {
    && FreshSlots(builtins) && (forall name :: name in builtins <==> name in NAMES[..k])
    && forall name :: name in builtins ==> IsAliasOfNative(builtins[name], name)
  }

  method InsertBuiltin(global: Scope, symbol: string, name: string, native: ASTNativeType, ghost builtins: Env,
                       ghost k: nat)
    returns (ghost builtins': Env)
    requires k < |NAMES| && symbol == NAMES[k] && NativeNamed(symbol) == Some(native)
    requires SoFar(builtins, k) && global.symbolTable == TypeTable(builtins)
    modifies global
    ensures SoFar(builtins', k + 1) && global.symbolTable == TypeTable(builtins')
    ensures symbol in builtins' && builtins' == builtins[symbol := builtins'[symbol]]
            && fresh(builtins'[symbol].declaredType.slot)
  {
    hide NativeNamed, TypeTable;
    NamesAreDistinct(k);
    var slot := new TypeSlot();
    var use := new TypeDecl(name, true, ASTBuiltinType(native, slot));
    builtins' := builtins[symbol := use];
    TableWithOneMore(builtins, symbol, use);
    global.Insert(symbol, TypeD(use));
  }

  lemma {:induction false} TableWithOneMore(builtins: Env, symbol: string, use: TypeDecl)
    ensures symbol in TypeTable(builtins) <==> symbol in builtins
    ensures TypeTable(builtins)[symbol := [] + [TypeD(use)]] == TypeTable(builtins[symbol := use])
  {
    assert [] + [TypeD(use)] == [TypeD(use)];
  }

  lemma {:induction false} NamesAreDistinct(k: nat)
    requires k < |NAMES|
    ensures NAMES[k] !in NAMES[..k] && NAMES[..k + 1] == NAMES[..k] + [NAMES[k]]
  {
  }

  /** The global scope of a program: the names are inserted in two runs of four. */
  method PopulateBuiltins(global: Scope) returns (ghost builtins: Env)
    requires global.symbolTable == map[]
    modifies global
    ensures global.symbolTable == TypeTable(builtins) && AreBuiltins(builtins) && FreshSlots(builtins)
    ensures forall n :: n in builtins ==> fresh(builtins[n].declaredType.slot)
  {
    hide *;
    NativeNames();
    builtins := PopulateFirst(global);
    builtins := PopulateRest(global, builtins);
    AllBuiltins(builtins);
  }

  method PopulateFirst(global: Scope) returns (ghost builtins: Env)
    requires |NAMES| == 8 && global.symbolTable == map[]
    modifies global
    ensures SoFar(builtins, 4) && global.symbolTable == TypeTable(builtins)
    ensures forall n :: n in builtins ==> fresh(builtins[n].declaredType.slot)
  {
    hide *;
    NoBuiltins();
    NativeNames();
    builtins := map[];
    builtins := InsertBuiltin(global, "void", "void", VoidN, builtins, 0);
    builtins := InsertBuiltin(global, "bool", "bool", I1N, builtins, 1);
    builtins := InsertBuiltin(global, "char", "i8", I8N, builtins, 2);
    builtins := InsertBuiltin(global, "i32", "i32", I32N, builtins, 3);
  }

  method PopulateRest(global: Scope, ghost four: Env) returns (ghost builtins: Env)
    requires |NAMES| == 8 && SoFar(four, 4) && global.symbolTable == TypeTable(four)
    modifies global
    ensures SoFar(builtins, 8) && global.symbolTable == TypeTable(builtins)
    ensures forall n :: n in builtins ==> (n in four && builtins[n] == four[n]) || fresh(builtins[n].declaredType.slot)
  {
    hide *;
    NativeNames();
    builtins := four;
    builtins := InsertBuiltin(global, "i64", "i64", I64N, builtins, 4);
    builtins := InsertBuiltin(global, "f32", "f32", F32N, builtins, 5);
    builtins := InsertBuiltin(global, "f64", "f64", F64N, builtins, 6);
    builtins := InsertBuiltin(global, "string", "string", StringN, builtins, 7);
  }

  lemma {:induction false} NativeNames()
    ensures |NAMES| == 8
    ensures NAMES[0] == "void" && NativeNamed("void") == Some(VoidN)
    ensures NAMES[1] == "bool" && NativeNamed("bool") == Some(I1N)
    ensures NAMES[2] == "char" && NativeNamed("char") == Some(I8N)
    ensures NAMES[3] == "i32" && NativeNamed("i32") == Some(I32N)
    ensures NAMES[4] == "i64" && NativeNamed("i64") == Some(I64N)
    ensures NAMES[5] == "f32" && NativeNamed("f32") == Some(F32N)
    ensures NAMES[6] == "f64" && NativeNamed("f64") == Some(F64N)
    ensures NAMES[7] == "string" && NativeNamed("string") == Some(StringN)
  {
  }

  lemma {:induction false} NoBuiltins()
    ensures TypeTable(map[]) == map[] && SoFar(map[], 0)
  {
  }

  lemma {:induction false} AllBuiltins(builtins: Env)
    requires |NAMES| == 8 && SoFar(builtins, 8)
    ensures AreBuiltins(builtins) && FreshSlots(builtins)
  {
    assert NAMES[..8] == NAMES;
  }

  /** What a name that a unit does not declare means in it: its native type, or nothing. */
  lemma {:induction false} BuiltinsMean(builtins: Env, p: ProgramDecl, name: string, slot: TypeSlot)
    requires AreBuiltins(builtins) && name !in FirstTypes(p.decls)
    ensures NormalForm(EnvOf(builtins, p), ASTDeclTypeRef(name, slot)) ==
            match NativeNamed(name)
            case Some(native) => NormalNative(native)
            case None => Unknown
  {
    var env := EnvOf(builtins, p);
    if name in builtins {
      var native := builtins[name].declaredType.native;
      assert Normal(env, {} + {env[name]}, env[name].declaredType) == NormalNative(native);
    }
  }

  /** Unless the unit declares the name itself, it stands for this type. */
  ghost predicate StandsFor(builtins: Env, p: ProgramDecl, name: string, slot: TypeSlot, t: SemType) {
    name !in FirstTypes(p.decls) ==> NormalForm(EnvOf(builtins, p), ASTDeclTypeRef(name, slot)) == Known(t)
  }

  /** The builtins one by one: eight different types. */
  lemma {:induction false} BuiltinsSpelledOut(builtins: Env, p: ProgramDecl, slot: TypeSlot)
    requires AreBuiltins(builtins)
    ensures StandsFor(builtins, p, "void", slot, SUnit) && StandsFor(builtins, p, "bool", slot, SBuiltin(I1))
    ensures StandsFor(builtins, p, "char", slot, SBuiltin(I8)) && StandsFor(builtins, p, "i32", slot, SBuiltin(I32))
    ensures StandsFor(builtins, p, "i64", slot, SBuiltin(I64)) && StandsFor(builtins, p, "f32", slot, SBuiltin(F32))
    ensures StandsFor(builtins, p, "f64", slot, SBuiltin(F64)) && StandsFor(builtins, p, "string", slot, SBuiltin(Str))
  {
    hide NormalForm, FirstTypes, StandsFor;
    NativeNames();
    BuiltinStandsFor(builtins, p, "void", slot, VoidN, SUnit);
    BuiltinStandsFor(builtins, p, "bool", slot, I1N, SBuiltin(I1));
    BuiltinStandsFor(builtins, p, "char", slot, I8N, SBuiltin(I8));
    BuiltinStandsFor(builtins, p, "i32", slot, I32N, SBuiltin(I32));
    BuiltinStandsFor(builtins, p, "i64", slot, I64N, SBuiltin(I64));
    BuiltinStandsFor(builtins, p, "f32", slot, F32N, SBuiltin(F32));
    BuiltinStandsFor(builtins, p, "f64", slot, F64N, SBuiltin(F64));
    BuiltinStandsFor(builtins, p, "string", slot, StringN, SBuiltin(Str));
  }

  lemma {:induction false} BuiltinStandsFor(builtins: Env, p: ProgramDecl, name: string, slot: TypeSlot,
                                            native: ASTNativeType, t: SemType)
    requires AreBuiltins(builtins) && NativeNamed(name) == Some(native) && NormalNative(native) == Known(t)
    ensures StandsFor(builtins, p, name, slot, t)
  {
    hide NormalForm, FirstTypes, NormalNative;
    if name !in FirstTypes(p.decls) {
      BuiltinsMean(builtins, p, name, slot);
    }
  }

  /** The state before the first unit. */
  method Start(ghost nodes: set<ScopedASTNode>) returns (lc: LexicalContext<Decl>, tc: TypeContext, ghost builtins: Env)
    requires forall n :: n in nodes ==> n.scope == null
    ensures fresh(lc) && fresh(tc) && TreeOk(lc.scopeStorage, ScopesOf(nodes)) && tc.Valid() && tc.impls == map[]
    ensures lc.scopeStorage[0].symbolTable == TypeTable(builtins) && AreBuiltins(builtins) && FreshSlots(builtins)
    ensures forall n :: n in builtins ==> fresh(builtins[n].declaredType.slot)
    ensures forall n :: n in nodes ==> n.scope == null
  {
    lc := new LexicalContext();
    var global := lc.CreateNewScope(ScopeKind.Global, null);
    builtins := PopulateBuiltins(global);
    tc := new TypeContext();
  }
}
