/** The driver: from units as the parser delivers them, with acyclic aliases, to analysed units. */
module Driver {
  import opened QualTypes
  import opened LexicalScopes
  import opened AST
  import opened TypeStorage
  import opened TypeContexts
  import opened NormalForms
  import opened AliasExpansion
  import opened Programs
  import opened ScopeTrees
  import opened SymbolTables
  import opened Diagnostics
  import opened Overloads
  import opened ForwardDeclareFunctions
  import opened FunctionPass
  import opened TypeCheckPass
  import opened ScopeContents
  import opened PipelineSpecs
  import opened Pipeline
  import opened Analyses
  import opened Builtins
  import opened TypeNames

  // More type nodes do no harm.

  lemma {:induction false} BlockPlacedMore(b: BlockStmt, outer: ScopedASTNode, nodes: set<ScopedASTNode>,
                                           owner: Owner, more: Owner)
    requires BlockPlaced(b, outer, nodes, owner)
    ensures BlockPlaced(b, outer, nodes, owner + more)
  {
    hide StmtPlaced;
    forall s | s in b.stmts
      ensures StmtPlaced(s, b.node, nodes, owner + more)
    {
      StmtPlacedMore(s, b.node, nodes, owner, more);
    }
  }

  lemma {:induction false} ExprPlacedMore(e: Expr, outer: ScopedASTNode, nodes: set<ScopedASTNode>, owner: Owner,
                                          more: Owner)
    requires ExprPlaced(e, outer, nodes, owner)
    ensures ExprPlaced(e, outer, nodes, owner + more)
  {
    hide BlockPlaced;
    forall b | b in e.blocks
      ensures BlockPlaced(b, outer, nodes, owner + more)
    {
      BlockPlacedMore(b, outer, nodes, owner, more);
    }
  }

  lemma {:induction false} StmtPlacedMore(s: Stmt, outer: ScopedASTNode, nodes: set<ScopedASTNode>, owner: Owner,
                                          more: Owner)
    requires StmtPlaced(s, outer, nodes, owner)
    ensures StmtPlaced(s, outer, nodes, owner + more)
  {
    hide ExprPlaced, BlockPlaced;
    match s {
      case VarStmt(v) => if v.initializer.Some? { ExprPlacedMore(v.initializer.value, outer, nodes, owner, more); }
      case TypeStmt(_) =>
      case ExprStmt(e) => ExprPlacedMore(e, outer, nodes, owner, more);
      case NestedBlock(b) => BlockPlacedMore(b, outer, nodes, owner, more);
    }
  }

  lemma {:induction false} FuncDeepMore(f: FuncDecl, nodes: set<ScopedASTNode>, owner: Owner, more: Owner)
    requires FuncDeep(f, nodes, owner)
    ensures FuncDeep(f, nodes, owner + more)
  {
    hide ExprPlaced, BlockPlaced;
    if f.body.Some? {
      BlockPlacedMore(f.body.value, f.node, nodes, owner, more);
    }
    forall p | p in f.params && p.defaultValue.Some?
      ensures ExprPlaced(p.defaultValue.value, f.node, nodes, owner + more)
    {
      ExprPlacedMore(p.defaultValue.value, f.node, nodes, owner, more);
    }
  }

  lemma {:induction false} LocatedMore(d: Decl, root: ScopedASTNode, nodes: set<ScopedASTNode>, owner: Owner,
                                       more: Owner)
    requires Located(d, root, nodes, owner)
    ensures Located(d, root, nodes, owner + more)
  {
    hide StmtPlaced, FuncDeep;
    match d {
      case VarD(v) => StmtPlacedMore(VarStmt(v), root, nodes, owner, more);
      case FuncD(f) => FuncDeepMore(f, nodes, owner, more);
      case ImplD(i) => forall f | f in i.impls ensures FuncDeep(f, nodes, owner + more) { FuncDeepMore(f, nodes, owner, more); }
      case _ =>
    }
  }

  // The builtins' own type nodes.

  ghost function BuiltinSlots(builtins: Env): set<TypeSlot> {
    set n | n in builtins :: builtins[n].declaredType.slot
  }

  ghost predicate OwnSlots(builtins: Env) {
    forall n, n' :: n in builtins && n' in builtins && n != n' ==> builtins[n].declaredType.slot != builtins[n'].declaredType.slot
  }

  ghost function BuiltinOwner(builtins: Env): Owner
    requires OwnSlots(builtins)
  {
    map n | n in builtins :: builtins[n].declaredType.slot := builtins[n].declaredType
  }

  lemma {:induction false} BuiltinsAreOwned(builtins: Env, owner: Owner)
    requires AreBuiltins(builtins) && OwnSlots(builtins) && owner.Keys !! BuiltinSlots(builtins)
    ensures BuiltinOwner(builtins).Keys == BuiltinSlots(builtins)
    ensures forall n :: n in builtins ==> Owned(owner + BuiltinOwner(builtins), builtins[n].declaredType)
  {
    forall n | n in builtins
      ensures Owned(owner + BuiltinOwner(builtins), builtins[n].declaredType)
    {
      assert BuiltinOwner(builtins)[builtins[n].declaredType.slot] == builtins[n].declaredType;
    }
  }

  /** The builtins rank below every alias of a file. */
  lemma {:induction false} AcyclicWithBuiltins(builtins: Env, types: Env, rank: map<TypeDecl,
                                               nat>) returns (rank': map<TypeDecl, nat>)
    requires AreBuiltins(builtins) && AcyclicUses(types, rank)
    ensures AcyclicUses(builtins + types, rank')
  {
    var env := builtins + types;
    rank' := map d | d in rank.Keys + builtins.Values :: if d in builtins.Values then 0 else rank[d] + 1;
    forall d | d in Aliases(env)
      ensures d in rank' && RankedBelow(env, rank', d.declaredType, rank'[d])
    {
      var n :| n in env && env[n] == d;
      if d in builtins.Values {
        var b :| b in builtins && builtins[b] == d;
        assert d.declaredType.ASTBuiltinType?;
      } else {
        assert n in types && types[n] == d && d in Aliases(types);
        forall l | l in AliasExpansion.Leaves(d.declaredType) && ToAlias(env, l)
          ensures env[l.symbol] in rank' && rank'[env[l.symbol]] < rank'[d]
        {
          if env[l.symbol] !in builtins.Values {
            assert l.symbol in types && ToAlias(types, l);
          }
        }
      }
    }
  }

  /** A unit on its own: what the parser guarantees, and a ranking that shows its aliases acyclic. */
  ghost predicate UnitParsed(p: ProgramDecl, owner: Owner, rank: map<TypeDecl, nat>) {
    && Placed(p) && UnitDistinct(p) && Shaped(p.decls)
    && (forall d :: d in p.decls ==> Located(d, p.node, UnitNodes(p), owner))
    && (forall r :: r in Roots(p) ==> Owned(Outer(owner, p), r.ty))
    && AcyclicUses(FirstTypes(p.decls), rank)
  }

  lemma {:induction false} ParsedIsShaped(builtins: Env, p: ProgramDecl, owner: Owner, rank: map<TypeDecl, nat>)
    requires UnitParsed(p, owner, rank) && AreBuiltins(builtins) && OwnSlots(builtins)
             && owner.Keys !! BuiltinSlots(builtins)
    ensures UnitShaped(builtins, p, owner + BuiltinOwner(builtins))
  {
    hide Owned, Located, Placed, UnitDistinct, Shaped, AcyclicUses, FirstTypes, DeclsUnder, DeclsLocals, NormalForm;
    var more := BuiltinOwner(builtins);
    LocalsAreOwned(builtins, p, owner);
    BuiltinsAreOwned(builtins, Outer(owner, p));
    assert Outer(owner + more, p) == Outer(owner, p) + more;
    var rank' := AcyclicWithBuiltins(builtins, FirstTypes(p.decls), rank);
    forall r | r in Roots(p)
      ensures Owned(Outer(owner + more, p), r.ty) && NormalForm(EnvOf(builtins, p), r.ty) != Diverges
    {
      OwnedMore(Outer(owner, p), more, r.ty);
      AcyclicUsesEnd(EnvOf(builtins, p), rank', r.ty);
    }
    forall d | d in p.decls
      ensures Located(d, p.node, UnitNodes(p), owner + more)
    {
      LocatedMore(d, p.node, UnitNodes(p), owner, more);
    }
  }

  /** The units of a program share no scoped nodes and no type nodes, and everything in them is as the parser leaves it. */
  ghost predicate Parsed(ps: seq<ProgramDecl>, owners: seq<Owner>, ranks: seq<map<TypeDecl, nat>>, slots: set<TypeSlot>,
                         nodes: set<ScopedASTNode>) {
    && |owners| == |ps| && |ranks| == |ps|
    && (forall k :: 0 <= k < |ps| ==>
          UnitParsed(ps[k], owners[k], ranks[k]) && UnitNodes(ps[k]) <= nodes && owners[k].Keys <= slots)
    && (forall j, k :: 0 <= j < k < |ps| ==> UnitNodes(ps[j]) !! UnitNodes(ps[k]) && owners[j].Keys !! owners[k].Keys)
  }

  ghost function WithBuiltins(builtins: Env, owners: seq<Owner>): seq<Owner>
    requires OwnSlots(builtins)
  {
    seq(|owners|, k requires 0 <= k < |owners| => owners[k] + BuiltinOwner(builtins))
  }

  lemma {:induction false} ParsedIsSetUp(builtins: Env, ps: seq<ProgramDecl>, owners: seq<Owner>,
                                         ranks: seq<map<TypeDecl, nat>>,
                                         slots: set<TypeSlot>, nodes: set<ScopedASTNode>)
    requires Parsed(ps, owners, ranks, slots, nodes)
    requires AreBuiltins(builtins) && OwnSlots(builtins) && slots !! BuiltinSlots(builtins)
    ensures Setup(builtins, ps, WithBuiltins(builtins, owners), slots + BuiltinSlots(builtins), nodes)
  {
    hide UnitParsed, UnitShaped, UnitNodes, AreBuiltins, OwnSlots, Separate;
    var owners' := WithBuiltins(builtins, owners);
    forall k | 0 <= k < |ps|
      ensures UnitShaped(builtins, ps[k], owners'[k]) && owners'[k].Keys <= slots + BuiltinSlots(builtins)
    {
      ParsedIsShaped(builtins, ps[k], owners[k], ranks[k]);
      BuiltinsAreOwned(builtins, owners[k]);
    }
    forall j, k | 0 <= j < |ps| && 0 <= k < |ps| && j != k
      ensures Separate(builtins, ps[j], owners'[j], ps[k], owners'[k])
    {
      ParsedIsSeparate(builtins, ps[j], owners[j], ranks[j], ps[k], owners[k]);
    }
  }

  lemma {:induction false} OwnsItsSlot(owner: Owner, e: ASTType)
    requires Owned(owner, e)
    ensures e.slot in owner
  {
  }

  lemma {:induction false} ParsedIsSeparate(builtins: Env, p: ProgramDecl, owner: Owner, rank: map<TypeDecl, nat>,
                                            p': ProgramDecl, owner': Owner)
    requires UnitParsed(p, owner, rank) && AreBuiltins(builtins) && OwnSlots(builtins)
    requires UnitNodes(p) !! UnitNodes(p') && owner.Keys !! owner'.Keys
    requires owner.Keys !! BuiltinSlots(builtins) && owner'.Keys !! BuiltinSlots(builtins)
    ensures Separate(builtins, p, owner + BuiltinOwner(builtins), p', owner' + BuiltinOwner(builtins))
  {
    hide Placed, UnitDistinct, Shaped, DeclDeep, AcyclicUses, UnitNodes, AreBuiltins, OwnSlots, Owned, DeclsLocals;
    BuiltinsAreOwned(builtins, owner);
    LocalsAreOwned(builtins, p, owner);
    forall r | r in Roots(p) ensures r.ty.slot in owner {
      OwnsItsSlot(Outer(owner, p), r.ty);
    }
  }

  /** The whole analysis. It goes through exactly if no unit has a typed function after an untyped first one of its name;
      then every reference outside blocks is bound to what its name means, every expression there has the type its normal
      form says, no type inside a block is resolved, every scope down to the innermost block's is exact, the function lists
      are exact and without repeats, and the global scope still holds the builtins and nothing else. */
  method Analyse(ps: seq<ProgramDecl>, dc: DiagnosticConsumer, ghost owners: seq<Owner>,
                 ghost ranks: seq<map<TypeDecl, nat>>,
                 ghost slots: set<TypeSlot>, ghost nodes: set<ScopedASTNode>)
    returns (ok: bool, lc: LexicalContext<Decl>, tc: TypeContext, ghost builtins: Env)
    requires Parsed(ps, owners, ranks, slots, nodes)
    requires forall s :: s in slots ==> s.declNode == null && s.ty == UNKNOWN
    requires forall n :: n in nodes ==> n.scope == null
    modifies nodes, slots, dc
    ensures TreeOk(lc.scopeStorage, ScopesOf(nodes)) && tc.Valid()
    ensures AreBuiltins(builtins) && OwnSlots(builtins) && lc.scopeStorage[0].symbolTable == TypeTable(builtins)
    ensures ok <==> forall k :: 0 <= k < |ps| ==> !UnitUnjudgeable(EnvOf(builtins, ps[k]), ps[k].decls)
    ensures ok ==> World(builtins, ps, WithBuiltins(builtins, owners), |ps|, SlotsOf(slots + BuiltinSlots(builtins)), tc.storage,
                         TablesOf(nodes), ScopesOf(nodes), tc.impls)
  {
    hide Nested, OneEach, Grown, Consistent, WellFormed, UnitParsed, UnitShaped, UnitNodes, AreBuiltins, TypeTable,
         EnvOf, UnitUnjudgeable,
         World, Setup, Parsed, TablesOf, WithBuiltins;
    lc, tc, builtins := Start(nodes);
    ghost var all := slots + BuiltinSlots(builtins);
    ParsedIsSetUp(builtins, ps, owners, ranks, slots, nodes);
    ParsedLengths(builtins, ps, owners, ranks, slots, nodes);
    ValidIsWellFormed(tc);
    FreshWorld(builtins, ps, WithBuiltins(builtins, owners), all, nodes, SlotsOf(all), tc.storage, TablesOf(nodes),
               ScopesOf(nodes));
    ok := AnalyseUnits(ps, lc, tc, dc, builtins, WithBuiltins(builtins, owners), all, nodes);
  }

  lemma {:induction false} ParsedLengths(builtins: Env, ps: seq<ProgramDecl>, owners: seq<Owner>,
                                         ranks: seq<map<TypeDecl, nat>>,
                                         slots: set<TypeSlot>, nodes: set<ScopedASTNode>)
    requires Parsed(ps, owners, ranks, slots, nodes) && OwnSlots(builtins)
    ensures |WithBuiltins(builtins, owners)| == |ps|
  {
  }

  /** The name each builtin's type is printed under. Five are printed as they are written. */
  lemma {:induction false} BuiltinsPrintAs(builtins: Env, p: ProgramDecl, name: string, slot: TypeSlot)
    requires AreBuiltins(builtins) && name !in FirstTypes(p.decls) && name in builtins
    ensures NormalForm(EnvOf(builtins, p), ASTDeclTypeRef(name, slot)).Known?
    ensures LeafName(NormalForm(EnvOf(builtins, p), ASTDeclTypeRef(name, slot)).value) ==
            match name
            case "void" => Some("unit")
            case "bool" => Some("i1")
            case "char" => Some("i8")
            case _ => Some(name)
  {
    BuiltinsMean(builtins, p, name, slot);
  }

  ghost function LeafName(t: SemType): Option<string> {
    match t
    case SUnit => Some(UNIT_NAME)
    case SBuiltin(n) => Some(NativeName(n))
    case _ => None
  }

  // The failing assertion, on `func f(x: U): void` and `func f(x: i32): void` where nothing is named `U`.

  /** The type of a function that takes one parameter of the type named, and returns nothing. */
  ghost predicate TakesOne(f: FuncDecl, param: string) {
    && f.declaredType.ASTFunctionType? && |f.declaredType.params| == 1
    && f.declaredType.params[0].ASTDeclTypeRef? && f.declaredType.params[0].symbol == param
    && f.declaredType.ret.ASTDeclTypeRef? && f.declaredType.ret.symbol == "void"
  }

  lemma {:induction false} OneParameter(builtins: Env, p: ProgramDecl, f: FuncDecl, param: string)
    requires AreBuiltins(builtins) && FirstTypes(p.decls) == map[] && TakesOne(f, param)
    ensures Sig(EnvOf(builtins, p), f).Some? <==> NativeNamed(param).Some?
  {
    var env, ps := EnvOf(builtins, p), f.declaredType.params;
    BuiltinsMean(builtins, p, param, ps[0].slot);
    BuiltinsMean(builtins, p, "void", f.declaredType.ret.slot);
    assert ps[0] == ASTDeclTypeRef(param, ps[0].slot);
    assert f.declaredType.ret == ASTDeclTypeRef("void", f.declaredType.ret.slot);
    assert NormalForm(env, f.declaredType.ret).Known?;
    assert NormalAll(env, {}, ps[1..]) == Known([]);
    assert NativeNamed(param).Some? ==> NormalNative(NativeNamed(param).value).Known?;
    assert NormalAll(env, {}, ps).Known? <==> NativeNamed(param).Some?;
  }

  /** In one order the two functions stop the analysis; in the other they do not. */
  lemma {:induction false} UntypedFirstFails(builtins: Env, p: ProgramDecl, f: FuncDecl, g: FuncDecl)
    requires AreBuiltins(builtins) && f.name == "f" && g.name == "f" && TakesOne(f, "U") && TakesOne(g, "i32")
    ensures p.decls == [FuncD(f), FuncD(g)] ==> UnitUnjudgeable(EnvOf(builtins, p), p.decls)
    ensures p.decls == [FuncD(g), FuncD(f)] ==> !UnitUnjudgeable(EnvOf(builtins, p), p.decls)
  {
    hide Sig, AreBuiltins, NativeNamed, EnvOf, TakesOne;
    NotNatives();
    if p.decls == [FuncD(f), FuncD(g)] {
      TwoFunctions(p.decls, f, g);
      OneParameter(builtins, p, f, "U");
      OneParameter(builtins, p, g, "i32");
      assert IsFirst([f, g][..1], 0, "f");
      assert UnjudgeableAt(EnvOf(builtins, p), map[], [f, g], 1);
    }
    if p.decls == [FuncD(g), FuncD(f)] {
      TwoFunctions(p.decls, g, f);
      OneParameter(builtins, p, f, "U");
      OneParameter(builtins, p, g, "i32");
    }
  }

  lemma {:induction false} NotNatives()
    ensures NativeNamed("U").None? && NativeNamed("i32").Some?
  {
  }

  lemma {:induction false} TwoFunctions(ds: seq<Decl>, f: FuncDecl, g: FuncDecl)
    requires ds == [FuncD(f), FuncD(g)]
    ensures FirstTypes(ds) == map[] && FuncsOf(ds) == [f, g]
  {
    assert ds[..1][..0] == [] && ds[..1][0] == FuncD(f);
    assert FirstTypes(ds[..1]) == map[] && FuncsOf(ds[..1]) == [f];
    assert ds[..|ds| - 1] == ds[..1] && ds[1] == FuncD(g);
  }
}
