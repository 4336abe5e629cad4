/** The second sub-pass: every type reference is bound to the declaration the scope chain gives its name. */
module ResolveTypeSymbols {
  import opened QualTypes
  import opened LexicalScopes
  import opened AST
  import opened NormalForms
  import opened Programs
  import opened Diagnostics

  /** The declarations of the nearest scope in a chain that has the symbol. */
  ghost function LookupIn(chain: seq<LexicalScope<Decl>>, symbol: string): Option<seq<Decl>>
    reads chain
  {
    if chain == [] then None
    else if symbol in chain[0].symbolTable then Some(chain[0].symbolTable[symbol])
    else LookupIn(chain[1..], symbol)
  }

  lemma {:induction false} NearestIsLookedUp(chain: seq<LexicalScope<Decl>>, symbol: string, i: nat)
    requires i < |chain| && NearestAt(symbol, chain, i)
    ensures LookupIn(chain, symbol) == Some(chain[i].symbolTable[symbol])
  {
    if i > 0 {
      assert symbol !in chain[0].symbolTable;
      assert forall j :: 0 <= j < i - 1 ==> chain[1..][j] == chain[j + 1];
      NearestIsLookedUp(chain[1..], symbol, i - 1);
    }
  }

  lemma {:induction false} AbsentIsLookedUp(chain: seq<LexicalScope<Decl>>, symbol: string)
    requires forall i :: 0 <= i < |chain| ==> symbol !in chain[i].symbolTable
    ensures LookupIn(chain, symbol) == None
  {
    if chain != [] {
      assert forall j :: 0 <= j < |chain| - 1 ==> chain[1..][j] == chain[j + 1];
      AbsentIsLookedUp(chain[1..], symbol);
    }
  }

  /** Looking up a symbol from a scope, as the code does it. */
  method Lookup(ls: LexicalScope<Decl>, symbol: string,
                ghost chain: seq<LexicalScope<Decl>>) returns (decls: Option<seq<Decl>>)
    requires IsChain(ls, chain)
    ensures decls == LookupIn(chain, symbol)
  {
    var scope := ls.Find(symbol, chain);
    if scope.None? {
      AbsentIsLookedUp(chain, symbol);
      return None;
    }
    ghost var i :| 0 <= i < |chain| && NearestAt(symbol, chain, i) && scope.value == chain[i];
    NearestIsLookedUp(chain, symbol, i);
    return Some(scope.value.GetDecls(symbol));
  }

  /** Along this chain, a type name is found exactly when the environment binds it, as that one declaration. */
  ghost predicate Sees(chain: seq<LexicalScope<Decl>>, env: Env)
    reads chain
  {
    forall symbol: string ::
      LookupIn(chain, symbol) == if symbol in env then Some([TypeD(env[symbol])]) else None
  }

  ghost function BoundDecl(env: Env, symbol: string): TypeDecl? {
    if symbol in env then env[symbol] else null
  }

  /** One reference: nothing found, a type or alias, or some other declaration; never several declarations. */
  method VisitRef(symbol: string, slot: TypeSlot, ls: LexicalScope<Decl>, ghost chain: seq<LexicalScope<Decl>>,
                  dc: DiagnosticConsumer)
    requires IsChain(ls, chain)
    requires LookupIn(chain, symbol).Some? ==> |LookupIn(chain, symbol).value| == 1
    modifies slot`declNode, dc
    ensures match old(LookupIn(chain, symbol))
            case None =>
              slot.declNode == old(slot.declNode) && dc.emitted == old(dc.emitted) + [UndefinedTypeReference(symbol)]
            case Some(decls) =>
              if decls[0].TypeD? then slot.declNode == decls[0].t && dc.emitted == old(dc.emitted)
              else slot.declNode == old(slot.declNode)
                   && dc.emitted == old(dc.emitted) + [ReferenceIsNotAType(symbol), PreviouslyDeclared]
  {
    ghost var found := LookupIn(chain, symbol);
    var decls := Lookup(ls, symbol, chain);
    assert decls == found;
    if decls.None? {
      dc.Emit(UndefinedTypeReference(symbol));
      return;
    }
    if !decls.value[0].TypeD? {
      dc.Emit(ReferenceIsNotAType(symbol));
      dc.Emit(PreviouslyDeclared);
      return;
    }
    slot.declNode := decls.value[0].t;
  }

  /** The reports for a type expression: one for each visit of a reference whose name is not bound. */
  ghost function Unresolved(env: Env, e: ASTType): seq<Diagnostic>
    decreases e, 1
  {
    match e
    case ASTBuiltinType(_, _) => []
    case ASTDeclTypeRef(s, _) => if s in env then [] else [UndefinedTypeReference(s)]
    case ASTQualType(t, _) => Unresolved(env, t)
    case ASTPointerType(t, _, _) => Unresolved(env, t)
    case ASTArrayType(t, _) => Unresolved(env, t)
    case ASTFunctionType(ps, r, _) => UnresolvedAll(env, ps) + Unresolved(env, r)
    case ASTObjectType(fs, _) => UnresolvedFields(env, fs)
    case ASTEnumType(fs, _) => UnresolvedFields(env, fs)
  }

  ghost function UnresolvedAll(env: Env, ps: seq<ASTType>): seq<Diagnostic>
    decreases ps, 0
  {
    if ps == [] then [] else Unresolved(env, ps[0]) + UnresolvedAll(env, ps[1..])
  }

  ghost function UnresolvedFields(env: Env, fs: seq<Field>): seq<Diagnostic>
    decreases fs, 0
  {
    if fs == [] then [] else Unresolved(env, fs[0].ty) + UnresolvedFields(env, fs[1..])
  }

  ghost function UnresolvedRoots(env: Env, rs: seq<TypeRoot>): seq<Diagnostic> {
    if rs == [] then [] else Unresolved(env, rs[0].ty) + UnresolvedRoots(env, rs[1..])
  }

  /** The declaration each type node is bound to, as a value. */
  type Binding = map<TypeSlot, TypeDecl?>

  ghost function BindingOf(owner: Owner): Binding
    reads owner.Keys`declNode
  {
    map s | s in owner :: s.declNode
  }

  /** No reference is bound to anything but its declaration. */
  ghost predicate NoneMisbound(env: Env, owner: Owner, b: Binding) {
    && b.Keys == owner.Keys
    && forall s :: s in owner && owner[s].ASTDeclTypeRef? ==> b[s] == null || b[s] == BoundDecl(env, owner[s].symbol)
  }

  /** Bindings once made are kept. */
  ghost predicate Kept(b: Binding, b': Binding) {
    b.Keys == b'.Keys && forall s :: s in b && b[s] != null ==> b'[s] == b[s]
  }

  /** Every reference in the expression is bound to its declaration, or to none if it has none. */
  ghost predicate BoundIn(env: Env, b: Binding, e: ASTType) {
    match e
    case ASTBuiltinType(_, _) => true
    case ASTDeclTypeRef(s, slot) => slot in b && b[slot] == BoundDecl(env, s)
    case ASTQualType(t, _) => BoundIn(env, b, t)
    case ASTPointerType(t, _, _) => BoundIn(env, b, t)
    case ASTArrayType(t, _) => BoundIn(env, b, t)
    case ASTFunctionType(ps, r, _) => (forall p :: p in ps ==> BoundIn(env, b, p)) && BoundIn(env, b, r)
    case ASTObjectType(fs, _) => forall f :: f in fs ==> BoundIn(env, b, f.ty)
    case ASTEnumType(fs, _) => forall f :: f in fs ==> BoundIn(env, b, f.ty)
  }

  /** What an expression is bound to depends on its own references alone. */
  lemma {:induction false} BoundElsewhere(env: Env, owner: Owner, b: Binding, b': Binding, e: ASTType)
    requires Owned(owner, e) && BoundIn(env, b, e)
    requires forall s :: s in owner && s in b && owner[s].ASTDeclTypeRef? ==> s in b' && b'[s] == b[s]
    ensures BoundIn(env, b', e)
  {
    match e {
      case ASTBuiltinType(_, _) =>
      case ASTDeclTypeRef(_, _) =>
      case ASTQualType(t, _) => BoundElsewhere(env, owner, b, b', t);
      case ASTPointerType(t, _, _) => BoundElsewhere(env, owner, b, b', t);
      case ASTArrayType(t, _) => BoundElsewhere(env, owner, b, b', t);
      case ASTFunctionType(ps, r, _) =>
        forall x | x in ps ensures BoundIn(env, b', x) { BoundElsewhere(env, owner, b, b', x); }
        BoundElsewhere(env, owner, b, b', r);
      case ASTObjectType(fs, _) =>
        forall f | f in fs ensures BoundIn(env, b', f.ty) { BoundElsewhere(env, owner, b, b', f.ty); }
      case ASTEnumType(fs, _) =>
        forall f | f in fs ensures BoundIn(env, b', f.ty) { BoundElsewhere(env, owner, b, b', f.ty); }
    }
  }

  lemma {:induction false} BoundStays(env: Env, owner: Owner, b: Binding, b': Binding, e: ASTType)
    requires Owned(owner, e) && NoneMisbound(env, owner, b') && Kept(b, b') && BoundIn(env, b, e)
    ensures BoundIn(env, b', e)
  {
    match e {
      case ASTBuiltinType(_, _) =>
      case ASTDeclTypeRef(_, _) =>
      case ASTQualType(t, _) => BoundStays(env, owner, b, b', t);
      case ASTPointerType(t, _, _) => BoundStays(env, owner, b, b', t);
      case ASTArrayType(t, _) => BoundStays(env, owner, b, b', t);
      case ASTFunctionType(ps, r, _) =>
        forall p | p in ps ensures BoundIn(env, b', p) { BoundStays(env, owner, b, b', p); }
        BoundStays(env, owner, b, b', r);
      case ASTObjectType(fs, _) =>
        forall f | f in fs ensures BoundIn(env, b', f.ty) { BoundStays(env, owner, b, b', f.ty); }
      case ASTEnumType(fs, _) =>
        forall f | f in fs ensures BoundIn(env, b', f.ty) { BoundStays(env, owner, b, b', f.ty); }
    }
  }

  lemma {:induction false} BindingsKeptAtFirst(b: Binding)
    ensures Kept(b, b)
  {
  }

  lemma {:induction false} BindingsKept(b: Binding, b': Binding, b'': Binding)
    requires Kept(b, b') && Kept(b', b'')
    ensures Kept(b, b'')
  {
  }

  lemma {:induction false} NextParam(env: Env, owner: Owner, b: Binding, b': Binding, ps: seq<ASTType>, i: nat)
    requires i < |ps| && (forall p :: p in ps ==> Owned(owner, p))
    requires NoneMisbound(env, owner, b') && Kept(b, b')
    requires (forall p :: p in ps[..i] ==> BoundIn(env, b, p)) && BoundIn(env, b', ps[i])
    ensures forall p :: p in ps[..i + 1] ==> BoundIn(env, b', p)
    ensures UnresolvedAll(env, ps[i..]) == Unresolved(env, ps[i]) + UnresolvedAll(env, ps[i + 1..])
  {
    hide Owned, NoneMisbound, Kept, BoundIn, Unresolved;
    forall p | p in ps[..i] ensures BoundIn(env, b', p) {
      BoundStays(env, owner, b, b', p);
    }
    assert ps[..i + 1] == ps[..i] + [ps[i]];
    assert ps[i..][1..] == ps[i + 1..];
  }

  lemma {:induction false} NextField(env: Env, owner: Owner, b: Binding, b': Binding, fs: seq<Field>, i: nat)
    requires i < |fs| && (forall f :: f in fs ==> Owned(owner, f.ty))
    requires NoneMisbound(env, owner, b') && Kept(b, b')
    requires (forall f :: f in fs[..i] ==> BoundIn(env, b, f.ty)) && BoundIn(env, b', fs[i].ty)
    ensures forall f :: f in fs[..i + 1] ==> BoundIn(env, b', f.ty)
    ensures UnresolvedFields(env, fs[i..]) == Unresolved(env, fs[i].ty) + UnresolvedFields(env, fs[i + 1..])
  {
    hide Owned, NoneMisbound, Kept, BoundIn, Unresolved;
    forall f | f in fs[..i] ensures BoundIn(env, b', f.ty) {
      BoundStays(env, owner, b, b', f.ty);
    }
    assert fs[..i + 1] == fs[..i] + [fs[i]];
    assert fs[i..][1..] == fs[i + 1..];
  }

  method VisitBoundRef(e: ASTType, ls: LexicalScope<Decl>, ghost chain: seq<LexicalScope<Decl>>, dc: DiagnosticConsumer,
                       ghost env: Env, ghost owner: Owner)
    requires IsChain(ls, chain) && Sees(chain, env) && e.ASTDeclTypeRef?
    requires Owned(owner, e) && NoneMisbound(env, owner, BindingOf(owner))
    modifies e.slot`declNode, dc
    ensures NoneMisbound(env, owner, BindingOf(owner)) && Kept(old(BindingOf(owner)), BindingOf(owner))
    ensures e.slot.declNode == BoundDecl(env, e.symbol)
    ensures dc.emitted == old(dc.emitted) + Unresolved(env, e)
  {
    assert LookupIn(chain, e.symbol) == if e.symbol in env then Some([TypeD(env[e.symbol])]) else None;
    VisitRef(e.symbol, e.slot, ls, chain, dc);
  }

  method VisitType(e: ASTType, ls: LexicalScope<Decl>, ghost chain: seq<LexicalScope<Decl>>, dc: DiagnosticConsumer,
                   ghost env: Env, ghost owner: Owner)
    requires IsChain(ls, chain) && Sees(chain, env)
    requires Owned(owner, e) && NoneMisbound(env, owner, BindingOf(owner))
    modifies owner.Keys`declNode, dc
    ensures NoneMisbound(env, owner, BindingOf(owner)) && Kept(old(BindingOf(owner)), BindingOf(owner))
            && BoundIn(env, BindingOf(owner), e)
    ensures dc.emitted == old(dc.emitted) + Unresolved(env, e)
    decreases e, 1
  {
    hide Sees, NoneMisbound;
    match e {
      case ASTBuiltinType(_, _) =>
      case ASTDeclTypeRef(symbol, slot) => VisitBoundRef(e, ls, chain, dc, env, owner);
      case ASTQualType(t, _) => VisitType(t, ls, chain, dc, env, owner);
      case ASTPointerType(t, _, _) => VisitType(t, ls, chain, dc, env, owner);
      case ASTArrayType(t, _) => VisitType(t, ls, chain, dc, env, owner);
      case ASTFunctionType(ps, r, _) =>
        VisitParams(ps, ls, chain, dc, env, owner);
        ghost var before := BindingOf(owner);
        VisitType(r, ls, chain, dc, env, owner);
        forall p | p in ps ensures BoundIn(env, BindingOf(owner), p) {
          BoundStays(env, owner, before, BindingOf(owner), p);
        }
      case ASTObjectType(fs, _) => VisitFields(fs, ls, chain, dc, env, owner);
      case ASTEnumType(fs, _) => VisitFields(fs, ls, chain, dc, env, owner);
    }
  }

  method VisitParams(ps: seq<ASTType>, ls: LexicalScope<Decl>, ghost chain: seq<LexicalScope<Decl>>,
                     dc: DiagnosticConsumer, ghost env: Env, ghost owner: Owner)
    requires IsChain(ls, chain) && Sees(chain, env)
    requires (forall p :: p in ps ==> Owned(owner, p)) && NoneMisbound(env, owner, BindingOf(owner))
    modifies owner.Keys`declNode, dc
    ensures NoneMisbound(env, owner, BindingOf(owner)) && Kept(old(BindingOf(owner)), BindingOf(owner))
            && forall p :: p in ps ==> BoundIn(env, BindingOf(owner), p)
    ensures dc.emitted == old(dc.emitted) + UnresolvedAll(env, ps)
    decreases ps, 0
  {
    hide Sees, NoneMisbound, Kept, BoundIn, BindingOf, Owned, Unresolved, IsChain;
    BindingsKeptAtFirst(BindingOf(owner));
    for i := 0 to |ps|
      invariant NoneMisbound(env, owner, BindingOf(owner)) && Kept(old(BindingOf(owner)), BindingOf(owner))
      invariant forall p :: p in ps[..i] ==> BoundIn(env, BindingOf(owner), p)
      invariant dc.emitted + UnresolvedAll(env, ps[i..]) == old(dc.emitted) + UnresolvedAll(env, ps)
    {
      ghost var before := BindingOf(owner);
      VisitType(ps[i], ls, chain, dc, env, owner);
      BindingsKept(old(BindingOf(owner)), before, BindingOf(owner));
      NextParam(env, owner, before, BindingOf(owner), ps, i);
    }
  }

  method VisitFields(fs: seq<Field>, ls: LexicalScope<Decl>, ghost chain: seq<LexicalScope<Decl>>,
                     dc: DiagnosticConsumer, ghost env: Env, ghost owner: Owner)
    requires IsChain(ls, chain) && Sees(chain, env)
    requires (forall f :: f in fs ==> Owned(owner, f.ty)) && NoneMisbound(env, owner, BindingOf(owner))
    modifies owner.Keys`declNode, dc
    ensures NoneMisbound(env, owner, BindingOf(owner)) && Kept(old(BindingOf(owner)), BindingOf(owner))
            && forall f :: f in fs ==> BoundIn(env, BindingOf(owner), f.ty)
    ensures dc.emitted == old(dc.emitted) + UnresolvedFields(env, fs)
    decreases fs, 0
  {
    hide Sees, NoneMisbound, Kept, BoundIn, BindingOf, Owned, Unresolved, IsChain;
    BindingsKeptAtFirst(BindingOf(owner));
    for i := 0 to |fs|
      invariant NoneMisbound(env, owner, BindingOf(owner)) && Kept(old(BindingOf(owner)), BindingOf(owner))
      invariant forall f :: f in fs[..i] ==> BoundIn(env, BindingOf(owner), f.ty)
      invariant dc.emitted + UnresolvedFields(env, fs[i..]) == old(dc.emitted) + UnresolvedFields(env, fs)
    {
      ghost var before := BindingOf(owner);
      VisitType(fs[i].ty, ls, chain, dc, env, owner);
      BindingsKept(old(BindingOf(owner)), before, BindingOf(owner));
      NextField(env, owner, before, BindingOf(owner), fs, i);
    }
  }
}
