/** A translation unit as the default traversal sees it: its scoped nodes, its type expressions in
    visiting order, and the names its top-level types bind. */
module Programs {
  import opened QualTypes
  import opened LexicalScopes
  import opened AST
  import opened NormalForms

  /** A type expression together with the scoped node whose scope it is visited in. */
  datatype TypeRoot = TypeRoot(ty: ASTType, node: ScopedASTNode)

  function ParamRoots(ps: seq<FuncParamDecl>, node: ScopedASTNode): seq<TypeRoot> {
    seq(|ps|, i requires 0 <= i < |ps| => TypeRoot(ps[i].declaredType, node))
  }

  function FuncRoots(f: FuncDecl): seq<TypeRoot> {
    ParamRoots(f.params, f.node) + [TypeRoot(f.declaredType, f.node)]
  }

  function FuncsRoots(fs: seq<FuncDecl>): seq<TypeRoot> {
    if fs == [] then [] else FuncRoots(fs[0]) + FuncsRoots(fs[1..])
  }

  function DeclRoots(d: Decl, node: ScopedASTNode): seq<TypeRoot> {
    match d
    case TypeD(t) => [TypeRoot(t.declaredType, node)]
    case VarD(v) => if v.declaredType.Some? then [TypeRoot(v.declaredType.value, node)] else []
    case ImplD(i) => [TypeRoot(i.declaredType, i.node)] + FuncsRoots(i.impls)
    case FuncD(f) => FuncRoots(f)
    case ParamD(_) => []
  }

  /** Every type expression outside function bodies, in the order the default traversal reaches them. */
  function DeclsRoots(ds: seq<Decl>, node: ScopedASTNode): seq<TypeRoot> {
    if ds == [] then [] else DeclRoots(ds[0], node) + DeclsRoots(ds[1..], node)
  }

  function Roots(p: ProgramDecl): seq<TypeRoot> {
    DeclsRoots(p.decls, p.node)
  }

  // Scoped nodes reached without entering a block.

  function BlockNodes(e: Option<Expr>): seq<ScopedASTNode> {
    if e.None? then [] else seq(|e.value.blocks|, i requires 0 <= i < |e.value.blocks| => e.value.blocks[i].node)
  }

  function DefaultNodes(ps: seq<FuncParamDecl>): seq<ScopedASTNode> {
    if ps == [] then [] else BlockNodes(ps[0].defaultValue) + DefaultNodes(ps[1..])
  }

  function FuncNodes(f: FuncDecl): seq<ScopedASTNode> {
    [f.node] + DefaultNodes(f.params) + if f.body.None? then [] else [f.body.value.node]
  }

  function FuncsNodes(fs: seq<FuncDecl>): seq<ScopedASTNode> {
    if fs == [] then [] else FuncNodes(fs[0]) + FuncsNodes(fs[1..])
  }

  function DeclNodes(d: Decl): seq<ScopedASTNode> {
    match d
    case VarD(v) => BlockNodes(v.initializer)
    case ImplD(i) => [i.node] + FuncsNodes(i.impls)
    case FuncD(f) => FuncNodes(f)
    case _ => []
  }

  ghost function Among(ns: seq<ScopedASTNode>): set<ScopedASTNode> {
    set n | n in ns
  }

  function DeclsNodes(ds: seq<Decl>): seq<ScopedASTNode> {
    if ds == [] then [] else DeclsNodes(ds[..|ds| - 1]) + DeclNodes(ds[|ds| - 1])
  }

  // Where the parser puts scoped nodes.

  ghost predicate FuncPlaced(f: FuncDecl, outer: ScopedASTNode) {
    && f.node.kind == Function && f.node.enclosing == outer
    && forall n :: n in FuncNodes(f)[1..] ==> n.kind == Block && n.enclosing == f.node
  }

  ghost predicate DeclPlaced(d: Decl, outer: ScopedASTNode) {
    match d
    case VarD(v) => forall n :: n in DeclNodes(d) ==> n.kind == Block && n.enclosing == outer
    case ImplD(i) => i.node.kind == Impl && i.node.enclosing == outer && forall f :: f in i.impls ==> FuncPlaced(f, i.node)
    case FuncD(f) => FuncPlaced(f, outer)
    case TypeD(_) => true
    case ParamD(_) => false
  }

  ghost predicate Placed(p: ProgramDecl) {
    p.node.kind == File && p.node.enclosing == null && forall d :: d in p.decls ==> DeclPlaced(d, p.node)
  }

  // Names bound at file level.

  /** One more declaration: a name that is already bound keeps its binding. */
  function AddType(m: Env, d: Decl): Env {
    if d.TypeD? && d.t.name !in m then m[d.t.name := d.t] else m
  }

  /** The `type` and `use` declarations in scope by name; of several with one name, the first. */
  function FirstTypes(ds: seq<Decl>): Env {
    if ds == [] then map[] else AddType(FirstTypes(ds[..|ds| - 1]), ds[|ds| - 1])
  }

  /** What a type name means anywhere in the unit: the file's own declarations, then the builtins. */
  function EnvOf(builtins: Env, p: ProgramDecl): Env {
    builtins + FirstTypes(p.decls)
  }

  /** A symbol table that holds exactly these type declarations. */
  function TypeTable(m: Env): map<string, seq<Decl>> {
    map n | n in m :: [TypeD(m[n])]
  }

  // Node identity: each slot belongs to one type node.

  type Owner = map<TypeSlot, ASTType>

  ghost predicate Owned(owner: Owner, e: ASTType) {
    && e.slot in owner && owner[e.slot] == e
    && match e
       case ASTBuiltinType(_, _) => true
       case ASTDeclTypeRef(_, _) => true
       case ASTQualType(t, _) => Owned(owner, t)
       case ASTPointerType(t, _, _) => Owned(owner, t)
       case ASTArrayType(t, _) => Owned(owner, t)
       case ASTFunctionType(ps, r, _) => (forall p :: p in ps ==> Owned(owner, p)) && Owned(owner, r)
       case ASTObjectType(fs, _) => forall f :: f in fs ==> Owned(owner, f.ty)
       case ASTEnumType(fs, _) => forall f :: f in fs ==> Owned(owner, f.ty)
  }

  /** `owner` names the node of each slot in the unit and in the builtin aliases. */
  ghost predicate Owns(owner: Owner, builtins: Env, p: ProgramDecl) {
    && (forall r :: r in Roots(p) ==> Owned(owner, r.ty))
    && (forall n :: n in builtins ==> builtins[n].declaredType.ASTBuiltinType? && Owned(owner, builtins[n].declaredType))
  }

  lemma {:induction false} OwnedMore(owner: Owner, more: Owner, e: ASTType)
    requires Owned(owner, e) && owner.Keys !! more.Keys
    ensures Owned(owner + more, e)
  {
    match e {
      case ASTQualType(t, _) => OwnedMore(owner, more, t);
      case ASTPointerType(t, _, _) => OwnedMore(owner, more, t);
      case ASTArrayType(t, _) => OwnedMore(owner, more, t);
      case ASTFunctionType(ps, r, _) =>
        forall p | p in ps ensures Owned(owner + more, p) { OwnedMore(owner, more, p); }
        OwnedMore(owner, more, r);
      case ASTObjectType(fs, _) =>
        forall f | f in fs ensures Owned(owner + more, f.ty) { OwnedMore(owner, more, f.ty); }
      case ASTEnumType(fs, _) =>
        forall f | f in fs ensures Owned(owner + more, f.ty) { OwnedMore(owner, more, f.ty); }
      case _ =>
    }
  }

  // Declared types are among the visited ones.

  lemma {:induction false} FirstTypesAreDeclared(ds: seq<Decl>, n: string)
    requires n in FirstTypes(ds)
    ensures TypeD(FirstTypes(ds)[n]) in ds && FirstTypes(ds)[n].name == n
  {
    if n in FirstTypes(ds[..|ds| - 1]) {
      FirstTypesAreDeclared(ds[..|ds| - 1], n);
    }
  }

  lemma {:induction false} DeclRootsAreRoots(ds: seq<Decl>, node: ScopedASTNode, d: Decl)
    requires d in ds
    ensures forall r :: r in DeclRoots(d, node) ==> r in DeclsRoots(ds, node)
  {
    if d != ds[0] {
      DeclRootsAreRoots(ds[1..], node, d);
    }
  }

  lemma {:induction false} FuncRootsAreRoots(fs: seq<FuncDecl>, f: FuncDecl)
    requires f in fs
    ensures forall r :: r in FuncRoots(f) ==> r in FuncsRoots(fs)
  {
    if f != fs[0] {
      FuncRootsAreRoots(fs[1..], f);
    }
  }

  // Scoped nodes come after the node around them.

  ghost predicate InOrder(ns: seq<ScopedASTNode>, root: ScopedASTNode) {
    forall k :: 0 <= k < |ns| ==> ns[k].enclosing == root || ns[k].enclosing in ns[..k]
  }

  lemma {:induction false} FuncsNodesInOrder(fs: seq<FuncDecl>, outer: ScopedASTNode)
    requires forall f :: f in fs ==> FuncPlaced(f, outer)
    ensures InOrder(FuncsNodes(fs), outer)
  {
    if fs != [] {
      FuncsNodesInOrder(fs[1..], outer);
      assert fs[0] in fs && FuncPlaced(fs[0], outer) && FuncNodes(fs[0])[0] == fs[0].node;
      HeadFirst(FuncNodes(fs[0]), outer);
      InOrderTogether(FuncNodes(fs[0]), FuncsNodes(fs[1..]), outer, outer);
    }
  }

  lemma HeadFirst(ns: seq<ScopedASTNode>, root: ScopedASTNode)
    requires ns != [] && ns[0].enclosing == root && forall n :: n in ns[1..] ==> n.enclosing == ns[0]
    ensures InOrder(ns, root)
  {
    forall k | 1 <= k < |ns|
      ensures ns[k].enclosing in ns[..k]
    {
      assert ns[k] == ns[1..][k - 1] && ns[..k][0] == ns[0];
    }
  }

  lemma InOrderTogether(a: seq<ScopedASTNode>, b: seq<ScopedASTNode>, root: ScopedASTNode, root': ScopedASTNode)
    requires InOrder(a, root) && InOrder(b, root') && (root' == root || root' in a)
    ensures InOrder(a + b, root)
  {
    forall k | |a| <= k < |a + b|
      ensures (a + b)[k].enclosing == root || (a + b)[k].enclosing in (a + b)[..k]
    {
      assert (a + b)[..k] == a + b[..k - |a|];
    }
    assert forall k :: 0 <= k <= |a| ==> (a + b)[..k] == a[..k];
  }

  lemma DeclNodesInOrder(d: Decl, root: ScopedASTNode)
    requires DeclPlaced(d, root)
    ensures InOrder(DeclNodes(d), root)
  {
    match d {
      case ImplD(i) =>
        FuncsNodesInOrder(i.impls, i.node);
        InOrderTogether([i.node], FuncsNodes(i.impls), root, i.node);
      case FuncD(f) =>
        assert FuncsNodes([f]) == FuncNodes(f);
        FuncsNodesInOrder([f], root);
      case _ =>
    }
  }

  /** A type expression is visited at file level, in a function or impl of the file, or in a function of an impl. */
  ghost predicate VisitedAt(p: ProgramDecl, n: ScopedASTNode) {
    n == p.node ||
    (n in DeclsNodes(p.decls) &&
     (n.enclosing == p.node || (n.enclosing in DeclsNodes(p.decls) && n.enclosing.enclosing == p.node)))
  }

  lemma RootsAreVisitedAt(p: ProgramDecl, r: TypeRoot)
    requires Placed(p) && r in Roots(p)
    ensures VisitedAt(p, r.node)
  {
    var d := RootIsOfDecl(p.decls, p.node, r);
    DeclNodesAreNodes(p.decls, d);
    match d {
      case ImplD(i) =>
        if r in FuncsRoots(i.impls) {
          var f := RootIsOfFunc(i.impls, r);
          FuncNodesAreNodes(i.impls, f);
          assert f.node in FuncNodes(f) && i.node in DeclNodes(d);
        }
      case FuncD(f) => assert f.node in DeclNodes(d);
      case _ =>
    }
  }

  lemma {:induction false} RootIsOfDecl(ds: seq<Decl>, node: ScopedASTNode, r: TypeRoot) returns (d: Decl)
    requires r in DeclsRoots(ds, node)
    ensures d in ds && r in DeclRoots(d, node)
  {
    if r in DeclRoots(ds[0], node) {
      d := ds[0];
    } else {
      d := RootIsOfDecl(ds[1..], node, r);
    }
  }

  lemma {:induction false} RootIsOfFunc(fs: seq<FuncDecl>, r: TypeRoot) returns (f: FuncDecl)
    requires r in FuncsRoots(fs)
    ensures f in fs && r in FuncRoots(f)
  {
    if r in FuncRoots(fs[0]) {
      f := fs[0];
    } else {
      f := RootIsOfFunc(fs[1..], r);
    }
  }

  lemma {:induction false} DeclNodesAreNodes(ds: seq<Decl>, d: Decl)
    requires d in ds
    ensures forall n :: n in DeclNodes(d) ==> n in DeclsNodes(ds)
  {
    if d != ds[|ds| - 1] {
      DeclNodesAreNodes(ds[..|ds| - 1], d);
    }
  }

  lemma {:induction false} FuncNodesAreNodes(fs: seq<FuncDecl>, f: FuncDecl)
    requires f in fs
    ensures forall n :: n in FuncNodes(f) ==> n in FuncsNodes(fs)
  {
    if f != fs[0] {
      FuncNodesAreNodes(fs[1..], f);
    }
  }
}
