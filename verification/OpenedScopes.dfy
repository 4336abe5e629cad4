/** Which scoped nodes the first pass opens: all of a unit's but those of blocks inside blocks. */
module OpenedScopes {
  import opened QualTypes
  import opened LexicalScopes
  import opened AST
  import opened Programs
  import opened SymbolTables
  import opened TypeCheckPass
  import opened PipelineSpecs

  /** The node lies directly in a block. */
  ghost predicate InsideBlock(n: ScopedASTNode) {
    n.enclosing != null && n.enclosing.kind == Block
  }

  ghost predicate IsOneOf(bs: seq<BlockStmt>, n: ScopedASTNode) {
    exists b :: b in bs && b.node == n
  }

  lemma {:induction false} BlocksInside(bs: seq<BlockStmt>, outer: ScopedASTNode, nodes: set<ScopedASTNode>, owner: Owner)
    requires forall b :: b in bs ==> BlockPlaced(b, outer, nodes, owner)
    ensures forall n :: n in BlocksUnder(bs) ==> IsOneOf(bs, n) || InsideBlock(n)
    decreases bs
  {
    hide BlockPlaced, BlockUnder, InsideBlock;
    if bs != [] {
      BlocksInside(bs[..|bs| - 1], outer, nodes, owner);
      BlockInside(bs[|bs| - 1], outer, nodes, owner);
      assert forall b :: b in bs[..|bs| - 1] ==> b in bs;
      assert bs[|bs| - 1] in bs;
    }
  }

  lemma {:induction false} BlockInside(b: BlockStmt, outer: ScopedASTNode, nodes: set<ScopedASTNode>, owner: Owner)
    requires BlockPlaced(b, outer, nodes, owner)
    ensures forall n :: n in BlockUnder(b) ==> n == b.node || InsideBlock(n)
    decreases b
  {
    hide StmtPlaced, InsideBlock, StmtsUnder;
    StmtsInside(b.stmts, b.node, nodes, owner);
  }

  lemma {:induction false} StmtsInside(ss: seq<Stmt>, outer: ScopedASTNode, nodes: set<ScopedASTNode>, owner: Owner)
    requires outer.kind == Block && forall s :: s in ss ==> StmtPlaced(s, outer, nodes, owner)
    ensures forall n :: n in StmtsUnder(ss) ==> InsideBlock(n)
    decreases ss
  {
    hide StmtPlaced, StmtUnder, InsideBlock;
    if ss != [] {
      StmtsInside(ss[..|ss| - 1], outer, nodes, owner);
      StmtInside(ss[|ss| - 1], outer, nodes, owner);
    }
  }

  lemma {:induction false} StmtInside(s: Stmt, outer: ScopedASTNode, nodes: set<ScopedASTNode>, owner: Owner)
    requires outer.kind == Block && StmtPlaced(s, outer, nodes, owner)
    ensures forall n :: n in StmtUnder(s) ==> InsideBlock(n)
    decreases s
  {
    hide BlocksUnder, BlockUnder;
    match s {
      case VarStmt(v) => if v.initializer.Some? { BlocksInside(v.initializer.value.blocks, outer, nodes, owner); }
      case TypeStmt(_) =>
      case ExprStmt(e) => BlocksInside(e.blocks, outer, nodes, owner);
      case NestedBlock(b) => BlockInside(b, outer, nodes, owner);
    }
  }

  lemma {:induction false} ValueInside(e: Option<Expr>, outer: ScopedASTNode, nodes: set<ScopedASTNode>, owner: Owner)
    requires e.Some? ==> ExprPlaced(e.value, outer, nodes, owner)
    ensures forall n :: n in ValueUnder(e) ==> n in BlockNodes(e) || InsideBlock(n)
  {
    hide BlockPlaced, BlocksUnder, InsideBlock;
    if e.Some? {
      var bs := e.value.blocks;
      BlocksInside(bs, outer, nodes, owner);
      forall n | IsOneOf(bs, n) ensures n in BlockNodes(e) {
        var i :| 0 <= i < |bs| && bs[i].node == n;
        assert BlockNodes(e)[i] == n;
      }
    }
  }

  lemma {:induction false} ParamsInside(ps: seq<FuncParamDecl>, outer: ScopedASTNode, nodes: set<ScopedASTNode>, owner: Owner)
    requires forall p :: p in ps && p.defaultValue.Some? ==> ExprPlaced(p.defaultValue.value, outer, nodes, owner)
    ensures forall n :: n in ParamsUnder(ps) ==> n in DefaultNodes(ps) || InsideBlock(n)
  {
    hide ExprPlaced, ValueUnder, BlockNodes, InsideBlock, DefaultNodes;
    if ps != [] {
      var init, p := ps[..|ps| - 1], ps[|ps| - 1];
      ParamsInside(init, outer, nodes, owner);
      ValueInside(p.defaultValue, outer, nodes, owner);
      DefaultsWithLast(init, p);
      assert init + [p] == ps;
    }
  }

  lemma {:induction false} DefaultsWithLast(ps: seq<FuncParamDecl>, p: FuncParamDecl)
    ensures DefaultNodes(ps + [p]) == DefaultNodes(ps) + BlockNodes(p.defaultValue)
  {
    hide BlockNodes;
    if ps == [] {
      assert ([] + [p])[1..] == [] && DefaultNodes([]) == [];
    } else {
      DefaultsWithLast(ps[1..], p);
      assert (ps + [p])[1..] == ps[1..] + [p];
    }
  }

  lemma {:induction false} FuncInside(f: FuncDecl, nodes: set<ScopedASTNode>, owner: Owner)
    requires FuncDeep(f, nodes, owner)
    ensures forall n :: n in FuncUnder(f) ==> n in FuncNodes(f) || InsideBlock(n)
  {
    hide ExprPlaced, BlockPlaced, ParamsUnder, BlockUnder, InsideBlock, DefaultNodes;
    ParamsInside(f.params, f.node, nodes, owner);
    if f.body.Some? {
      BlockInside(f.body.value, f.node, nodes, owner);
    }
  }

  lemma {:induction false} FuncsInside(fs: seq<FuncDecl>, nodes: set<ScopedASTNode>, owner: Owner)
    requires forall f :: f in fs ==> FuncDeep(f, nodes, owner)
    ensures forall n :: n in FuncsUnder(fs) ==> n in FuncsNodes(fs) || InsideBlock(n)
  {
    hide FuncDeep, FuncUnder, FuncNodes, FuncsNodes, InsideBlock;
    if fs != [] {
      var f := fs[|fs| - 1];
      FuncsInside(fs[..|fs| - 1], nodes, owner);
      FuncInside(f, nodes, owner);
      FuncNodesAreNodes(fs, f);
      forall g | g in fs[..|fs| - 1] ensures g in fs {}
      MoreFuncs(fs);
    }
  }

  lemma {:induction false} MoreFuncs(fs: seq<FuncDecl>)
    requires fs != []
    ensures forall n :: n in FuncsNodes(fs[..|fs| - 1]) ==> n in FuncsNodes(fs)
  {
    hide FuncNodes;
    if |fs| > 1 {
      assert fs[..|fs| - 1][1..] == fs[1..][..|fs| - 2];
      MoreFuncs(fs[1..]);
    }
  }

  lemma {:induction false} DeclInside(d: Decl, root: ScopedASTNode, nodes: set<ScopedASTNode>, owner: Owner)
    requires DeclDeep(d, root, nodes, owner)
    ensures forall n :: n in DeclUnder(d) ==> n in DeclNodes(d) || InsideBlock(n)
  {
    hide FuncDeep, FuncUnder, FuncsUnder, FuncNodes, FuncsNodes, BlockNodes, ValueUnder, InsideBlock, ExprPlaced;
    match d {
      case VarD(v) => ValueInside(v.initializer, root, nodes, owner);
      case FuncD(f) => FuncInside(f, nodes, owner);
      case ImplD(i) => FuncsInside(i.impls, nodes, owner);
      case _ =>
    }
  }

  lemma {:induction false} DeclsInside(ds: seq<Decl>, root: ScopedASTNode, nodes: set<ScopedASTNode>, owner: Owner)
    requires forall d :: d in ds ==> DeclDeep(d, root, nodes, owner)
    ensures forall n :: n in DeclsUnder(ds) ==> n in DeclsNodes(ds) || InsideBlock(n)
  {
    hide DeclDeep, DeclUnder, DeclNodes, InsideBlock;
    if ds != [] {
      DeclsInside(ds[..|ds| - 1], root, nodes, owner);
      DeclInside(ds[|ds| - 1], root, nodes, owner);
    }
  }

  // Conversely, what is opened lies in no block.

  lemma {:induction false} FuncOutside(f: FuncDecl, outer: ScopedASTNode)
    requires FuncPlaced(f, outer) && outer.kind != Block
    ensures forall n :: n in FuncNodes(f) ==> !InsideBlock(n)
  {
    assert FuncNodes(f) == [f.node] + FuncNodes(f)[1..];
  }

  lemma {:induction false} FuncsOutside(fs: seq<FuncDecl>, outer: ScopedASTNode)
    requires outer.kind != Block && forall f :: f in fs ==> FuncPlaced(f, outer)
    ensures forall n :: n in FuncsNodes(fs) ==> !InsideBlock(n)
  {
    hide FuncPlaced, FuncNodes, InsideBlock;
    if fs != [] {
      FuncOutside(fs[0], outer);
      FuncsOutside(fs[1..], outer);
    }
  }

  lemma {:induction false} DeclOutside(d: Decl, root: ScopedASTNode)
    requires DeclPlaced(d, root) && root.kind != Block
    ensures forall n :: n in DeclNodes(d) ==> !InsideBlock(n)
  {
    hide FuncPlaced, FuncNodes, FuncsNodes;
    match d {
      case FuncD(f) => FuncOutside(f, root);
      case ImplD(i) => FuncsOutside(i.impls, i.node);
      case _ =>
    }
  }

  lemma {:induction false} DeclsOutside(ds: seq<Decl>, root: ScopedASTNode)
    requires root.kind != Block && forall d :: d in ds ==> DeclPlaced(d, root)
    ensures forall n :: n in DeclsNodes(ds) ==> !InsideBlock(n)
  {
    hide DeclPlaced, DeclNodes, InsideBlock;
    if ds != [] {
      DeclsOutside(ds[..|ds| - 1], root);
      DeclOutside(ds[|ds| - 1], root);
    }
  }

  /** The nodes the first pass opens, besides the file's, are those of a unit that do not lie in a block: functions, `impl`
      blocks, bodies, and the outermost blocks in values. */
  lemma {:induction false} OpenedExactly(p: ProgramDecl, owner: Owner)
    requires Placed(p) && forall d :: d in p.decls ==> Located(d, p.node, UnitNodes(p), owner)
    ensures forall n :: n in DeclsNodes(p.decls) <==> n in DeclsUnder(p.decls) && !InsideBlock(n)
  {
    hide DeclPlaced, DeclDeep, DeclsNodes, DeclsUnder, InsideBlock;
    DeclsInside(p.decls, p.node, UnitNodes(p), owner);
    DeclsOutside(p.decls, p.node);
    NodesAreUnder(p.decls);
    forall n | n in DeclsNodes(p.decls) ensures n in DeclsUnder(p.decls) {
      assert n in Among(DeclsNodes(p.decls));
    }
  }
}
