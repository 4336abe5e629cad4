/** The parts of the syntax tree the semantic passes look at.
    What the parser fixes is immutable; what a pass fills in later lives in the mutable base
    part of a node: `TypeSlot` for type expressions, `ScopedASTNode` for nodes that open a scope. */
module AST {
  import opened QualTypes
  import opened LexicalScopes

  datatype ASTNativeType = VoidN | I1N | I8N | I32N | I64N | F32N | F64N | StringN | UnknownN

  /** The fields of a type node that the passes set: the resolved type, and for a reference its declaration. */
  class TypeSlot {
    var declNode: TypeDecl?
    var ty: QualType

    constructor ()
      ensures declNode == null && ty == UNKNOWN
    {
      declNode := null;
      ty := UNKNOWN;
    }
  }

  datatype Field = Field(name: string, ty: ASTType)

  datatype ASTType =
    | ASTBuiltinType(native: ASTNativeType, slot: TypeSlot)
    | ASTDeclTypeRef(symbol: string, slot: TypeSlot)
    | ASTQualType(element: ASTType, slot: TypeSlot)
    | ASTPointerType(element: ASTType, nullable: bool, slot: TypeSlot)
    | ASTArrayType(element: ASTType, slot: TypeSlot)
    | ASTFunctionType(params: seq<ASTType>, ret: ASTType, slot: TypeSlot)
    | ASTObjectType(fields: seq<Field>, slot: TypeSlot)
    | ASTEnumType(fields: seq<Field>, slot: TypeSlot)

  /** A `type` declaration, or a `use` alias when `isUse` holds. */
  class TypeDecl {
    const name: string
    const isUse: bool
    const declaredType: ASTType

    constructor (name: string, isUse: bool, declaredType: ASTType)
      ensures this.name == name && this.isUse == isUse && this.declaredType == declaredType
    {
      this.name, this.isUse, this.declaredType := name, isUse, declaredType;
    }
  }

  /** The base part of a node that opens a scope. `enclosing` is the nearest such node around it. */
  class ScopedASTNode {
    const kind: ScopeKind
    const enclosing: ScopedASTNode?
    var scope: LexicalScope?<Decl>

    constructor (kind: ScopeKind, enclosing: ScopedASTNode?)
      ensures this.kind == kind && this.enclosing == enclosing && scope == null
    {
      this.kind, this.enclosing, scope := kind, enclosing, null;
    }
  }

  /** An expression, reduced to the block statements it contains, in visiting order. */
  datatype Expr = Expr(blocks: seq<BlockStmt>)

  datatype BlockStmt = BlockStmt(stmts: seq<Stmt>, node: ScopedASTNode)

  datatype Stmt =
    | VarStmt(decl: VarDecl)
    | TypeStmt(tdecl: TypeDecl)
    | ExprStmt(expr: Expr)
    | NestedBlock(block: BlockStmt)

  datatype VarDecl = VarDecl(name: string, declaredType: Option<ASTType>, initializer: Option<Expr>, loc: nat)

  datatype FuncParamDecl = FuncParamDecl(name: string, declaredType: ASTType, defaultValue: Option<Expr>, loc: nat)

  datatype FuncDecl = FuncDecl(name: string, params: seq<FuncParamDecl>, declaredType: ASTType,
                               body: Option<BlockStmt>, node: ScopedASTNode)

  datatype ImplDecl = ImplDecl(declaredType: ASTType, impls: seq<FuncDecl>, node: ScopedASTNode)

  datatype Decl =
    | TypeD(t: TypeDecl)
    | ImplD(i: ImplDecl)
    | VarD(v: VarDecl)
    | FuncD(f: FuncDecl)
    | ParamD(p: FuncParamDecl)

  datatype ProgramDecl = ProgramDecl(decls: seq<Decl>, node: ScopedASTNode)
}
