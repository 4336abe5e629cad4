/** The scope each node opens, created on its first visit and reused by every later pass. */
module ScopeTrees {
  import opened LexicalScopes
  import opened AST

  type Scope = LexicalScope<Decl>

  /** The scope of each node, as a value. */
  type ScopeMap = map<ScopedASTNode, LexicalScope?<Decl>>

  ghost function ScopesOf(nodes: set<ScopedASTNode>): (m: ScopeMap)
    reads nodes
    ensures m.Keys == nodes
  {
    map n | n in nodes :: n.scope
  }

  /** Each node's scope has the node's kind, and lies in the scope of the nearest scoped node around it,
      or in the global scope if there is none. */
  ghost predicate Nested(root: Scope, m: ScopeMap) {
    forall n :: n in m && m[n] != null ==> NestedRight(root, m, n, m[n])
  }

  ghost predicate NestedRight(root: Scope, m: ScopeMap, n: ScopedASTNode, s: Scope) {
    && s.kind == n.kind
    && if n.enclosing == null then s.parent == root
       else n.enclosing in m && m[n.enclosing] != null && s.parent == m[n.enclosing]
  }

  /** Different nodes have different scopes, none of them global, and every other stored scope is some node's. */
  ghost predicate OneEach(storage: seq<Scope>, m: ScopeMap) {
    && (forall n :: n in m && m[n] != null ==> m[n] in storage && m[n] != storage[0])
    && (forall n, n' :: n in m && n' in m && n != n' && m[n] != null ==> m[n] != m[n'])
    && (forall i :: 1 <= i < |storage| ==> storage[i] in m.Values)
  }

  ghost predicate Rooted(storage: seq<Scope>) {
    Grown(storage) && storage != [] && storage[0].parent == null && storage[0].kind == Global
  }

  /** Scopes and nodes agree: one global scope first, then exactly one scope for each node that has been visited. */
  ghost predicate TreeOk(storage: seq<Scope>, m: ScopeMap) {
    Rooted(storage) && Nested(storage[0], m) && OneEach(storage, m)
  }

  /** The scope a new scope for this node must be given as its parent. */
  ghost function ParentOf(storage: seq<Scope>, m: ScopeMap, node: ScopedASTNode): LexicalScope?<Decl>
    requires storage != []
  {
    if node.enclosing == null then storage[0] else if node.enclosing in m then m[node.enclosing] else null
  }

  /** After a visit exactly the visited nodes have gained scopes, and scopes are never replaced. */
  ghost predicate Entered(m: ScopeMap, m': ScopeMap, visited: set<ScopedASTNode>) {
    && m'.Keys == m.Keys
    && (forall n :: n in m && m[n] != null ==> m'[n] == m[n])
    && (forall n :: n in m && m[n] == null ==> (m'[n] != null <==> n in visited))
  }

  lemma EnteredTwice(m: ScopeMap, m': ScopeMap, m'': ScopeMap, a: set<ScopedASTNode>, b: set<ScopedASTNode>)
    requires Entered(m, m', a) && Entered(m', m'', b)
    ensures Entered(m, m'', a + b)
  {
  }

  /** What a scope-opening node's dispatcher does first: create its scope if it has none, else reuse it. */
  method EnterScope(lc: LexicalContext<Decl>, node: ScopedASTNode, parent: Scope, ghost nodes: set<ScopedASTNode>)
    returns (s: Scope)
    requires TreeOk(lc.scopeStorage, ScopesOf(nodes)) && node in nodes
    requires ParentOf(lc.scopeStorage, ScopesOf(nodes), node) == parent
    modifies lc, node
    ensures TreeOk(lc.scopeStorage, ScopesOf(nodes))
    ensures node.scope == s && ScopesOf(nodes) == old(ScopesOf(nodes))[node := s]
    ensures Entered(old(ScopesOf(nodes)), ScopesOf(nodes), {node}) && old(lc.scopeStorage) <= lc.scopeStorage
    ensures old(node.scope) != null ==> s == old(node.scope) && lc.scopeStorage == old(lc.scopeStorage)
    ensures old(node.scope) == null ==> fresh(s) && s.symbolTable == map[] && lc.scopeStorage == old(lc.scopeStorage) + [s]
  {
    hide Nested, Grown;
    assert parent in lc.scopeStorage;
    ghost var m := ScopesOf(nodes);
    ghost var storage := lc.scopeStorage;
    if node.scope == null {
      s := lc.CreateNewScope(node.kind, parent);
      node.scope := s;
      assert ScopesOf(nodes) == m[node := s];
      assert NestedRight(storage[0], m, node, s);
      AddedScopeIsOk(storage, m, node, s);
    } else {
      s := node.scope;
      assert ScopesOf(nodes) == m[node := s];
    }
  }

  lemma AddedScopeIsOk(storage: seq<Scope>, m: ScopeMap, node: ScopedASTNode, s: Scope)
    requires TreeOk(storage, m) && Grown(storage + [s]) && node in m && m[node] == null
    requires NestedRight(storage[0], m, node, s)
    ensures TreeOk(storage + [s], m[node := s])
  {
    assert Nested(storage[0], m[node := s]);
    AddedScopeIsItsOwn(storage, m, node, s);
  }

  lemma AddedScopeIsItsOwn(storage: seq<Scope>, m: ScopeMap, node: ScopedASTNode, s: Scope)
    requires storage != [] && OneEach(storage, m) && Grown(storage + [s]) && node in m && m[node] == null
    ensures OneEach(storage + [s], m[node := s])
  {
    var storage', m' := storage + [s], m[node := s];
    forall i | 0 <= i < |storage|
      ensures storage[i] != s
    {
      assert storage'[i] != storage'[|storage|];
    }
    assert m'[node] == s;
    forall v | v in m.Values && v != null
      ensures v in m'.Values
    {
      var n: ScopedASTNode :| n in m && m[n] == v;
      assert m'[n] == v;
    }
  }

  lemma ScopesAreStored(storage: seq<Scope>, m: ScopeMap)
    requires TreeOk(storage, m)
    ensures forall n :: n in m && m[n] != null ==> m[n] in storage
  {
  }
}
