/** Lexical scopes and the append-only context that owns them, over any kind of declaration `D`. */
module LexicalScopes {
  import opened QualTypes

  datatype ScopeKind = Global | Module | File | Function | Block | Impl

  class LexicalScope<D(==)> {
    const parent: LexicalScope?<D>
    const kind: ScopeKind
    var symbolTable: map<string, seq<D>>

    constructor (parent: LexicalScope?<D>, kind: ScopeKind)
      ensures this.parent == parent && this.kind == kind && symbolTable == map[]
    {
      this.parent, this.kind, symbolTable := parent, kind, map[];
    }

    function GetDecls(symbol: string): seq<D>
      reads this
    {
      if symbol in symbolTable then symbolTable[symbol] else []
    }

    /** The nearest enclosing scope with an entry for the symbol. */
    method Find(symbol: string, ghost chain: seq<LexicalScope<D>>) returns (found: Option<LexicalScope<D>>)
      requires IsChain(this, chain)
      ensures found.None? ==> forall i :: 0 <= i < |chain| ==> symbol !in chain[i].symbolTable
      ensures found.Some? ==> exists i :: 0 <= i < |chain| && NearestAt(symbol, chain, i) && found.value == chain[i]
    {
      var curr: LexicalScope?<D> := this;
      ghost var k := 0;
      while curr != null
        invariant 0 <= k <= |chain| && curr == if k == |chain| then null else chain[k]
        invariant forall i :: 0 <= i < k ==> symbol !in chain[i].symbolTable
        decreases |chain| - k
      {
        if symbol in curr.symbolTable {
          assert NearestAt(symbol, chain, k);
          return Some(curr);
        }
        curr, k := curr.parent, k + 1;
      }
      return None;
    }

    method Insert(symbol: string, d: D)
      requires d !in GetDecls(symbol)
      modifies this`symbolTable
      ensures symbolTable == old(symbolTable)[symbol := old(GetDecls(symbol)) + [d]]
    {
      symbolTable := symbolTable[symbol := GetDecls(symbol) + [d]];
    }
  }

  /** The scope and all its ancestors, innermost first. */
  ghost predicate IsChain<D>(s: LexicalScope<D>, chain: seq<LexicalScope<D>>) {
    && |chain| > 0 && chain[0] == s && chain[|chain| - 1].parent == null
    && forall i :: 0 <= i < |chain| - 1 ==> chain[i].parent == chain[i + 1]
  }

  /** Position `i` of a scope chain is the first with an entry for the symbol. */
  ghost predicate NearestAt<D>(symbol: string, chain: seq<LexicalScope<D>>, i: int)
    requires 0 <= i < |chain|
    reads chain
  {
    symbol in chain[i].symbolTable && forall j :: 0 <= j < i ==> symbol !in chain[j].symbolTable
  }

  /** Scopes are distinct and a parent is always older than its children. */
  ghost predicate Grown<D>(storage: seq<LexicalScope<D>>) {
    && (forall i :: 0 <= i < |storage| ==> storage[i].parent == null || storage[i].parent in storage[..i])
    && (forall i, j :: 0 <= i < j < |storage| ==> storage[i] != storage[j])
  }

  class LexicalContext<D(==)> {
    var scopeStorage: seq<LexicalScope<D>>

    ghost predicate Valid()
      reads this
    {
      Grown(scopeStorage)
    }

    constructor ()
      ensures Valid() && scopeStorage == []
    {
      scopeStorage := [];
    }

    method CreateNewScope(kind: ScopeKind, parent: LexicalScope?<D>) returns (s: LexicalScope<D>)
      requires Valid() && (parent != null ==> parent in scopeStorage)
      modifies this
      ensures Valid() && fresh(s)
      ensures scopeStorage == old(scopeStorage) + [s]
      ensures s.parent == parent && s.kind == kind && s.symbolTable == map[]
    {
      s := new LexicalScope(parent, kind);
      ghost var older := scopeStorage;
      scopeStorage := scopeStorage + [s];
      assert forall i :: 0 <= i <= |older| ==> scopeStorage[..i] == older[..i];
    }

    method GetGlobalScope() returns (s: LexicalScope<D>)
      requires scopeStorage != []
      ensures s == scopeStorage[0]
    {
      s := scopeStorage[0];
    }
  }

  /** Parents being older, every stored scope has a finite chain of stored ancestors, so `Find` ends. */
  lemma {:induction false} ChainsEnd<D>(lc: LexicalContext<D>, i: nat) returns (chain: seq<LexicalScope<D>>)
    requires lc.Valid() && i < |lc.scopeStorage|
    ensures IsChain(lc.scopeStorage[i], chain)
    ensures forall k :: 0 <= k < |chain| ==> chain[k] in lc.scopeStorage
    decreases i
  {
    var s := lc.scopeStorage[i];
    if s.parent == null {
      chain := [s];
    } else {
      var j :| 0 <= j < i && lc.scopeStorage[j] == s.parent;
      var rest := ChainsEnd(lc, j);
      chain := [s] + rest;
    }
  }
}
