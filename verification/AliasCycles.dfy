/** Which expansions of aliases never end, read off the graph of references: those that come back to an alias. */
module AliasCycles {
  import opened AST
  import opened NormalForms
  import opened AliasExpansion

  /** No unresolved leaf can be reached. */
  ghost predicate Clear(env: Env, e: ASTType) {
    forall walk :: !WalkToUnresolved(env, e, walk)
  }

  /** The leaf is met in the expression: from no part before it can an unresolved leaf be reached. */
  ghost predicate Meets(env: Env, e: ASTType, leaf: ASTType)
    decreases e, 1
  {
    match e
    case ASTBuiltinType(_, _) => leaf == e
    case ASTDeclTypeRef(_, _) => leaf == e
    case ASTQualType(t, _) => Meets(env, t, leaf)
    case ASTPointerType(t, _, _) => Meets(env, t, leaf)
    case ASTArrayType(t, _) => Meets(env, t, leaf)
    case ASTFunctionType(ps, r, _) => MeetsAmong(env, ps, leaf) || (AllClear(env, ps) && Meets(env, r, leaf))
    case ASTObjectType(fs, _) => MeetsInFields(env, fs, leaf)
    case ASTEnumType(fs, _) => MeetsInFields(env, fs, leaf)
  }

  ghost predicate AllClear(env: Env, ps: seq<ASTType>) {
    forall p :: p in ps ==> Clear(env, p)
  }

  ghost predicate MeetsAmong(env: Env, ps: seq<ASTType>, leaf: ASTType)
    decreases ps, 0
  {
    ps != [] && (Meets(env, ps[0], leaf) || (Clear(env, ps[0]) && MeetsAmong(env, ps[1..], leaf)))
  }

  ghost predicate MeetsInFields(env: Env, fs: seq<Field>, leaf: ASTType)
    decreases fs, 0
  {
    fs != [] && (Meets(env, fs[0].ty, leaf) || (Clear(env, fs[0].ty) && MeetsInFields(env, fs[1..], leaf)))
  }

  /** A walk along references to aliases, each met in the body of the one before. */
  ghost predicate AliasWalk(env: Env, e: ASTType, walk: seq<ASTType>)
    decreases |walk|
  {
    walk == [] || (Meets(env, e, walk[0]) && ToAlias(env, walk[0]) && AliasWalk(env, Body(env, walk[0]), walk[1..]))
  }

  ghost function Body(env: Env, leaf: ASTType): ASTType
    requires ToAlias(env, leaf)
  {
    env[leaf.symbol].declaredType
  }

  lemma {:induction false} WalkSplits(env: Env, e: ASTType, walk: seq<ASTType>, n: nat)
    requires AliasWalk(env, e, walk) && 0 < n <= |walk|
    ensures AliasWalk(env, e, walk[..n])
    ensures ToAlias(env, walk[n - 1]) && AliasWalk(env, Body(env, walk[n - 1]), walk[n..])
    decreases n
  {
    if n == 1 {
      assert walk[..1][1..] == [];
    } else {
      WalkSplits(env, Body(env, walk[0]), walk[1..], n - 1);
      assert walk[..n][1..] == walk[1..][..n - 1] && walk[1..][n - 1..] == walk[n..];
    }
  }

  /** A walk that ends at an alias it came past. */
  ghost predicate ComesBack(env: Env, e: ASTType, walk: seq<ASTType>) {
    && AliasWalk(env, e, walk) && walk != []
    && exists j :: 0 <= j < |walk| - 1 && SameAlias(env, walk[j], walk[|walk| - 1])
  }

  ghost predicate SameAlias(env: Env, leaf: ASTType, leaf': ASTType) {
    ToAlias(env, leaf) && ToAlias(env, leaf') && env[leaf.symbol] == env[leaf'.symbol]
  }

  /** The expansion of an expression never ends exactly if some walk from it comes back. */
  lemma {:induction false} DivergesExactly(env: Env, e: ASTType)
    ensures NormalForm(env, e) == Diverges <==> exists walk :: ComesBack(env, e, walk)
    ensures (forall fuel: nat :: Expand(env, fuel, e) == Diverges) <==> exists walk :: ComesBack(env, e, walk)
  {
    ExpansionEndsExactly(env, e);
    if NormalForm(env, e) == Diverges {
      var walk := DivergesHasWalk(env, {}, e);
      var j :| 0 <= j < |walk| - 1 && SameAlias(env, walk[j], walk[|walk| - 1]);
      assert ComesBack(env, e, walk);
    } else {
      forall walk
        ensures !ComesBack(env, e, walk)
      {
        if ComesBack(env, e, walk) {
          EndingHasNoCycle(env, e, walk);
        }
      }
    }
  }

  // An expansion that never ends has such a walk.

  /** The last alias was being expanded before the walk, or was come past. */
  ghost predicate Repeats(env: Env, open: set<TypeDecl>, walk: seq<ASTType>) {
    && walk != [] && ToAlias(env, walk[|walk| - 1])
    && (env[walk[|walk| - 1].symbol] in open || exists j :: 0 <= j < |walk| - 1 && SameAlias(env, walk[j], walk[|walk| - 1]))
  }

  lemma {:induction false} DivergesHasWalk(env: Env, open: set<TypeDecl>, e: ASTType) returns (walk: seq<ASTType>)
    requires Normal(env, open, e) == Diverges
    ensures AliasWalk(env, e, walk) && Repeats(env, open, walk)
    decreases Aliases(env) - open, e, 1
  {
    match e {
      case ASTDeclTypeRef(s, _) =>
        walk := [e];
        if env[s] !in open {
          var rest := DivergesHasWalk(env, open + {env[s]}, env[s].declaredType);
          walk := [e] + rest;
          RepeatsFurther(env, open, e, rest);
        }
      case ASTQualType(t, _) => walk := DivergesHasWalk(env, open, t);
      case ASTPointerType(t, _, _) => walk := DivergesHasWalk(env, open, t);
      case ASTArrayType(t, _) => walk := DivergesHasWalk(env, open, t);
      case ASTFunctionType(ps, r, _) =>
        if NormalAll(env, open, ps) == Diverges {
          walk := DivergesAmongHasWalk(env, open, ps);
        } else {
          KnownIsAllClear(env, open, ps);
          walk := DivergesHasWalk(env, open, r);
        }
      case ASTObjectType(fs, _) => walk := DivergesInFieldsHasWalk(env, open, fs);
      case ASTEnumType(fs, _) => walk := DivergesInFieldsHasWalk(env, open, fs);
    }
  }

  lemma {:induction false} RepeatsFurther(env: Env, open: set<TypeDecl>, e: ASTType, rest: seq<ASTType>)
    requires ToAlias(env, e) && AliasWalk(env, Body(env, e), rest) && Repeats(env, open + {env[e.symbol]}, rest)
    ensures AliasWalk(env, e, [e] + rest) && Repeats(env, open, [e] + rest)
  {
    hide AliasWalk, Meets;
    var walk, last := [e] + rest, rest[|rest| - 1];
    assert walk[1..] == rest;
    WalkStarts(env, e, walk);
    if env[last.symbol] == env[e.symbol] {
      assert SameAlias(env, walk[0], last);
    } else if env[last.symbol] !in open {
      var j :| 0 <= j < |rest| - 1 && SameAlias(env, rest[j], last);
      assert walk[j + 1] == rest[j];
    }
  }

  lemma {:induction false} WalkStarts(env: Env, e: ASTType, walk: seq<ASTType>)
    requires ToAlias(env, e) && walk != [] && walk[0] == e && AliasWalk(env, Body(env, e), walk[1..])
    ensures AliasWalk(env, e, walk)
  {
  }

  lemma {:induction false} DivergesAmongHasWalk(env: Env, open: set<TypeDecl>, ps: seq<ASTType>)
    returns (walk: seq<ASTType>)
    requires NormalAll(env, open, ps) == Diverges
    ensures walk != [] && MeetsAmong(env, ps, walk[0]) && Onward(env, walk) && Repeats(env, open, walk)
    decreases Aliases(env) - open, ps, 0
  {
    if Normal(env, open, ps[0]) == Diverges {
      walk := DivergesHasWalk(env, open, ps[0]);
    } else {
      KnownIsClear(env, open, ps[0]);
      walk := DivergesAmongHasWalk(env, open, ps[1..]);
    }
  }

  lemma {:induction false} DivergesInFieldsHasWalk(env: Env, open: set<TypeDecl>, fs: seq<Field>)
    returns (walk: seq<ASTType>)
    requires NormalFields(env, open, fs) == Diverges
    ensures walk != [] && MeetsInFields(env, fs, walk[0]) && Onward(env, walk) && Repeats(env, open, walk)
    decreases Aliases(env) - open, fs, 0
  {
    if Normal(env, open, fs[0].ty) == Diverges {
      walk := DivergesHasWalk(env, open, fs[0].ty);
    } else {
      KnownIsClear(env, open, fs[0].ty);
      walk := DivergesInFieldsHasWalk(env, open, fs[1..]);
    }
  }

  ghost predicate Onward(env: Env, walk: seq<ASTType>)
    requires walk != []
  {
    ToAlias(env, walk[0]) && AliasWalk(env, Body(env, walk[0]), walk[1..])
  }

  lemma {:induction false} KnownIsClear(env: Env, open: set<TypeDecl>, e: ASTType)
    requires Normal(env, open, e).Known?
    ensures Clear(env, e)
  {
    forall walk
      ensures !WalkToUnresolved(env, e, walk)
    {
      KnownHasNoWalk(env, open, e, walk);
    }
  }

  lemma {:induction false} KnownIsAllClear(env: Env, open: set<TypeDecl>, ps: seq<ASTType>)
    requires NormalAll(env, open, ps).Known?
    ensures AllClear(env, ps)
  {
    if ps != [] {
      KnownIsClear(env, open, ps[0]);
      KnownIsAllClear(env, open, ps[1..]);
    }
  }

  // Where the expansion ends, each step of a walk takes some of the fuel.

  lemma {:induction false} MetIsExpanded(env: Env, fuel: nat, e: ASTType, leaf: ASTType)
    requires Expand(env, fuel, e) != Diverges && Meets(env, e, leaf)
    ensures Expand(env, fuel, leaf) != Diverges
    decreases e, 1
  {
    match e {
      case ASTQualType(t, _) => MetIsExpanded(env, fuel, t, leaf);
      case ASTPointerType(t, _, _) => MetIsExpanded(env, fuel, t, leaf);
      case ASTArrayType(t, _) => MetIsExpanded(env, fuel, t, leaf);
      case ASTFunctionType(ps, r, _) =>
        if MeetsAmong(env, ps, leaf) {
          MetAmongIsExpanded(env, fuel, ps, leaf);
        } else {
          AllClearIsExpanded(env, fuel, ps);
          MetIsExpanded(env, fuel, r, leaf);
        }
      case ASTObjectType(fs, _) => MetInFieldsIsExpanded(env, fuel, fs, leaf);
      case ASTEnumType(fs, _) => MetInFieldsIsExpanded(env, fuel, fs, leaf);
      case _ =>
    }
  }

  lemma {:induction false} ClearIsExpanded(env: Env, fuel: nat, e: ASTType)
    requires Clear(env, e) && Expand(env, fuel, e) != Diverges
    ensures Expand(env, fuel, e).Known?
  {
    ExpandedIsNormal(env, fuel, e);
    UnknownExactly(env, e);
  }

  lemma {:induction false} AllClearIsExpanded(env: Env, fuel: nat, ps: seq<ASTType>)
    requires AllClear(env, ps) && ExpandAll(env, fuel, ps) != Diverges
    ensures ExpandAll(env, fuel, ps).Known?
  {
    if ps != [] {
      ClearIsExpanded(env, fuel, ps[0]);
      AllClearIsExpanded(env, fuel, ps[1..]);
    }
  }

  lemma {:induction false} MetAmongIsExpanded(env: Env, fuel: nat, ps: seq<ASTType>, leaf: ASTType)
    requires ExpandAll(env, fuel, ps) != Diverges && MeetsAmong(env, ps, leaf)
    ensures Expand(env, fuel, leaf) != Diverges
    decreases ps, 0
  {
    if Meets(env, ps[0], leaf) {
      MetIsExpanded(env, fuel, ps[0], leaf);
    } else {
      ClearIsExpanded(env, fuel, ps[0]);
      MetAmongIsExpanded(env, fuel, ps[1..], leaf);
    }
  }

  lemma {:induction false} MetInFieldsIsExpanded(env: Env, fuel: nat, fs: seq<Field>, leaf: ASTType)
    requires ExpandFields(env, fuel, fs) != Diverges && MeetsInFields(env, fs, leaf)
    ensures Expand(env, fuel, leaf) != Diverges
    decreases fs, 0
  {
    if Meets(env, fs[0].ty, leaf) {
      MetIsExpanded(env, fuel, fs[0].ty, leaf);
    } else {
      ClearIsExpanded(env, fuel, fs[0].ty);
      MetInFieldsIsExpanded(env, fuel, fs[1..], leaf);
    }
  }

  lemma {:induction false} WalkTakesFuel(env: Env, fuel: nat, e: ASTType, walk: seq<ASTType>)
    requires Expand(env, fuel, e) != Diverges && AliasWalk(env, e, walk) && walk != []
    ensures ToAlias(env, walk[|walk| - 1]) && fuel >= |walk|
    ensures Expand(env, fuel - |walk|, Body(env, walk[|walk| - 1])) != Diverges
    decreases |walk|
  {
    MetIsExpanded(env, fuel, e, walk[0]);
    if |walk| > 1 {
      WalkTakesFuel(env, fuel - 1, Body(env, walk[0]), walk[1..]);
    }
  }

  lemma {:induction false} LeastFuel(env: Env, fuel: nat, e: ASTType) returns (least: nat)
    requires Expand(env, fuel, e) != Diverges
    ensures Expand(env, least, e) != Diverges && forall f :: 0 <= f < least ==> Expand(env, f, e) == Diverges
    decreases fuel
  {
    least := fuel;
    if f :| 0 <= f < fuel && Expand(env, f, e) != Diverges {
      least := LeastFuel(env, f, e);
    }
  }

  lemma {:induction false} EndingHasNoCycle(env: Env, e: ASTType, walk: seq<ASTType>)
    requires ComesBack(env, e, walk)
    ensures NormalForm(env, e) == Diverges
  {
    ExpansionEndsExactly(env, e);
    var j :| 0 <= j < |walk| - 1 && SameAlias(env, walk[j], walk[|walk| - 1]);
    if NormalForm(env, e) != Diverges {
      var fuel: nat :| Expand(env, fuel, e) != Diverges;
      WalkSplits(env, e, walk, j + 1);
      WalkTakesFuel(env, fuel, e, walk[..j + 1]);
      var body, round := Body(env, walk[j]), walk[j + 1..];
      var least := LeastFuel(env, fuel - (j + 1), body);
      assert round[|round| - 1] == walk[|walk| - 1];
      WalkTakesFuel(env, least, body, round);
    }
  }
}
