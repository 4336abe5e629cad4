/** When expanding aliases ends, and when it ends in an unknown type. */
module AliasExpansion {
  import opened AST
  import opened TypeStorage
  import opened NormalForms

  /** The recursion of materialisation itself, cut off after `fuel` nested alias expansions.
      Here `Diverges` says that the fuel ran out. */
  ghost function Expand(env: Env, fuel: nat, e: ASTType): Norm<SemType>
    decreases fuel, e, 1
  {
    match e
    case ASTBuiltinType(n, _) => NormalNative(n)
    case ASTDeclTypeRef(s, _) =>
      if s !in env then Unknown
      else if !env[s].isUse then Known(SNamed(env[s]))
      else if fuel == 0 then Diverges
      else Expand(env, fuel - 1, env[s].declaredType)
    case ASTQualType(t, _) => Expand(env, fuel, t)
    case ASTPointerType(t, _, _) =>
      var s :- Expand(env, fuel, t);
      Known(SPointer(Unqualified(s)))
    case ASTArrayType(t, _) =>
      var s :- Expand(env, fuel, t);
      Known(SArray(Unqualified(s)))
    case ASTFunctionType(ps, r, _) =>
      var ss :- ExpandAll(env, fuel, ps);
      var s :- Expand(env, fuel, r);
      Known(SFunc(ss, Unqualified(s)))
    case ASTObjectType(fs, _) =>
      var m :- ExpandFields(env, fuel, fs);
      Known(SObject(m))
    case ASTEnumType(fs, _) =>
      var m :- ExpandFields(env, fuel, fs);
      Known(SEnum(m))
  }

  ghost function ExpandAll(env: Env, fuel: nat, ps: seq<ASTType>): Norm<seq<SemQual>>
    decreases fuel, ps, 0
  {
    if ps == [] then Known([])
    else
      var s :- Expand(env, fuel, ps[0]);
      var ss :- ExpandAll(env, fuel, ps[1..]);
      Known([Unqualified(s)] + ss)
  }

  ghost function ExpandFields(env: Env, fuel: nat, fs: seq<Field>): Norm<map<string, SemQual>>
    decreases fuel, fs, 0
  {
    if fs == [] then Known(map[])
    else
      var s :- Expand(env, fuel, fs[0].ty);
      var m :- ExpandFields(env, fuel, fs[1..]);
      Known(m[fs[0].name := Unqualified(s)])
  }

  /** Expanding an expression ends, with the normal form, exactly when the path test finds no repeated alias. */
  lemma ExpansionEndsExactly(env: Env, e: ASTType)
    ensures (exists fuel :: Expand(env, fuel, e) != Diverges) <==> NormalForm(env, e) != Diverges
    ensures forall fuel :: Expand(env, fuel, e) != Diverges ==> Expand(env, fuel, e) == NormalForm(env, e)
  {
    forall fuel | Expand(env, fuel, e) != Diverges
      ensures Expand(env, fuel, e) == NormalForm(env, e)
    {
      ExpandedIsNormal(env, fuel, e);
    }
    if NormalForm(env, e) != Diverges {
      EnoughFuel(env, |Aliases(env) - {}|, {}, e);
    }
  }

  // One nesting level for each alias is enough fuel.

  ghost predicate Enough(env: Env, fuel: nat, open: set<TypeDecl>) {
    |Aliases(env) - open| <= fuel
  }

  lemma OneFewer(env: Env, fuel: nat, open: set<TypeDecl>, d: TypeDecl)
    requires Enough(env, fuel, open) && d in Aliases(env) && d !in open
    ensures fuel > 0 && Enough(env, fuel - 1, open + {d})
  {
    assert d in Aliases(env) - open;
    assert Aliases(env) - (open + {d}) == (Aliases(env) - open) - {d};
  }

  lemma {:induction false} EnoughFuel(env: Env, fuel: nat, open: set<TypeDecl>, e: ASTType)
    requires Enough(env, fuel, open) && Normal(env, open, e) != Diverges
    ensures Expand(env, fuel, e) == Normal(env, open, e)
    decreases fuel, e, 1
  {
    hide Enough;
    match e {
      case ASTDeclTypeRef(s, _) =>
        if s in env && env[s].isUse {
          EnoughFuelAlias(env, fuel, open, e);
        }
      case ASTQualType(t, _) => EnoughFuel(env, fuel, open, t);
      case ASTPointerType(t, _, _) => EnoughFuel(env, fuel, open, t);
      case ASTArrayType(t, _) => EnoughFuel(env, fuel, open, t);
      case ASTFunctionType(ps, r, _) =>
        EnoughFuelAll(env, fuel, open, ps);
        if NormalAll(env, open, ps).Known? { EnoughFuel(env, fuel, open, r); }
      case ASTObjectType(fs, _) => EnoughFuelFields(env, fuel, open, fs);
      case ASTEnumType(fs, _) => EnoughFuelFields(env, fuel, open, fs);
      case _ =>
    }
  }

  lemma {:induction false} EnoughFuelAlias(env: Env, fuel: nat, open: set<TypeDecl>, e: ASTType)
    requires ToAlias(env, e) && env[e.symbol] !in open
    requires var d := env[e.symbol]; Enough(env, fuel, open) && Normal(env, open + {d}, d.declaredType) != Diverges
    ensures fuel > 0
    ensures var d := env[e.symbol]; Expand(env, fuel - 1, d.declaredType) == Normal(env, open + {d}, d.declaredType)
    decreases fuel, e, 0
  {
    OneFewer(env, fuel, open, env[e.symbol]);
    EnoughFuel(env, fuel - 1, open + {env[e.symbol]}, env[e.symbol].declaredType);
  }

  lemma {:induction false} EnoughFuelAll(env: Env, fuel: nat, open: set<TypeDecl>, ps: seq<ASTType>)
    requires Enough(env, fuel, open) && NormalAll(env, open, ps) != Diverges
    ensures ExpandAll(env, fuel, ps) == NormalAll(env, open, ps)
    decreases fuel, ps, 0
  {
    if ps != [] {
      EnoughFuel(env, fuel, open, ps[0]);
      if Normal(env, open, ps[0]).Known? { EnoughFuelAll(env, fuel, open, ps[1..]); }
    }
  }

  lemma {:induction false} EnoughFuelFields(env: Env, fuel: nat, open: set<TypeDecl>, fs: seq<Field>)
    requires Enough(env, fuel, open) && NormalFields(env, open, fs) != Diverges
    ensures ExpandFields(env, fuel, fs) == NormalFields(env, open, fs)
    decreases fuel, fs, 0
  {
    if fs != [] {
      EnoughFuel(env, fuel, open, fs[0].ty);
      if Normal(env, open, fs[0].ty).Known? { EnoughFuelFields(env, fuel, open, fs[1..]); }
    }
  }

  // Conversely, an expansion that ended did not need the path.

  lemma {:induction false} ExpandedIsNormal(env: Env, fuel: nat, e: ASTType)
    requires Expand(env, fuel, e) != Diverges
    ensures NormalForm(env, e) == Expand(env, fuel, e)
    decreases fuel, e, 1
  {
    match e {
      case ASTDeclTypeRef(s, _) =>
        if s in env && env[s].isUse {
          ExpandedIsNormal(env, fuel - 1, env[s].declaredType);
          assert {} + {env[s]} == {env[s]};
          if Normal(env, {env[s]}, env[s].declaredType) == Diverges {
            OpeningOne(env, {}, env[s], env[s].declaredType);
          }
          NormalIgnoresOpen(env, {}, {env[s]}, env[s].declaredType);
        }
      case ASTQualType(t, _) => ExpandedIsNormal(env, fuel, t);
      case ASTPointerType(t, _, _) => ExpandedIsNormal(env, fuel, t);
      case ASTArrayType(t, _) => ExpandedIsNormal(env, fuel, t);
      case ASTFunctionType(ps, r, _) =>
        ExpandedAllIsNormal(env, fuel, ps);
        if ExpandAll(env, fuel, ps).Known? { ExpandedIsNormal(env, fuel, r); }
      case ASTObjectType(fs, _) => ExpandedFieldsIsNormal(env, fuel, fs);
      case ASTEnumType(fs, _) => ExpandedFieldsIsNormal(env, fuel, fs);
      case _ =>
    }
  }

  lemma {:induction false} ExpandedAllIsNormal(env: Env, fuel: nat, ps: seq<ASTType>)
    requires ExpandAll(env, fuel, ps) != Diverges
    ensures NormalAll(env, {}, ps) == ExpandAll(env, fuel, ps)
    decreases fuel, ps, 0
  {
    if ps != [] {
      ExpandedIsNormal(env, fuel, ps[0]);
      if Expand(env, fuel, ps[0]).Known? { ExpandedAllIsNormal(env, fuel, ps[1..]); }
    }
  }

  lemma {:induction false} ExpandedFieldsIsNormal(env: Env, fuel: nat, fs: seq<Field>)
    requires ExpandFields(env, fuel, fs) != Diverges
    ensures NormalFields(env, {}, fs) == ExpandFields(env, fuel, fs)
    decreases fuel, fs, 0
  {
    if fs != [] {
      ExpandedIsNormal(env, fuel, fs[0].ty);
      if Expand(env, fuel, fs[0].ty).Known? { ExpandedFieldsIsNormal(env, fuel, fs[1..]); }
    }
  }

  // If opening one more alias makes the difference, that alias was met and expanded without trouble.

  lemma {:induction false} OpeningOne(env: Env, open: set<TypeDecl>, d: TypeDecl, e: ASTType)
    requires Normal(env, open, e) != Diverges && Normal(env, open + {d}, e) == Diverges
    ensures Normal(env, {d}, d.declaredType) != Diverges
    decreases Aliases(env) - open, e, 1
  {
    match e {
      case ASTDeclTypeRef(s, _) =>
        if env[s] == d {
          NormalIgnoresOpen(env, {d}, open + {d}, d.declaredType);
        } else {
          assert open + {d} + {env[s]} == open + {env[s]} + {d};
          OpeningOne(env, open + {env[s]}, d, env[s].declaredType);
        }
      case ASTQualType(t, _) => OpeningOne(env, open, d, t);
      case ASTPointerType(t, _, _) => OpeningOne(env, open, d, t);
      case ASTArrayType(t, _) => OpeningOne(env, open, d, t);
      case ASTFunctionType(ps, r, _) =>
        if NormalAll(env, open + {d}, ps) == Diverges {
          OpeningOneAll(env, open, d, ps);
        } else {
          NormalAllIgnoresOpen(env, open, open + {d}, ps);
          OpeningOne(env, open, d, r);
        }
      case ASTObjectType(fs, _) => OpeningOneFields(env, open, d, fs);
      case ASTEnumType(fs, _) => OpeningOneFields(env, open, d, fs);
      case _ =>
    }
  }

  lemma {:induction false} OpeningOneAll(env: Env, open: set<TypeDecl>, d: TypeDecl, ps: seq<ASTType>)
    requires NormalAll(env, open, ps) != Diverges && NormalAll(env, open + {d}, ps) == Diverges
    ensures Normal(env, {d}, d.declaredType) != Diverges
    decreases Aliases(env) - open, ps, 0
  {
    if Normal(env, open + {d}, ps[0]) == Diverges {
      OpeningOne(env, open, d, ps[0]);
    } else {
      NormalIgnoresOpen(env, open, open + {d}, ps[0]);
      OpeningOneAll(env, open, d, ps[1..]);
    }
  }

  lemma {:induction false} OpeningOneFields(env: Env, open: set<TypeDecl>, d: TypeDecl, fs: seq<Field>)
    requires NormalFields(env, open, fs) != Diverges && NormalFields(env, open + {d}, fs) == Diverges
    ensures Normal(env, {d}, d.declaredType) != Diverges
    decreases Aliases(env) - open, fs, 0
  {
    if Normal(env, open + {d}, fs[0].ty) == Diverges {
      OpeningOne(env, open, d, fs[0].ty);
    } else {
      NormalIgnoresOpen(env, open, open + {d}, fs[0].ty);
      OpeningOneFields(env, open, d, fs[1..]);
    }
  }

  // Acyclic aliases.

  /** The leaves of an expression: its references and native types. */
  ghost function Leaves(e: ASTType): set<ASTType> {
    match e
    case ASTBuiltinType(_, _) => {e}
    case ASTDeclTypeRef(_, _) => {e}
    case ASTQualType(t, _) => Leaves(t)
    case ASTPointerType(t, _, _) => Leaves(t)
    case ASTArrayType(t, _) => Leaves(t)
    case ASTFunctionType(ps, r, _) => (set p, l | p in ps && l in Leaves(p) :: l) + Leaves(r)
    case ASTObjectType(fs, _) => set f, l | f in fs && l in Leaves(f.ty) :: l
    case ASTEnumType(fs, _) => set f, l | f in fs && l in Leaves(f.ty) :: l
  }

  predicate ToAlias(env: Env, leaf: ASTType) {
    leaf.ASTDeclTypeRef? && leaf.symbol in env && env[leaf.symbol].isUse
  }

  /** Every alias an expression mentions has a rank below `bound`. */
  ghost predicate RankedBelow(env: Env, rank: map<TypeDecl, nat>, e: ASTType, bound: nat) {
    forall l :: l in Leaves(e) && ToAlias(env, l) ==> env[l.symbol] in rank && rank[env[l.symbol]] < bound
  }

  /** The alias-to-alias reference graph is acyclic, witnessed by a ranking. `type` names may be recursive. */
  ghost predicate AcyclicUses(env: Env, rank: map<TypeDecl, nat>) {
    forall d :: d in Aliases(env) ==> d in rank && RankedBelow(env, rank, d.declaredType, rank[d])
  }

  /** With acyclic aliases every expression has a normal form, by alias rank first and expression size second. */
  lemma AcyclicUsesEnd(env: Env, rank: map<TypeDecl, nat>, e: ASTType)
    requires AcyclicUses(env, rank)
    ensures NormalForm(env, e) != Diverges
  {
    forall l | l in Leaves(e) && ToAlias(env, l)
      ensures env[l.symbol] in rank
    {
      assert env[l.symbol] in Aliases(env);
    }
    RankedEnds(env, rank, {}, e);
  }

  ghost predicate OpenAbove(env: Env, rank: map<TypeDecl, nat>, open: set<TypeDecl>, e: ASTType) {
    forall d :: d in open ==> d in rank && RankedBelow(env, rank, e, rank[d])
  }

  lemma {:induction false} RankedEnds(env: Env, rank: map<TypeDecl, nat>, open: set<TypeDecl>, e: ASTType)
    requires AcyclicUses(env, rank) && OpenAbove(env, rank, open, e)
    ensures Normal(env, open, e) != Diverges
    decreases Aliases(env) - open, e, 1
  {
    match e {
      case ASTDeclTypeRef(s, _) =>
        if ToAlias(env, e) {
          assert e in Leaves(e) && env[s] in Aliases(env);
          RankedEnds(env, rank, open + {env[s]}, env[s].declaredType);
        }
      case ASTQualType(t, _) => RankedEnds(env, rank, open, t);
      case ASTPointerType(t, _, _) => RankedEnds(env, rank, open, t);
      case ASTArrayType(t, _) => RankedEnds(env, rank, open, t);
      case ASTFunctionType(ps, r, _) =>
        assert forall p | p in ps :: Leaves(p) <= Leaves(e);
        RankedAllEnds(env, rank, open, ps);
        RankedEnds(env, rank, open, r);
      case ASTObjectType(fs, _) =>
        assert forall f | f in fs :: Leaves(f.ty) <= Leaves(e);
        RankedFieldsEnds(env, rank, open, fs);
      case ASTEnumType(fs, _) =>
        assert forall f | f in fs :: Leaves(f.ty) <= Leaves(e);
        RankedFieldsEnds(env, rank, open, fs);
      case _ =>
    }
  }

  lemma {:induction false} RankedAllEnds(env: Env, rank: map<TypeDecl, nat>, open: set<TypeDecl>, ps: seq<ASTType>)
    requires AcyclicUses(env, rank) && forall p :: p in ps ==> OpenAbove(env, rank, open, p)
    ensures NormalAll(env, open, ps) != Diverges
    decreases Aliases(env) - open, ps, 0
  {
    if ps != [] {
      RankedEnds(env, rank, open, ps[0]);
      RankedAllEnds(env, rank, open, ps[1..]);
    }
  }

  lemma {:induction false} RankedFieldsEnds(env: Env, rank: map<TypeDecl, nat>, open: set<TypeDecl>, fs: seq<Field>)
    requires AcyclicUses(env, rank) && forall f :: f in fs ==> OpenAbove(env, rank, open, f.ty)
    ensures NormalFields(env, open, fs) != Diverges
    decreases Aliases(env) - open, fs, 0
  {
    if fs != [] {
      RankedEnds(env, rank, open, fs[0].ty);
      RankedFieldsEnds(env, rank, open, fs[1..]);
    }
  }

  /** Nothing rejects `use a = b; use b = a`: expanding either alias never ends. */
  lemma MutualAliasesNeverEnd(env: Env, a: string, b: string, slot: TypeSlot)
    requires RefersTo(env, a, b) && RefersTo(env, b, a)
    ensures forall fuel :: Expand(env, fuel, ASTDeclTypeRef(a, slot)) == Diverges
    ensures forall fuel :: Expand(env, fuel, ASTDeclTypeRef(b, slot)) == Diverges
  {
    FirstOfTwoNeverEnds(env, a, b, slot);
    FirstOfTwoNeverEnds(env, b, a, slot);
  }

  /** The name is declared as an alias of another name, or of itself. */
  ghost predicate RefersTo(env: Env, name: string, other: string) {
    name in env && env[name].isUse && env[name].declaredType.ASTDeclTypeRef? && env[name].declaredType.symbol == other
  }

  lemma {:induction false} FirstOfTwoNeverEnds(env: Env, a: string, b: string, slot: TypeSlot)
    requires RefersTo(env, a, b) && RefersTo(env, b, a)
    ensures forall fuel :: Expand(env, fuel, ASTDeclTypeRef(a, slot)) == Diverges
  {
    var e, d, d' := ASTDeclTypeRef(a, slot), env[a], env[b];
    assert Normal(env, {d, d'}, d'.declaredType) == Diverges;
    assert {d} + {d'} == {d, d'};
    assert Normal(env, {d}, d.declaredType) == Diverges;
    assert {} + {d} == {d};
    ExpansionEndsExactly(env, e);
  }

  // Unknown types.

  predicate Dangling(env: Env, leaf: ASTType) {
    || (leaf.ASTDeclTypeRef? && leaf.symbol !in env)
    || (leaf.ASTBuiltinType? && leaf.native == UnknownN)
  }

  /** The expression mentions this alias. */
  ghost predicate Mentions(env: Env, e: ASTType, name: string) {
    exists l :: l in Leaves(e) && ToAlias(env, l) && l.symbol == name
  }

  /** A walk from an expression to an unresolved leaf, stepping from alias to alias, never through a `type` name. It is
      given by the names of the aliases. */
  ghost predicate WalkToUnresolved(env: Env, e: ASTType, walk: seq<string>)
    decreases |walk|
  {
    if walk == [] then exists l :: l in Leaves(e) && Dangling(env, l)
    else Mentions(env, e, walk[0]) && WalkToUnresolved(env, env[walk[0]].declaredType, walk[1..])
  }

  /** A walk from a part is one from the whole. */
  lemma {:induction false} WalkFromPart(env: Env, part: ASTType, e: ASTType, walk: seq<string>)
    requires Leaves(part) <= Leaves(e) && WalkToUnresolved(env, part, walk)
    ensures WalkToUnresolved(env, e, walk)
  {
    if walk != [] {
      var l :| l in Leaves(part) && ToAlias(env, l) && l.symbol == walk[0];
      assert l in Leaves(e);
    }
  }

  /** An expression is unknown exactly when an unresolved reference can be reached in it through aliases. */
  lemma UnknownExactly(env: Env, e: ASTType)
    requires NormalForm(env, e) != Diverges
    ensures NormalForm(env, e) == Unknown <==> exists walk :: WalkToUnresolved(env, e, walk)
  {
    if NormalForm(env, e) == Unknown {
      var walk := UnknownHasWalk(env, {}, e);
      assert exists w :: WalkToUnresolved(env, e, w);
    } else {
      forall walk
        ensures !WalkToUnresolved(env, e, walk)
      {
        KnownHasNoWalk(env, {}, e, walk);
      }
    }
  }

  lemma {:induction false} UnknownHasWalk(env: Env, open: set<TypeDecl>, e: ASTType) returns (walk: seq<string>)
    requires Normal(env, open, e) == Unknown
    ensures WalkToUnresolved(env, e, walk)
    decreases Aliases(env) - open, e, 1
  {
    match e {
      case ASTBuiltinType(_, _) =>
        walk := [];
        assert e in Leaves(e);
      case ASTDeclTypeRef(s, _) =>
        assert e in Leaves(e);
        walk := [];
        if s in env {
          var rest := UnknownHasWalk(env, open + {env[s]}, env[s].declaredType);
          walk := [s] + rest;
          assert walk[1..] == rest;
        }
      case ASTQualType(t, _) =>
        walk := UnknownHasWalk(env, open, t);
        WalkFromPart(env, t, e, walk);
      case ASTPointerType(t, _, _) =>
        walk := UnknownHasWalk(env, open, t);
        WalkFromPart(env, t, e, walk);
      case ASTArrayType(t, _) =>
        walk := UnknownHasWalk(env, open, t);
        WalkFromPart(env, t, e, walk);
      case ASTFunctionType(ps, r, _) =>
        var part := r;
        if NormalAll(env, open, ps) == Unknown {
          part, walk := UnknownAllHasWalk(env, open, ps);
        } else {
          walk := UnknownHasWalk(env, open, r);
        }
        WalkFromPart(env, part, e, walk);
      case ASTObjectType(fs, _) =>
        var f;
        f, walk := UnknownFieldsHasWalk(env, open, fs);
        WalkFromPart(env, f.ty, e, walk);
      case ASTEnumType(fs, _) =>
        var f;
        f, walk := UnknownFieldsHasWalk(env, open, fs);
        WalkFromPart(env, f.ty, e, walk);
    }
  }

  lemma {:induction false} UnknownAllHasWalk(env: Env, open: set<TypeDecl>, ps: seq<ASTType>)
    returns (p: ASTType, walk: seq<string>)
    requires NormalAll(env, open, ps) == Unknown
    ensures p in ps && WalkToUnresolved(env, p, walk)
    decreases Aliases(env) - open, ps, 0
  {
    if Normal(env, open, ps[0]) == Unknown {
      p := ps[0];
      walk := UnknownHasWalk(env, open, p);
    } else {
      p, walk := UnknownAllHasWalk(env, open, ps[1..]);
    }
  }

  lemma {:induction false} UnknownFieldsHasWalk(env: Env, open: set<TypeDecl>, fs: seq<Field>)
    returns (f: Field, walk: seq<string>)
    requires NormalFields(env, open, fs) == Unknown
    ensures f in fs && WalkToUnresolved(env, f.ty, walk)
    decreases Aliases(env) - open, fs, 0
  {
    if Normal(env, open, fs[0].ty) == Unknown {
      f := fs[0];
      walk := UnknownHasWalk(env, open, f.ty);
    } else {
      f, walk := UnknownFieldsHasWalk(env, open, fs[1..]);
    }
  }

  /** Every leaf of an expression whose normal form is known is resolved, and known itself. */
  lemma {:induction false} KnownLeaf(env: Env, open: set<TypeDecl>, e: ASTType, leaf: ASTType)
    requires Normal(env, open, e).Known? && leaf in Leaves(e)
    ensures Normal(env, open, leaf).Known?
    decreases e, 1
  {
    match e {
      case ASTQualType(t, _) => KnownLeaf(env, open, t, leaf);
      case ASTPointerType(t, _, _) => KnownLeaf(env, open, t, leaf);
      case ASTArrayType(t, _) => KnownLeaf(env, open, t, leaf);
      case ASTFunctionType(ps, r, _) =>
        if leaf in Leaves(r) {
          KnownLeaf(env, open, r, leaf);
        } else {
          var p :| p in ps && leaf in Leaves(p);
          KnownAmong(env, open, ps, p);
          KnownLeaf(env, open, p, leaf);
        }
      case ASTObjectType(fs, _) =>
        var f :| f in fs && leaf in Leaves(f.ty);
        KnownInFields(env, open, fs, f);
        KnownLeaf(env, open, f.ty, leaf);
      case ASTEnumType(fs, _) =>
        var f :| f in fs && leaf in Leaves(f.ty);
        KnownInFields(env, open, fs, f);
        KnownLeaf(env, open, f.ty, leaf);
      case _ =>
    }
  }

  lemma {:induction false} KnownAmong(env: Env, open: set<TypeDecl>, ps: seq<ASTType>, p: ASTType)
    requires NormalAll(env, open, ps).Known? && p in ps
    ensures Normal(env, open, p).Known?
  {
    if p != ps[0] {
      KnownAmong(env, open, ps[1..], p);
    }
  }

  lemma {:induction false} KnownInFields(env: Env, open: set<TypeDecl>, fs: seq<Field>, f: Field)
    requires NormalFields(env, open, fs).Known? && f in fs
    ensures Normal(env, open, f.ty).Known?
  {
    if f != fs[0] {
      KnownInFields(env, open, fs[1..], f);
    }
  }

  lemma {:induction false} KnownHasNoWalk(env: Env, open: set<TypeDecl>, e: ASTType, walk: seq<string>)
    requires Normal(env, open, e).Known?
    ensures !WalkToUnresolved(env, e, walk)
    decreases |walk|
  {
    if walk == [] {
      if leaf :| leaf in Leaves(e) && Dangling(env, leaf) {
        KnownLeaf(env, open, e, leaf);
      }
    } else if leaf :| leaf in Leaves(e) && ToAlias(env, leaf) && leaf.symbol == walk[0] {
      KnownLeaf(env, open, e, leaf);
      KnownHasNoWalk(env, open + {env[walk[0]]}, env[walk[0]].declaredType, walk[1..]);
    }
  }
}
