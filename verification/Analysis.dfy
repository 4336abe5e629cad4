/** Any number of units, one after the other, over one interner and one scope tree. */
module Analyses {
  import opened QualTypes
  import opened LexicalScopes
  import opened AST
  import opened TypeStorage
  import opened TypeContexts
  import opened NormalForms
  import opened Materialisation
  import opened Programs
  import opened ScopeTrees
  import opened SymbolTables
  import opened Diagnostics
  import opened ResolveTypeSymbols
  import opened MaterializeTypes
  import opened ResolveGlobalTypes
  import opened Overloads
  import opened ForwardDeclareFunctions
  import opened FunctionPass
  import opened ScopeContents
  import opened PipelineSpecs
  import opened Pipeline

  /** What a type node holds. */
  datatype SlotState = SlotState(declNode: TypeDecl?, ty: QualType)

  type Slots = map<TypeSlot, SlotState>

  ghost function SlotsOf(slots: set<TypeSlot>): Slots
    reads slots
  {
    map s | s in slots :: SlotState(s.declNode, s.ty)
  }

  ghost function BindingIn(ss: Slots, owner: Owner): Binding {
    map s | s in owner && s in ss :: ss[s].declNode
  }

  ghost function TypingIn(ss: Slots, owner: Owner): Typing {
    map s | s in owner && s in ss :: ss[s].ty
  }

  lemma {:induction false} SameSnapshots(slots: set<TypeSlot>, owner: Owner)
    requires owner.Keys <= slots
    ensures BindingIn(SlotsOf(slots), owner) == BindingOf(owner) && TypingIn(SlotsOf(slots), owner) == TypingOf(owner)
  {
  }

  /** The nodes of the builtin aliases' types, which every unit shares. */
  ghost predicate BuiltinSlot(builtins: Env, s: TypeSlot) {
    exists n :: n in builtins && builtins[n].declaredType.slot == s
  }

  /** A unit still to be analysed: nothing in it is bound or typed wrongly. */
  ghost predicate Pending(builtins: Env, p: ProgramDecl, owner: Owner, ss: Slots, st: Storage)
    requires WellFormed(st)
  {
    && NoneMisbound(EnvOf(builtins, p), owner, BindingIn(ss, owner))
    && Sound(EnvOf(builtins, p), owner, st, TypingIn(ss, owner))
    && AllUnknown(TypingIn(ss, owner), DeclsLocals(p.decls))
  }

  /** A unit that has been analysed: every reference outside blocks is bound, every type node there has its type, none
      inside a block has one, and every scope of the unit holds what it should. */
  ghost predicate Finished(builtins: Env, p: ProgramDecl, owner: Owner, ss: Slots, st: Storage, ts: Tables)
    requires WellFormed(st)
  {
    && Resolved(EnvOf(builtins, p), Roots(p), st, TypingIn(ss, owner))
    && AllBound(EnvOf(builtins, p), Roots(p), BindingIn(ss, owner))
    && DeclsResolved(EnvOf(builtins, p), st, TypingIn(ss, owner), BindingIn(ss, owner), p.decls)
    && AllUnknown(TypingIn(ss, owner), DeclsLocals(p.decls))
    && UnitDone(EnvOf(builtins, p), p, ts)
  }

  /** Units share no nodes; of their type nodes they share only those of the builtins, none of which
      they visit directly or have inside a block. */
  ghost predicate Separate(builtins: Env, p: ProgramDecl, owner: Owner, p': ProgramDecl, owner': Owner) {
    && UnitNodes(p) !! UnitNodes(p')
    && (forall s :: s in owner && s in owner' ==> BuiltinSlot(builtins, s))
    && (forall r :: r in Roots(p) ==> r.ty.slot !in owner')
    && DeclsLocals(p.decls) !! owner'.Keys
  }

  ghost predicate SlotsKept(ss: Slots, ss': Slots, owner: Owner) {
    ss'.Keys == ss.Keys && forall s :: s in ss && s !in owner ==> ss'[s] == ss[s]
  }

  /** Types grow, tables elsewhere stay: a finished unit stays finished. */
  lemma {:induction false} StaysFinished(builtins: Env, p: ProgramDecl, owner: Owner, p': ProgramDecl, owner': Owner,
                                         ss: Slots, ss': Slots, st: Storage, st': Storage, ts: Tables, ts': Tables)
    requires WellFormed(st) && WellFormed(st') && st <= st' && Separate(builtins, p, owner, p', owner')
    requires Finished(builtins, p, owner, ss, st, ts) && SlotsKept(ss, ss', owner')
             && SameOutside(ts, ts', UnitNodes(p')) && Owns(owner, builtins, p)
    ensures Finished(builtins, p, owner, ss', st', ts')
  {
    hide WellFormed, EnvOf, Roots, Normal, Means, FileScopeIs, TableOk, DeclsUnder, DeclsHold, BoundIn, Owned,
         DeclsLocals, DeclsResolved;
    var env := EnvOf(builtins, p);
    StaysBound(builtins, p, owner, owner', BindingIn(ss, owner), BindingIn(ss', owner));
    DeclsStay(env, p.decls, ts, ts', p.decls);
    forall r | r in Roots(p)
      ensures r.ty.slot in TypingIn(ss', owner) && Means(st', TypingIn(ss', owner)[r.ty.slot], NormalForm(env, r.ty))
    {
      MeansStable(st, st', TypingIn(ss, owner)[r.ty.slot], NormalForm(env, r.ty));
    }
    RootsAreTheDeclarations(env, p, st', TypingIn(ss', owner), BindingIn(ss', owner));
  }

  /** A unit's references are not builtins' type nodes, so no other unit binds them. */
  lemma {:induction false} StaysBound(builtins: Env, p: ProgramDecl, owner: Owner, owner': Owner, b: Binding, b': Binding)
    requires Owns(owner, builtins, p) && AllBound(EnvOf(builtins, p), Roots(p), b)
    requires forall s :: s in owner && s in owner' ==> BuiltinSlot(builtins, s)
    requires forall s :: s in b && s !in owner' ==> s in b' && b'[s] == b[s]
    ensures AllBound(EnvOf(builtins, p), Roots(p), b')
  {
    hide EnvOf, Roots, BoundIn, Owned;
    forall s | s in owner && s in b && owner[s].ASTDeclTypeRef?
      ensures s in b' && b'[s] == b[s]
    {
      if s in owner' {
        var n :| n in builtins && builtins[n].declaredType.slot == s;
        OwnNode(owner, builtins[n].declaredType);
      }
    }
    forall r | r in Roots(p)
      ensures BoundIn(EnvOf(builtins, p), b', r.ty)
    {
      BoundElsewhere(EnvOf(builtins, p), owner, b, b', r.ty);
    }
  }

  lemma {:induction false} OwnNode(owner: Owner, e: ASTType)
    requires Owned(owner, e)
    ensures e.slot in owner && owner[e.slot] == e
  {
  }

  /** A pending unit stays pending: where the two units share a node, it is a builtin's, and means the same in both. */
  lemma {:induction false} StaysPending(builtins: Env, p: ProgramDecl, owner: Owner, p': ProgramDecl, owner': Owner,
                                        ss: Slots, ss': Slots, st: Storage, st': Storage)
    requires WellFormed(st) && WellFormed(st') && st <= st' && Separate(builtins, p, owner, p', owner')
    requires Owns(owner, builtins, p) && Owns(owner', builtins, p') && owner.Keys <= ss.Keys && owner'.Keys <= ss.Keys
    requires Pending(builtins, p, owner, ss, st) && SlotsKept(ss, ss', owner')
    requires Sound(EnvOf(builtins, p'), owner', st', TypingIn(ss', owner'))
    ensures Pending(builtins, p, owner, ss', st')
  {
    hide WellFormed, EnvOf, Roots, UnfoldQ, DeclsUnder, DeclsLocals;
    var env, env' := EnvOf(builtins, p), EnvOf(builtins, p');
    forall s | s in owner && s in owner'
      ensures owner[s].ASTBuiltinType? && owner[s] == owner'[s]
    {
      var n :| n in builtins && builtins[n].declaredType.slot == s;
    }
    forall s | s in owner && TypingIn(ss', owner)[s] != UNKNOWN
      ensures Means(st', TypingIn(ss', owner)[s], NormalForm(env, owner[s]))
    {
      if s in owner' {
        assert TypingIn(ss', owner')[s] == TypingIn(ss', owner)[s];
        assert NormalForm(env, owner[s]) == NormalForm(env', owner'[s]);
      } else {
        assert TypingIn(ss', owner)[s] == TypingIn(ss, owner)[s];
        MeansStable(st, st', TypingIn(ss, owner)[s], NormalForm(env, owner[s]));
      }
    }
  }

  // Function lists across units.

  ghost function AttachedAll(builtins: Env, ps: seq<ProgramDecl>, target: TypeDecl): seq<FuncDecl> {
    if ps == [] then [] else
      var p := ps[|ps| - 1];
      AttachedAll(builtins, ps[..|ps| - 1], target) + AttachedBy(EnvOf(builtins, p), p.decls, target)
  }

  /** Every list holds exactly what the units attached, in order, and every type that has a block has a list. */
  ghost predicate ListsAre(builtins: Env, ps: seq<ProgramDecl>, lists: map<TypeDecl, seq<FuncDecl>>) {
    && (forall target :: target in lists ==> lists[target] == AttachedAll(builtins, ps, target))
    && (forall p, d :: p in ps && d in p.decls && d.ImplD? && ImplTarget(EnvOf(builtins, p), d.i).Some? ==>
          ImplTarget(EnvOf(builtins, p), d.i).value in lists)
  }

  /** A function is in the list of a named type exactly if it is kept from some block for the type, in some unit. */
  ghost predicate ListsHold(builtins: Env, ps: seq<ProgramDecl>, lists: map<TypeDecl, seq<FuncDecl>>) {
    && (forall target, f :: target in lists && f in lists[target] ==> Contributed(builtins, ps, target, f))
    && (forall p, d :: p in ps && d in p.decls && d.ImplD? ==> BlockListed(EnvOf(builtins, p), d.i, lists))
  }

  /** If the block is for a named type, the functions kept from it are in the type's list. */
  ghost predicate BlockListed(env: Env, i: ImplDecl, lists: map<TypeDecl, seq<FuncDecl>>) {
    var n := NormalForm(env, i.declaredType);
    n.Known? && n.value.SNamed? ==>
      forall f :: f in i.impls && f in OverloadSet(env, i.impls, f.name) ==>
        n.value.decl in lists && f in lists[n.value.decl]
  }

  ghost predicate Contributed(builtins: Env, ps: seq<ProgramDecl>, target: TypeDecl, f: FuncDecl) {
    exists p, d :: p in ps && d in p.decls && BlockFor(EnvOf(builtins, p), d, target)
                   && f in OverloadSet(EnvOf(builtins, p), d.i.impls, f.name)
  }

  lemma {:induction false} AttachedAllExactly(builtins: Env, ps: seq<ProgramDecl>, target: TypeDecl, f: FuncDecl)
    ensures f in AttachedAll(builtins, ps, target) <==> Contributed(builtins, ps, target, f)
  {
    hide EnvOf, NormalForm, OverloadSet, AttachedBy, BlockFor;
    if ps != [] {
      var before, p := ps[..|ps| - 1], ps[|ps| - 1];
      AttachedAllExactly(builtins, before, target, f);
      AttachedExactly(EnvOf(builtins, p), p.decls, target, f);
      assert forall x :: x in ps <==> x in before || x == p;
    }
  }

  lemma {:induction false} ListsAreExact(builtins: Env, ps: seq<ProgramDecl>, lists: map<TypeDecl, seq<FuncDecl>>)
    requires ListsAre(builtins, ps, lists)
    ensures ListsHold(builtins, ps, lists)
  {
    hide EnvOf, NormalForm, OverloadSet, AttachedAll, Contributed;
    forall target, f | target in lists && f in lists[target]
      ensures Contributed(builtins, ps, target, f)
    {
      AttachedAllExactly(builtins, ps, target, f);
    }
    forall p, d, f: FuncDecl, target | p in ps && d in p.decls && BlockFor(EnvOf(builtins, p), d, target)
                             && f in OverloadSet(EnvOf(builtins, p), d.i.impls, f.name)
      ensures target in lists && f in lists[target]
    {
      AttachedAllExactly(builtins, ps, target, f);
      IsContributed(builtins, ps, target, f, p, d);
      assert ImplTarget(EnvOf(builtins, p), d.i) == Some(target);
    }
    forall p, d | p in ps && d in p.decls && d.ImplD?
      ensures BlockListed(EnvOf(builtins, p), d.i, lists)
    {
      var n := NormalForm(EnvOf(builtins, p), d.i.declaredType);
      if n.Known? && n.value.SNamed? {
        assert BlockFor(EnvOf(builtins, p), d, n.value.decl);
      }
    }
  }

  lemma {:induction false} IsContributed(builtins: Env, ps: seq<ProgramDecl>, target: TypeDecl, f: FuncDecl, p: ProgramDecl,
                                         d: Decl)
    requires p in ps && d in p.decls && BlockFor(EnvOf(builtins, p), d, target)
    requires f in OverloadSet(EnvOf(builtins, p), d.i.impls, f.name)
    ensures Contributed(builtins, ps, target, f)
  {
  }

  lemma {:induction false} NamedForm(env: Env, e: ASTType, t: TypeDecl, u: TypeDecl)
    requires t.name in env && env[t.name] == t && !t.isUse && u.name in env && env[u.name] == u && u.isUse
    requires u.declaredType.ASTDeclTypeRef? && u.declaredType.symbol == t.name
    requires e.ASTDeclTypeRef? && e.symbol in {t.name, u.name}
    ensures NormalForm(env, e) == Known(SNamed(t))
  {
    assert Normal(env, {u}, u.declaredType) == Known(SNamed(t));
    assert {} + {u} == {u};
  }

  /** A block for a `use` alias of a type and a block for the type share the type's list. */
  lemma {:induction false} AliasAndTypeShareAList(builtins: Env, ps: seq<ProgramDecl>, lists: map<TypeDecl, seq<FuncDecl>>,
                                                  p: ProgramDecl, t: TypeDecl, u: TypeDecl, i: ImplDecl, f: FuncDecl)
    requires ListsHold(builtins, ps, lists) && p in ps && ImplD(i) in p.decls
    requires t.name in FirstTypes(p.decls) && FirstTypes(p.decls)[t.name] == t && !t.isUse
    requires u.name in FirstTypes(p.decls) && FirstTypes(p.decls)[u.name] == u && u.isUse
             && u.declaredType.ASTDeclTypeRef? && u.declaredType.symbol == t.name
    requires i.declaredType.ASTDeclTypeRef? && i.declaredType.symbol in {t.name, u.name}
    requires f in i.impls && f in OverloadSet(EnvOf(builtins, p), i.impls, f.name)
    ensures t in lists && f in lists[t]
  {
    hide OverloadSet, Contributed, NormalForm;
    assert ImplD(i) in p.decls && BlockListed(EnvOf(builtins, p), ImplD(i).i, lists);
    var env := EnvOf(builtins, p);
    assert env[t.name] == t && env[u.name] == u;
    NamedForm(env, i.declaredType, t, u);
  }

  /** No function is in a list twice. */
  ghost predicate ListsOnce(lists: map<TypeDecl, seq<FuncDecl>>) {
    forall target :: target in lists ==> NoRepeats(lists[target])
  }

  lemma {:induction false} AttachedLieUnder(env: Env, ds: seq<Decl>, target: TypeDecl)
    ensures forall f :: f in AttachedBy(env, ds, target) ==> f.node in DeclsUnder(ds)
  {
    hide ImplTarget, KeptFuncs;
    if ds != [] {
      AttachedLieUnder(env, ds[..|ds| - 1], target);
      var d := ds[|ds| - 1];
      if d.ImplD? {
        KeptOnce(env, map[], d.i.impls);
        forall f | f in d.i.impls ensures f.node in FuncsUnder(d.i.impls) {
          FuncInFuncs(d.i.impls, f);
          assert f.node in FuncUnder(f);
        }
      }
    }
  }

  /** Units share no nodes, so none attaches a function that another attached before. */
  lemma {:induction false} AttachedAllOnce(builtins: Env, ps: seq<ProgramDecl>, target: TypeDecl)
    requires forall k :: 0 <= k < |ps| ==> Placed(ps[k]) && UnitDistinct(ps[k])
    requires forall j, k :: 0 <= j < k < |ps| ==> UnitNodes(ps[j]) !! UnitNodes(ps[k])
    ensures NoRepeats(AttachedAll(builtins, ps, target))
    ensures forall f :: f in AttachedAll(builtins, ps, target) ==> exists k :: 0 <= k < |ps| && f.node in UnitNodes(ps[k])
  {
    hide Placed, UnitDistinct, DeclsUnder, AttachedBy, EnvOf;
    if ps != [] {
      var n := |ps| - 1;
      var p := ps[n];
      var env := EnvOf(builtins, p);
      AttachedAllOnce(builtins, ps[..n], target);
      DistinctImpls(p);
      AttachedOnce(env, p, target);
      AttachedLieUnder(env, p.decls, target);
      var before, more := AttachedAll(builtins, ps[..n], target), AttachedBy(env, p.decls, target);
      forall f | f in before
        ensures f !in more && exists k :: 0 <= k < |ps| && f.node in UnitNodes(ps[k])
      {
        var k :| 0 <= k < n && f.node in UnitNodes(ps[..n][k]);
        assert ps[k] == ps[..n][k] && UnitNodes(ps[k]) !! UnitNodes(p);
      }
      forall f | f in more ensures f.node in UnitNodes(ps[n]) {}
      NoRepeatsTogether(before, more);
    }
  }

  lemma {:induction false} SetupAttachesOnce(builtins: Env, ps: seq<ProgramDecl>, owners: seq<Owner>, slots: set<TypeSlot>,
                                             nodes: set<ScopedASTNode>, i: nat, lists: map<TypeDecl, seq<FuncDecl>>)
    requires Setup(builtins, ps, owners, slots, nodes) && i <= |ps| && ListsAre(builtins, ps[..i], lists)
    ensures ListsOnce(lists)
  {
    hide UnitNodes, Owns, AllEnd, Shaped, Placed, UnitDistinct, AttachedAll, DeclDeep, ImplTarget;
    forall j, k | 0 <= j < k < i ensures UnitNodes(ps[j]) !! UnitNodes(ps[k]) {
      assert Separate(builtins, ps[j], owners[j], ps[k], owners[k]);
    }
    forall k | 0 <= k < i ensures Placed(ps[k]) && UnitDistinct(ps[k]) {
      assert UnitShaped(builtins, ps[k], owners[k]);
    }
    forall target | target in lists ensures NoRepeats(lists[target]) {
      AttachedAllOnce(builtins, ps[..i], target);
    }
  }

  lemma {:induction false} NothingAttachedBy(env: Env, ds: seq<Decl>, target: TypeDecl)
    requires forall d :: d in ds && d.ImplD? ==> ImplTarget(env, d.i) != Some(target)
    ensures AttachedBy(env, ds, target) == []
  {
    hide ImplTarget, KeptFuncs;
    if ds != [] {
      NothingAttachedBy(env, ds[..|ds| - 1], target);
    }
  }

  lemma {:induction false} NothingAttachedAll(builtins: Env, ps: seq<ProgramDecl>, lists: map<TypeDecl,
                                              seq<FuncDecl>>, target: TypeDecl)
    requires target !in lists
    requires forall p, d :: p in ps && d in p.decls && d.ImplD? && ImplTarget(EnvOf(builtins, p), d.i).Some? ==>
               ImplTarget(EnvOf(builtins, p), d.i).value in lists
    ensures AttachedAll(builtins, ps, target) == []
  {
    hide ImplTarget, EnvOf;
    if ps != [] {
      var p := ps[|ps| - 1];
      NothingAttachedAll(builtins, ps[..|ps| - 1], lists, target);
      forall d | d in p.decls && d.ImplD?
        ensures ImplTarget(EnvOf(builtins, p), d.i) != Some(target)
      {
        assert p in ps;
      }
      NothingAttachedBy(EnvOf(builtins, p), p.decls, target);
    }
  }

  lemma {:induction false} ListsAfterUnit(builtins: Env, ps: seq<ProgramDecl>, p: ProgramDecl,
                                          lists: map<TypeDecl, seq<FuncDecl>>, lists': map<TypeDecl, seq<FuncDecl>>)
    requires ListsAre(builtins, ps, lists) && ListsGained(EnvOf(builtins, p), lists, lists', p.decls)
    ensures ListsAre(builtins, ps + [p], lists')
  {
    hide ImplTarget, EnvOf, AttachedBy;
    assert (ps + [p])[..|ps|] == ps;
    forall target | target in lists'
      ensures lists'[target] == AttachedAll(builtins, ps + [p], target)
    {
      if target !in lists {
        NothingAttachedAll(builtins, ps, lists, target);
      }
    }
  }

  /** Well-formed units that share no nodes but those of the builtins. */
  ghost predicate Setup(builtins: Env, ps: seq<ProgramDecl>, owners: seq<Owner>, slots: set<TypeSlot>,
                        nodes: set<ScopedASTNode>) {
    && |owners| == |ps|
    && (forall k :: 0 <= k < |ps| ==>
          UnitShaped(builtins, ps[k], owners[k]) && UnitNodes(ps[k]) <= nodes && owners[k].Keys <= slots)
    && (forall j, k :: 0 <= j < |ps| && 0 <= k < |ps| && j != k ==> Separate(builtins, ps[j], owners[j], ps[k], owners[k]))
  }

  ghost predicate Unentered(p: ProgramDecl, m: ScopeMap) {
    forall n :: n in UnitNodes(p) ==> n in m && m[n] == null
  }

  /** The state after the first `i` units: those are finished, the rest are pending, and the function lists are exact. */
  ghost predicate World(builtins: Env, ps: seq<ProgramDecl>, owners: seq<Owner>, i: nat, ss: Slots, st: Storage,
                        ts: Tables,
                        m: ScopeMap, lists: map<TypeDecl, seq<FuncDecl>>)
    requires |owners| == |ps| && i <= |ps| && WellFormed(st)
  {
    && (forall j :: 0 <= j < i ==> Finished(builtins, ps[j], owners[j], ss, st, ts))
    && (forall k :: i <= k < |ps| ==> Pending(builtins, ps[k], owners[k], ss, st) && Unentered(ps[k], m))
    && ListsAre(builtins, ps[..i], lists)
    && ListsHold(builtins, ps[..i], lists) && ListsOnce(lists)
  }

  lemma {:induction false} WorldAfterUnit(builtins: Env, ps: seq<ProgramDecl>, owners: seq<Owner>, slots: set<TypeSlot>,
                                          nodes: set<ScopedASTNode>, i: nat, ss: Slots, ss': Slots, st: Storage, st': Storage,
                                          ts: Tables, ts': Tables, m: ScopeMap, m': ScopeMap,
                                          lists: map<TypeDecl, seq<FuncDecl>>, lists': map<TypeDecl, seq<FuncDecl>>)
    requires Setup(builtins, ps, owners, slots, nodes) && i < |ps| && ss.Keys == slots
    requires WellFormed(st) && WellFormed(st') && st <= st' && World(builtins, ps, owners, i, ss, st, ts, m, lists)
    requires SlotsKept(ss, ss', owners[i]) && ScopesKept(m, m', UnitNodes(ps[i]))
             && SameOutside(ts, ts', UnitNodes(ps[i]))
    requires Sound(EnvOf(builtins, ps[i]), owners[i], st', TypingIn(ss', owners[i]))
    requires Finished(builtins, ps[i], owners[i], ss', st', ts')
    requires ListsGained(EnvOf(builtins, ps[i]), lists, lists', ps[i].decls)
    ensures World(builtins, ps, owners, i + 1, ss', st', ts', m', lists')
  {
    hide WellFormed, Finished, Pending, SlotsKept, SameOutside, Sound, ListsGained, ListsAre, ListsHold, ListsOnce, EnvOf;
    hide UnitShaped, UnitNodes;
    forall j | 0 <= j < i
      ensures Finished(builtins, ps[j], owners[j], ss', st', ts')
    {
      ShapedOwns(builtins, ps[j], owners[j]);
      StaysFinished(builtins, ps[j], owners[j], ps[i], owners[i], ss, ss', st, st', ts, ts');
    }
    forall k | i < k < |ps|
      ensures Pending(builtins, ps[k], owners[k], ss', st') && Unentered(ps[k], m')
    {
      ShapedOwns(builtins, ps[i], owners[i]);
      ShapedOwns(builtins, ps[k], owners[k]);
      StaysPending(builtins, ps[k], owners[k], ps[i], owners[i], ss, ss', st, st');
      assert Separate(builtins, ps[k], owners[k], ps[i], owners[i]);
    }
    assert ps[..i + 1] == ps[..i] + [ps[i]];
    ListsAfterUnit(builtins, ps[..i], ps[i], lists, lists');
    ListsAreExact(builtins, ps[..i + 1], lists');
    SetupAttachesOnce(builtins, ps, owners, slots, nodes, i + 1, lists');
  }

  lemma {:induction false} ShapedOwns(builtins: Env, p: ProgramDecl, owner: Owner)
    requires UnitShaped(builtins, p, owner)
    ensures Owns(owner, builtins, p) && AllEnd(EnvOf(builtins, p), Roots(p))
  {
    hide Owns, AllEnd, Shaped, UnitDistinct, Placed, Outer;
    OwnsMore(owner, builtins, p);
  }

  /** Nodes as the parser leaves them: no scope, no binding, no type. */
  lemma {:induction false} FreshWorld(builtins: Env, ps: seq<ProgramDecl>, owners: seq<Owner>, slots: set<TypeSlot>,
                                      nodes: set<ScopedASTNode>, ss: Slots, st: Storage, ts: Tables, m: ScopeMap)
    requires Setup(builtins, ps, owners, slots, nodes) && WellFormed(st)
    requires ss.Keys == slots && forall s :: s in slots ==> ss[s] == SlotState(null, UNKNOWN)
    requires m.Keys == nodes && forall n :: n in nodes ==> m[n] == null
    ensures World(builtins, ps, owners, 0, ss, st, ts, m, map[])
  {
    hide WellFormed, EnvOf, UnitShaped, UnitNodes, NormalForm, Means, DeclsLocals;
    forall k | 0 <= k < |ps| ensures DeclsLocals(ps[k].decls) <= owners[k].Keys {
      ShapedLocals(builtins, ps[k], owners[k]);
    }
  }

  lemma {:induction false} ShapedLocals(builtins: Env, p: ProgramDecl, owner: Owner)
    requires UnitShaped(builtins, p, owner)
    ensures DeclsLocals(p.decls) <= owner.Keys
  {
    hide Owns, AllEnd, Shaped, UnitDistinct, Placed, Outer, DeclDeep;
    LocalsAreOwned(builtins, p, owner);
  }

  /** Every unit in order, as the driver runs them. The run goes through exactly if no unit has a typed function after an
      untyped first one of its name; then every unit is finished, and every function list is exact. */
  method AnalyseUnits(ps: seq<ProgramDecl>, lc: LexicalContext<Decl>, tc: TypeContext, dc: DiagnosticConsumer,
                      ghost builtins: Env, ghost owners: seq<Owner>, ghost slots: set<TypeSlot>,
                      ghost nodes: set<ScopedASTNode>)
    returns (ok: bool)
    requires Setup(builtins, ps, owners, slots, nodes)
    requires TreeOk(lc.scopeStorage, ScopesOf(nodes)) && lc.scopeStorage[0].symbolTable == TypeTable(builtins)
    requires tc.Valid()
             && World(builtins, ps, owners, 0, SlotsOf(slots), tc.storage, TablesOf(nodes), ScopesOf(nodes), tc.impls)
    modifies lc, nodes, ScopeSet(nodes), tc, slots, dc
    ensures TreeOk(lc.scopeStorage, ScopesOf(nodes)) && lc.scopeStorage[0].symbolTable == TypeTable(builtins)
    ensures tc.Valid()
    ensures ok <==> forall k :: 0 <= k < |ps| ==> !UnitUnjudgeable(EnvOf(builtins, ps[k]), ps[k].decls)
    ensures ok ==> World(builtins, ps, owners, |ps|, SlotsOf(slots), tc.storage, TablesOf(nodes), ScopesOf(nodes), tc.impls)
  {
    hide Nested, OneEach, Grown, Consistent, WellFormed, World, ScopeSet, ScopesOf, TablesOf, SlotsOf,
         UnitUnjudgeable, EnvOf, TypeTable,
         UnitShaped, Separate;
    for i := 0 to |ps|
      invariant TreeOk(lc.scopeStorage, ScopesOf(nodes)) && lc.scopeStorage != []
      invariant lc.scopeStorage[0].symbolTable == TypeTable(builtins)
      invariant forall s :: s in ScopeSet(nodes) ==> s in old(ScopeSet(nodes)) || fresh(s)
      invariant tc.Valid() && WellFormed(tc.storage)
      invariant forall k :: 0 <= k < i ==> !UnitUnjudgeable(EnvOf(builtins, ps[k]), ps[k].decls)
      invariant World(builtins, ps, owners, i, SlotsOf(slots), tc.storage, TablesOf(nodes), ScopesOf(nodes), tc.impls)
    {
      ok := NextUnit(ps, i, lc, tc, dc, builtins, owners, slots, nodes);
      if !ok {
        return;
      }
    }
    return true;
  }

  method NextUnit(ps: seq<ProgramDecl>, i: nat, lc: LexicalContext<Decl>, tc: TypeContext, dc: DiagnosticConsumer,
                  ghost builtins: Env, ghost owners: seq<Owner>, ghost slots: set<TypeSlot>,
                  ghost nodes: set<ScopedASTNode>)
    returns (ok: bool)
    requires Setup(builtins, ps, owners, slots, nodes) && i < |ps|
    requires TreeOk(lc.scopeStorage, ScopesOf(nodes)) && lc.scopeStorage[0].symbolTable == TypeTable(builtins)
    requires tc.Valid()
             && World(builtins, ps, owners, i, SlotsOf(slots), tc.storage, TablesOf(nodes), ScopesOf(nodes), tc.impls)
    modifies lc, nodes, ScopeSet(nodes), tc, slots, dc
    ensures TreeOk(lc.scopeStorage, ScopesOf(nodes)) && lc.scopeStorage[0].symbolTable == TypeTable(builtins)
    ensures forall s :: s in ScopeSet(nodes) ==> s in old(ScopeSet(nodes)) || fresh(s)
    ensures tc.Valid()
    ensures ok <==> !UnitUnjudgeable(EnvOf(builtins, ps[i]), ps[i].decls)
    ensures ok ==> World(builtins, ps, owners, i + 1, SlotsOf(slots), tc.storage, TablesOf(nodes), ScopesOf(nodes), tc.impls)
  {
    hide Nested, OneEach, Grown, Consistent, UnitShaped, Separate, Finished, NoneMisbound, Sound, EnvOf, TypeTable,
         Unentered, ListsAre,
         UnitNodes, UnitUnjudgeable, BindingIn, TypingIn, BindingOf, TypingOf, TablesOf, ScopesKept, WellFormed, ScopeSet,
         Roots, Resolved, UnitDone, MatRoots, AllBound, AllUnknown, DeclsLocals;
    var p := ps[i];
    ghost var owner := owners[i];
    ghost var ss, st, ts, m, lists := SlotsOf(slots), tc.storage, TablesOf(nodes), ScopesOf(nodes), tc.impls;
    ValidIsWellFormed(tc);
    SameSnapshots(slots, owner);
    NotEnteredYet(p, nodes);
    StorageGrows(builtins, p, owner, st);
    ok := RunUnit(p, lc, tc, dc, builtins, owner, nodes);
    if ok {
      SameSnapshots(slots, owner);
      ValidIsWellFormed(tc);
      FinishedNow(builtins, p, owner, slots, tc, nodes);
      WorldAfterUnit(builtins, ps, owners, slots, nodes, i, ss, SlotsOf(slots), st, tc.storage, ts, TablesOf(nodes),
                     m, ScopesOf(nodes), lists, tc.impls);
    }
  }

  lemma {:induction false} NotEnteredYet(p: ProgramDecl, nodes: set<ScopedASTNode>)
    requires UnitNodes(p) <= nodes && Unentered(p, ScopesOf(nodes))
    ensures NotEntered(p)
  {
    hide DeclsUnder;
    forall n | n in UnitNodes(p)
      ensures n.scope == null
    {
      assert n in ScopesOf(nodes) && ScopesOf(nodes)[n] == n.scope;
    }
  }

  lemma {:induction false} StorageGrows(builtins: Env, p: ProgramDecl, owner: Owner, st: Storage)
    requires UnitShaped(builtins, p, owner) && WellFormed(st)
    ensures WellFormed(MatRoots(EnvOf(builtins, p), st, Roots(p))) && st <= MatRoots(EnvOf(builtins, p), st, Roots(p))
  {
    hide *;
    ShapedOwns(builtins, p, owner);
    MatRootsGrow(EnvOf(builtins, p), st, Roots(p));
  }

  lemma {:induction false} FinishedNow(builtins: Env, p: ProgramDecl, owner: Owner, slots: set<TypeSlot>,
                                       tc: TypeContext,
                                       nodes: set<ScopedASTNode>)
    requires WellFormed(tc.storage) && TypingIn(SlotsOf(slots), owner) == TypingOf(owner)
    requires Resolved(EnvOf(builtins, p), Roots(p), tc.storage, TypingOf(owner))
             && UnitDone(EnvOf(builtins, p), p, TablesOf(nodes))
             && AllUnknown(TypingOf(owner), DeclsLocals(p.decls))
    requires BindingIn(SlotsOf(slots), owner) == BindingOf(owner)
             && AllBound(EnvOf(builtins, p), Roots(p), BindingOf(owner))
    ensures Finished(builtins, p, owner, SlotsOf(slots), tc.storage, TablesOf(nodes))
  {
    hide Resolved, UnitDone, WellFormed, AllBound, AllUnknown, DeclsResolved;
    RootsAreTheDeclarations(EnvOf(builtins, p), p, tc.storage, TypingOf(owner), BindingOf(owner));
  }
}
