/** Arbitrary runs of the interner: any sequence of calls, each using results of earlier ones. */
module InternerRuns {
  import opened QualTypes
  import opened AST
  import opened TypeStorage
  import opened TypeContexts

  /** One call; operands are the positions of the calls whose results are passed. */
  datatype Call =
    | CallUnknown
    | CallUnit
    | CallBuiltin(native: NativeType)
    | CallNamed(decl: TypeDecl)
    | CallPointer(operand: nat)
    | CallArray(operand: nat)
    | CallFunc(operands: seq<nat>, ret: nat)
    | CallObject(entries: map<string, nat>)
    | CallEnum(entries: map<string, nat>)
    | CallMut(operand: nat, flag: bool)
    | CallAddImpl(decl: TypeDecl, func: FuncDecl)

  /** Operands refer to earlier calls. */
  ghost predicate Backward(c: Call, i: nat) {
    match c
    case CallPointer(t) => t < i
    case CallArray(t) => t < i
    case CallMut(t, _) => t < i
    case CallFunc(ts, r) => r < i && forall k :: 0 <= k < |ts| ==> ts[k] < i
    case CallObject(m) => forall k :: k in m ==> m[k] < i
    case CallEnum(m) => forall k :: k in m ==> m[k] < i
    case _ => true
  }

  ghost predicate Ordered(calls: seq<Call>) {
    forall i :: 0 <= i < |calls| ==> Backward(calls[i], i)
  }

  /** The structure call `i` asks for, read off the calls alone. */
  ghost function Denote(calls: seq<Call>, i: nat): SemQual
    requires Ordered(calls) && i < |calls|
    decreases i, 1
  {
    assert Backward(calls[i], i);
    match calls[i]
    case CallUnknown => SemQual(None, false)
    case CallUnit => Plain(SUnit)
    case CallBuiltin(n) => Plain(SBuiltin(n))
    case CallNamed(d) => Plain(SNamed(d))
    case CallPointer(t) => Plain(SPointer(Denote(calls, t)))
    case CallArray(t) => Plain(SArray(Denote(calls, t)))
    case CallFunc(ts, r) =>
      Plain(SFunc(DenoteAll(calls, ts, i), Denote(calls, r)))
    case CallObject(m) => Plain(SObject(DenoteMap(calls, m, i)))
    case CallEnum(m) => Plain(SEnum(DenoteMap(calls, m, i)))
    case CallMut(t, flag) => Denote(calls, t).(mutable := flag)
    case CallAddImpl(_, _) => SemQual(None, false)
  }

  ghost function DenoteAll(calls: seq<Call>, ts: seq<nat>, i: nat): seq<SemQual>
    requires Ordered(calls) && i <= |calls| && forall k :: 0 <= k < |ts| ==> ts[k] < i
    decreases i, 0
  {
    seq(|ts|, k requires 0 <= k < |ts| => Denote(calls, ts[k]))
  }

  ghost function DenoteMap(calls: seq<Call>, m: map<string, nat>, i: nat): map<string, SemQual>
    requires Ordered(calls) && i <= |calls| && forall k :: k in m ==> m[k] < i
    decreases i, 0
  {
    map k | k in m :: Denote(calls, m[k])
  }

  ghost function Plain(t: SemType): SemQual {
    SemQual(Some(t), false)
  }

  /** What the interner's assertions demand: no pointer to the null type, and `addImpl` after `getNamedType`. */
  ghost predicate Legal(calls: seq<Call>, i: nat)
    requires Ordered(calls) && i < |calls|
  {
    assert Backward(calls[i], i);
    match calls[i]
    case CallPointer(t) => Denote(calls, t) != SemQual(None, false)
    case CallArray(t) => Denote(calls, t) != SemQual(None, false)
    case CallAddImpl(d, _) => CallNamed(d) in calls[..i]
    case _ => true
  }

  /** The functions a run attaches to a declaration, in call order. */
  ghost function Attached(calls: seq<Call>, d: TypeDecl): seq<FuncDecl> {
    if calls == [] then [] else
      var last := calls[|calls| - 1];
      Attached(calls[..|calls| - 1], d) +
      if last.CallAddImpl? && last.decl == d then [last.func] else []
  }

  /** The effect of one call on the function lists. */
  ghost function Attach(impls: map<TypeDecl, seq<FuncDecl>>, c: Call): map<TypeDecl, seq<FuncDecl>>
    requires Attachable(impls, c)
  {
    match c
    case CallNamed(d) => if d in impls then impls else impls[d := []]
    case CallAddImpl(d, f) => impls[d := impls[d] + [f]]
    case _ => impls
  }

  ghost predicate Attachable(impls: map<TypeDecl, seq<FuncDecl>>, c: Call) {
    c.CallAddImpl? ==> c.decl in impls
  }

  /** The lists after the first `i` calls hold exactly what those calls attached. */
  ghost predicate ListsExact(impls: map<TypeDecl, seq<FuncDecl>>, calls: seq<Call>) {
    && (forall d :: d in impls ==> CallNamed(d) in calls && impls[d] == Attached(calls, d))
    && (forall i :: 0 <= i < |calls| && calls[i].CallNamed? ==> calls[i].decl in impls)
  }

  lemma {:induction false} AttachKeepsListsExact(impls: map<TypeDecl, seq<FuncDecl>>, calls: seq<Call>, i: nat)
    requires Ordered(calls) && (forall k :: 0 <= k < |calls| ==> Legal(calls, k))
    requires i < |calls| && ListsExact(impls, calls[..i])
    ensures Attachable(impls, calls[i]) && ListsExact(Attach(impls, calls[i]), calls[..i + 1])
  {
    hide Ordered, Denote;
    assert Legal(calls, i);
    assert calls[..i + 1] == calls[..i] + [calls[i]];
    assert calls[..i + 1][..i] == calls[..i];
    if calls[i].CallNamed? && CallNamed(calls[i].decl) !in calls[..i] {
      NothingAttached(calls, i, calls[i].decl);
    }
  }

  /** Every result so far points to the structure its call asked for. */
  ghost predicate Faithful(st: Storage, calls: seq<Call>, rs: seq<QualType>)
    requires WellFormed(st) && Ordered(calls) && |rs| <= |calls|
  {
    forall i :: 0 <= i < |rs| ==> InRange(rs[i], |st|) && UnfoldQ(st, rs[i], |st|) == Denote(calls, i)
  }

  lemma FaithfulStable(st: Storage, st': Storage, calls: seq<Call>, rs: seq<QualType>)
    requires WellFormed(st) && WellFormed(st') && st <= st' && Ordered(calls) && |rs| <= |calls|
    requires Faithful(st, calls, rs)
    ensures Faithful(st', calls, rs)
  {
    forall i | 0 <= i < |rs|
      ensures InRange(rs[i], |st'|) && UnfoldQ(st', rs[i], |st'|) == Denote(calls, i)
    {
      UnfoldQStable(st, st', rs[i]);
    }
  }

  function PickAll(rs: seq<QualType>, ts: seq<nat>): seq<QualType>
    requires forall k :: 0 <= k < |ts| ==> ts[k] < |rs|
  {
    seq(|ts|, k requires 0 <= k < |ts| => rs[ts[k]])
  }

  function PickMap(rs: seq<QualType>, m: map<string, nat>): map<string, QualType>
    requires forall k :: k in m ==> m[k] < |rs|
  {
    map k | k in m :: rs[m[k]]
  }

  /** The object a composite or named call stores. */
  ghost function Requested(c: Call, rs: seq<QualType>): TypeObj
    requires Backward(c, |rs|)
  {
    match c
    case CallBuiltin(n) => BuiltinType(n)
    case CallNamed(d) => NamedType(d)
    case CallPointer(t) => PointerType(rs[t])
    case CallArray(t) => ArrayType(rs[t])
    case CallFunc(ts, r) => FuncType(PickAll(rs, ts), rs[r])
    case CallObject(m) => ObjectType(PickMap(rs, m))
    case CallEnum(m) => EnumType(PickMap(rs, m))
    case _ => UnitType
  }

  lemma RequestedIsBelow(st: Storage, calls: seq<Call>, rs: seq<QualType>)
    requires WellFormed(st) && Ordered(calls) && |rs| < |calls| && Faithful(st, calls, rs)
    requires Backward(calls[|rs|], |rs|)
    ensures Below(Requested(calls[|rs|], rs), |st|)
  {
  }

  lemma MapUnfolds(st: Storage, calls: seq<Call>, rs: seq<QualType>, m: map<string, nat>, p: Address)
    requires WellFormed(st) && p < |st| && Ordered(calls) && |rs| <= |calls| && Faithful(st, calls, rs)
    requires (forall k :: k in m ==> m[k] < |rs|) && InRangeMap(PickMap(rs, m), p)
    ensures UnfoldMap(st, PickMap(rs, m), p) == DenoteMap(calls, m, |rs|)
  {
  }

  lemma SeqUnfolds(st: Storage, calls: seq<Call>, rs: seq<QualType>, ts: seq<nat>, p: Address)
    requires WellFormed(st) && p < |st| && Ordered(calls) && |rs| <= |calls| && Faithful(st, calls, rs)
    requires (forall k :: 0 <= k < |ts| ==> ts[k] < |rs|) && InRangeAll(PickAll(rs, ts), p)
    ensures UnfoldAll(st, PickAll(rs, ts), p) == DenoteAll(calls, ts, |rs|)
  {
  }

  lemma OneUnfolds(st: Storage, calls: seq<Call>, rs: seq<QualType>, t: nat, p: Address)
    requires WellFormed(st) && p < |st| && Ordered(calls) && |rs| <= |calls| && Faithful(st, calls, rs)
    requires t < |rs| && InRange(rs[t], p)
    ensures UnfoldQ(st, rs[t], p) == Denote(calls, t)
  {
  }

  lemma RequestedUnfolds(st: Storage, calls: seq<Call>, rs: seq<QualType>, p: Address)
    requires WellFormed(st) && Ordered(calls) && |rs| < |calls| && Faithful(st, calls, rs)
    requires !calls[|rs|].CallUnknown? && !calls[|rs|].CallMut? && !calls[|rs|].CallAddImpl?
    requires Backward(calls[|rs|], |rs|)
    requires p < |st| && Below(st[p], p) && st[p] == Requested(calls[|rs|], rs)
    ensures Plain(Unfold(st, p)) == Denote(calls, |rs|)
  {
    hide WellFormed, Ordered, Faithful;
    match calls[|rs|] {
      case CallPointer(t) => OneUnfolds(st, calls, rs, t, p);
      case CallArray(t) => OneUnfolds(st, calls, rs, t, p);
      case CallFunc(ts, r) =>
        SeqUnfolds(st, calls, rs, ts, p);
        OneUnfolds(st, calls, rs, r, p);
      case CallObject(m) => MapUnfolds(st, calls, rs, m, p);
      case CallEnum(m) => MapUnfolds(st, calls, rs, m, p);
      case _ =>
    }
  }

  lemma RequestedIsFaithful(st: Storage, calls: seq<Call>, rs: seq<QualType>)
    requires WellFormed(st) && Ordered(calls) && |rs| < |calls| && Faithful(st, calls, rs)
    requires !calls[|rs|].CallUnknown? && !calls[|rs|].CallMut? && !calls[|rs|].CallAddImpl?
    requires Backward(calls[|rs|], |rs|)
    ensures var o := Requested(calls[|rs|], rs);
            Below(o, |st|) && WellFormed(Intern(st, o).0) &&
            Faithful(Intern(st, o).0, calls, rs + [At(Intern(st, o).1)])
  {
    var o := Requested(calls[|rs|], rs);
    RequestedIsBelow(st, calls, rs);
    InternKeepsWellFormed(st, o);
    FaithfulStable(st, Intern(st, o).0, calls, rs);
    assert Below(Intern(st, o).0[Intern(st, o).1], Intern(st, o).1);
    RequestedUnfolds(Intern(st, o).0, calls, rs, Intern(st, o).1);
  }

  /** Perform one call. */
  method Step(tc: TypeContext, ghost calls: seq<Call>, c: Call, rs: seq<QualType>) returns (r: QualType)
    requires tc.Valid() && Ordered(calls) && |rs| < |calls| && c == calls[|rs|]
    requires Faithful(tc.storage, calls, rs) && Legal(calls, |rs|)
    requires Attachable(tc.impls, c)
    modifies tc
    ensures tc.Valid() && Faithful(tc.storage, calls, rs + [r])
    ensures tc.impls == Attach(old(tc.impls), c)
  {
    hide Consistent;
    assert Backward(c, |rs|);
    if !c.CallUnknown? && !c.CallMut? && !c.CallAddImpl? {
      RequestedIsFaithful(tc.storage, calls, rs);
    }
    match c {
      case CallUnknown => r := tc.GetUnknownType();
      case CallUnit => r := tc.GetUnitType();
      case CallBuiltin(n) => r := tc.GetBuiltinType(n);
      case CallNamed(d) => r := tc.GetNamedType(d);
      case CallPointer(t) => r := tc.GetPointerType(rs[t]);
      case CallArray(t) => r := tc.GetArrayType(rs[t]);
      case CallFunc(ts, ret) =>
        r := tc.GetFuncType(PickAll(rs, ts), rs[ret]);
      case CallObject(m) => r := tc.GetObjectType(PickMap(rs, m));
      case CallEnum(m) => r := tc.GetEnumType(PickMap(rs, m));
      case CallMut(t, flag) => r := rs[t].Mut(flag);
      case CallAddImpl(d, f) =>
        tc.AddImpl(d, f);
        r := tc.GetUnknownType();
    }
  }

  /** Whatever calls are made in whatever order, equal results mean equal structures and nothing else;
      results never change their meaning; and each declaration's function list is the calls' order. */
  method Run(calls: seq<Call>) returns (tc: TypeContext, rs: seq<QualType>)
    requires Ordered(calls) && forall i :: 0 <= i < |calls| ==> Legal(calls, i)
    ensures tc.Valid() && |rs| == |calls| && Faithful(tc.storage, calls, rs)
    ensures forall i, j :: 0 <= i < |rs| && 0 <= j < |rs| ==> (rs[i] == rs[j] <==> Denote(calls, i) == Denote(calls, j))
    ensures ListsExact(tc.impls, calls)
  {
    hide Consistent;
    tc := new TypeContext();
    rs := [];
    for i := 0 to |calls|
      invariant fresh(tc) && tc.Valid()
      invariant |rs| == i && Faithful(tc.storage, calls, rs)
      invariant ListsExact(tc.impls, calls[..i])
    {
      AttachKeepsListsExact(tc.impls, calls, i);
      var r := Step(tc, calls, calls[i], rs);
      rs := rs + [r];
    }
    assert calls[..|calls|] == calls;
    forall i, j | 0 <= i < |rs| && 0 <= j < |rs|
      ensures rs[i] == rs[j] <==> Denote(calls, i) == Denote(calls, j)
    {
      QualTypesAreCanonical(tc.storage, rs[i], rs[j]);
    }
  }

  lemma {:induction false} NothingAttached(calls: seq<Call>, i: nat, d: TypeDecl)
    requires Ordered(calls) && (forall k :: 0 <= k < |calls| ==> Legal(calls, k))
    requires i <= |calls| && CallNamed(d) !in calls[..i]
    ensures Attached(calls[..i], d) == []
  {
    if i > 0 {
      assert calls[..i][..i - 1] == calls[..i - 1];
      assert Legal(calls, i - 1);
      NothingAttached(calls, i - 1, d);
    }
  }
}
