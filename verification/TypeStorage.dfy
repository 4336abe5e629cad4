/** The store of type objects, as a value: what an address denotes, and why hash-consing makes
    addresses stand for structures. */
module TypeStorage {
  import opened QualTypes
  import opened AST

  /** One type object. Composite objects hold qualified addresses of their components. */
  datatype TypeObj =
    | UnitType
    | BuiltinType(native: NativeType)
    | NamedType(decl: TypeDecl)
    | PointerType(pointee: QualType)
    | ArrayType(element: QualType)
    | FuncType(params: seq<QualType>, ret: QualType)
    | ObjectType(fields: map<string, QualType>)
    | EnumType(members: map<string, QualType>)

  type Storage = seq<TypeObj>

  ghost predicate InRange(q: QualType, n: nat) {
    q.ty.Some? ==> q.ty.value < n
  }

  ghost predicate InRangeAll(qs: seq<QualType>, n: nat) {
    forall i :: 0 <= i < |qs| ==> InRange(qs[i], n)
  }

  ghost predicate InRangeMap(m: map<string, QualType>, n: nat) {
    forall k :: k in m ==> InRange(m[k], n)
  }

  /** Every component of the object lies below `n`. */
  ghost predicate Below(o: TypeObj, n: nat) {
    match o
    case PointerType(q) => InRange(q, n)
    case ArrayType(q) => InRange(q, n)
    case FuncType(ps, r) => InRangeAll(ps, n) && InRange(r, n)
    case ObjectType(m) => InRangeMap(m, n)
    case EnumType(m) => InRangeMap(m, n)
    case _ => true
  }

  /** Components are older than the object that uses them, and no object is stored twice. */
  ghost predicate WellFormed(st: Storage) {
    && (forall i :: 0 <= i < |st| ==> Below(st[i], i))
    && (forall i, j :: 0 <= i < j < |st| ==> st[i] != st[j])
  }

  /** The structure an address stands for: a finite tree with no addresses left in it. */
  datatype SemType =
    | SUnit
    | SBuiltin(native: NativeType)
    | SNamed(decl: TypeDecl)
    | SPointer(pointee: SemQual)
    | SArray(element: SemQual)
    | SFunc(params: seq<SemQual>, ret: SemQual)
    | SObject(fields: map<string, SemQual>)
    | SEnum(members: map<string, SemQual>)

  datatype SemQual = SemQual(ty: Option<SemType>, mutable: bool)

  ghost function Unfold(st: Storage, p: Address): SemType
    requires WellFormed(st) && p < |st|
    decreases p, 3
  {
    assert Below(st[p], p);
    match st[p]
    case UnitType => SUnit
    case BuiltinType(n) => SBuiltin(n)
    case NamedType(d) => SNamed(d)
    case PointerType(q) => SPointer(UnfoldQ(st, q, p))
    case ArrayType(q) => SArray(UnfoldQ(st, q, p))
    case FuncType(ps, r) => SFunc(UnfoldAll(st, ps, p), UnfoldQ(st, r, p))
    case ObjectType(m) => SObject(UnfoldMap(st, m, p))
    case EnumType(m) => SEnum(UnfoldMap(st, m, p))
  }

  ghost function UnfoldQ(st: Storage, q: QualType, n: nat): SemQual
    requires WellFormed(st) && n <= |st| && InRange(q, n)
    decreases n, 1
  {
    SemQual(if q.ty.None? then None else Some(Unfold(st, q.ty.value)), q.mutable)
  }

  ghost function UnfoldAll(st: Storage, qs: seq<QualType>, n: nat): (ss: seq<SemQual>)
    requires WellFormed(st) && n <= |st| && InRangeAll(qs, n)
    ensures |ss| == |qs|
    decreases n, 2
  {
    seq(|qs|, i requires 0 <= i < |qs| => UnfoldQ(st, qs[i], n))
  }

  ghost function UnfoldMap(st: Storage, m: map<string, QualType>, n: nat): map<string, SemQual>
    requires WellFormed(st) && n <= |st| && InRangeMap(m, n)
    decreases n, 2
  {
    map k | k in m :: UnfoldQ(st, m[k], n)
  }

  /** Storing an object: its existing address, or a fresh one at the end. */
  ghost function Intern(st: Storage, o: TypeObj): (r: (Storage, Address))
    ensures st <= r.0 && r.1 < |r.0| && r.0[r.1] == o
    ensures o in st ==> r.0 == st
  {
    if o in st then (var p :| 0 <= p < |st| && st[p] == o; (st, p)) else (st + [o], |st|)
  }

  lemma InternKeepsWellFormed(st: Storage, o: TypeObj)
    requires WellFormed(st) && Below(o, |st|)
    ensures WellFormed(Intern(st, o).0)
  {
  }

  /** An object that is stored has exactly one address. */
  lemma InternFindsAddress(st: Storage, o: TypeObj, p: Address)
    requires WellFormed(st) && p < |st| && st[p] == o
    ensures Intern(st, o) == (st, p)
  {
  }

  /** What an address stands for never changes as the store grows. */
  lemma {:induction false} UnfoldStable(st: Storage, st': Storage, p: Address)
    requires WellFormed(st) && WellFormed(st') && st <= st' && p < |st|
    ensures Unfold(st, p) == Unfold(st', p)
    decreases p
  {
    assert st[p] == st'[p] && Below(st[p], p);
    forall q: Address | q < p
      ensures Unfold(st, q) == Unfold(st', q)
    {
      UnfoldStable(st, st', q);
    }
    assert forall q | InRange(q, p) :: UnfoldQ(st, q, p) == UnfoldQ(st', q, p);
    match st[p] {
      case FuncType(ps, r) => assert UnfoldAll(st, ps, p) == UnfoldAll(st', ps, p);
      case ObjectType(m) => assert UnfoldMap(st, m, p) == UnfoldMap(st', m, p);
      case EnumType(m) => assert UnfoldMap(st, m, p) == UnfoldMap(st', m, p);
      case _ =>
    }
  }

  lemma UnfoldQStable(st: Storage, st': Storage, q: QualType)
    requires WellFormed(st) && WellFormed(st') && st <= st' && InRange(q, |st|)
    ensures UnfoldQ(st, q, |st|) == UnfoldQ(st', q, |st'|)
  {
    if q.ty.Some? {
      UnfoldStable(st, st', q.ty.value);
    }
  }

  /** Hash-consing is canonical: two addresses are equal exactly when their structures are. */
  lemma {:induction false} AddressesAreCanonical(st: Storage, p: Address, q: Address)
    requires WellFormed(st) && p < |st| && q < |st|
    ensures p == q <==> Unfold(st, p) == Unfold(st, q)
    decreases p
  {
    if Unfold(st, p) == Unfold(st, q) {
      assert Below(st[p], p) && Below(st[q], q);
      forall a: QualType, b: QualType | InRange(a, p) && InRange(b, q) && UnfoldQ(st, a, p) == UnfoldQ(st, b, q)
        ensures a == b
      {
        if a.ty.Some? {
          AddressesAreCanonical(st, a.ty.value, b.ty.value);
        }
      }
      match st[p] {
        case FuncType(ps, r) =>
          var qs := st[q].params;
          assert |ps| == |UnfoldAll(st, ps, p)| == |qs|;
          forall i | 0 <= i < |ps|
            ensures ps[i] == qs[i]
          {
            assert UnfoldAll(st, ps, p)[i] == UnfoldAll(st, qs, q)[i];
          }
        case ObjectType(m) => SameMap(st, m, p, st[q].fields, q);
        case EnumType(m) => SameMap(st, m, p, st[q].members, q);
        case _ =>
      }
      assert st[p] == st[q];
    }
  }

  lemma SameMap(st: Storage, m: map<string, QualType>, p: Address, m': map<string, QualType>, q: Address)
    requires WellFormed(st) && p < |st| && q < |st| && InRangeMap(m, p) && InRangeMap(m', q)
    requires UnfoldMap(st, m, p) == UnfoldMap(st, m', q)
    requires forall a: QualType, b: QualType ::
               InRange(a, p) && InRange(b, q) && UnfoldQ(st, a, p) == UnfoldQ(st, b, q) ==> a == b
    ensures m == m'
  {
    assert m.Keys == UnfoldMap(st, m, p).Keys == m'.Keys;
    forall k | k in m
      ensures m[k] == m'[k]
    {
      assert UnfoldMap(st, m, p)[k] == UnfoldMap(st, m', q)[k];
    }
  }

  lemma QualTypesAreCanonical(st: Storage, a: QualType, b: QualType)
    requires WellFormed(st) && InRange(a, |st|) && InRange(b, |st|)
    ensures a == b <==> UnfoldQ(st, a, |st|) == UnfoldQ(st, b, |st|)
  {
    if a.ty.Some? && b.ty.Some? {
      AddressesAreCanonical(st, a.ty.value, b.ty.value);
    }
  }
}
